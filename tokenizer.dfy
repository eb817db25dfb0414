/**
 * `get_vector_input` (A1-Unix-Creating-And-Monitoring-Processes-master/shared_functions.cpp):
 * the words `istringstream >> string` extracts from a line, appended to a
 * vector. A word is a maximal run of characters that are not white space
 * in the "C" locale.
 */
module Tokenizer {
  import opened Text

  /** The first position at or after `from` that is not white space, or the end. */
  function SkipFrom(s: string, from: nat): (j: nat)
    requires from <= |s|
    ensures from <= j <= |s| && (j == |s| || !IsSpace(s[j]))
    ensures forall i :: from <= i < j ==> IsSpace(s[i])
    decreases |s| - from
  {
    if from == |s| || !IsSpace(s[from]) then from else SkipFrom(s, from + 1)
  }

  /** The first position at or after `from` that is white space, or the end. */
  function WordEnd(s: string, from: nat): (k: nat)
    requires from <= |s|
    ensures from <= k <= |s| && (k == |s| || IsSpace(s[k]))
    ensures forall i :: from <= i < k ==> !IsSpace(s[i])
    decreases |s| - from
  {
    if from == |s| || IsSpace(s[from]) then from else WordEnd(s, from + 1)
  }

  /** A string without white space. */
  predicate Solid(t: string) {
    forall i :: 0 <= i < |t| ==> !IsSpace(t[i])
  }

  /** The words extracted from position `from` on; each is nonempty and holds no white space. */
  function TokensFrom(s: string, from: nat): (ts: seq<string>)
    requires from <= |s|
    ensures forall i :: 0 <= i < |ts| ==> ts[i] != [] && Solid(ts[i])
    decreases |s| - from
  {
    var j := SkipFrom(s, from);
    if j == |s| then []
    else
      var k := WordEnd(s, j);
      var rest := TokensFrom(s, k);
      assert forall i :: 1 <= i < |rest| + 1 ==> ([s[j..k]] + rest)[i] == rest[i - 1];
      [s[j..k]] + rest
  }

  /** The words of a whole line. */
  function Tokens(s: string): (ts: seq<string>)
    ensures forall i :: 0 <= i < |ts| ==> ts[i] != [] && Solid(ts[i])
  {
    TokensFrom(s, 0)
  }

  /** The words put back together without separators. */
  function Concat(ts: seq<string>): string {
    if ts == [] then [] else ts[0] + Concat(ts[1..])
  }

  /** The characters of `s` that are not white space, in order. */
  function NonSpace(s: string): string {
    if s == [] then [] else (if IsSpace(s[0]) then [] else [s[0]]) + NonSpace(s[1..])
  }

  lemma {:induction false} NonSpaceAppend(a: string, b: string)
    ensures NonSpace(a + b) == NonSpace(a) + NonSpace(b)
    decreases |a|
  {
    if a == [] {
      assert a + b == b;
    } else {
      assert (a + b)[1..] == a[1..] + b;
      NonSpaceAppend(a[1..], b);
    }
  }

  lemma {:induction false} NonSpaceOfBlank(s: string)
    requires forall i :: 0 <= i < |s| ==> IsSpace(s[i])
    ensures NonSpace(s) == []
    decreases |s|
  {
    if s != [] {
      NonSpaceOfBlank(s[1..]);
    }
  }

  lemma {:induction false} NonSpaceOfSolid(s: string)
    requires Solid(s)
    ensures NonSpace(s) == s
    decreases |s|
  {
    if s != [] {
      NonSpaceOfSolid(s[1..]);
    }
  }

  /** White space, then a word, then the rest: only the word and the rest's letters remain. */
  lemma NonSpaceSplit(s: string, from: nat, j: nat, k: nat)
    requires from <= j <= k <= |s|
    requires forall i :: from <= i < j ==> IsSpace(s[i])
    requires Solid(s[j..k])
    ensures NonSpace(s[from..]) == s[j..k] + NonSpace(s[k..])
  {
    assert s[from..] == s[from..j] + s[j..];
    NonSpaceAppend(s[from..j], s[j..]);
    NonSpaceOfBlank(s[from..j]);
    assert s[j..] == s[j..k] + s[k..];
    NonSpaceAppend(s[j..k], s[k..]);
    NonSpaceOfSolid(s[j..k]);
  }

  /**
   * Nothing is lost and nothing is reordered: the words, put back together,
   * are the line with its white space removed.
   */
  lemma {:induction false} TokensCover(s: string, from: nat)
    requires from <= |s|
    ensures Concat(TokensFrom(s, from)) == NonSpace(s[from..])
    decreases |s| - from
  {
    var j := SkipFrom(s, from);
    if j == |s| {
      NonSpaceOfBlank(s[from..]);
    } else {
      var k := WordEnd(s, j);
      var rest := TokensFrom(s, k);
      var ts := [s[j..k]] + rest;
      assert TokensFrom(s, from) == ts;
      assert ts[1..] == rest;
      TokensCover(s, k);
      assert Concat(ts) == s[j..k] + Concat(rest);
      NonSpaceSplit(s, from, j, k);
    }
  }

  /** A line yields no word exactly when it is all white space. */
  lemma NoTokensIffBlank(s: string)
    ensures Tokens(s) == [] <==> forall i :: 0 <= i < |s| ==> IsSpace(s[i])
  {
  }

  /** White space at `i` is skipped; a word starting at `i` is the next token. */
  lemma TokensStep(s: string, i: nat)
    requires i < |s|
    ensures IsSpace(s[i]) ==> TokensFrom(s, i) == TokensFrom(s, i + 1)
    ensures !IsSpace(s[i]) ==> TokensFrom(s, i) == [s[i..WordEnd(s, i)]] + TokensFrom(s, WordEnd(s, i))
  {
  }

  /**
   * `get_vector_input`: the words of `input` appended, in order, to what the
   * vector held, which stays as its prefix.
   */
  method GetVectorInput(splitInput: seq<string>, input: string) returns (result: seq<string>)
    ensures result == splitInput + Tokens(input)
  {
    result := splitInput;
    var i := 0;
    while i < |input|
      invariant 0 <= i <= |input|
      invariant splitInput + Tokens(input) == result + TokensFrom(input, i)
      decreases |input| - i
    {
      TokensStep(input, i);
      if IsSpace(input[i]) {
        i := i + 1;
      } else {
        var k := i;
        while k < |input| && !IsSpace(input[k])
          invariant i <= k <= |input|
          invariant forall m :: i <= m < k ==> !IsSpace(input[m])
          decreases |input| - k
        {
          k := k + 1;
        }
        assert k == WordEnd(input, i);
        var word := input[i..k];
        assert result + ([word] + TokensFrom(input, k)) == (result + [word]) + TokensFrom(input, k);
        result := result + [word];
        i := k;
      }
    }
  }
}
