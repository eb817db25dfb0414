/**
 * Switch names given on the command line and the names of the FIFOs that
 * link two endpoints (a3/a3sdn.cpp, a2/a2sdn.cpp).
 */
module Names {
  import opened Wrappers
  import opened Decimal
  import opened Packets

  /**
   * `checkSwitchName`: the switch number a port argument names, or `None`
   * when the name is rejected (the output is then left unassigned).
   * "null" names the absent neighbour, -1. Any three-character name is read
   * as a switch name: the test for the "sw" prefix accepts every string.
   */
  function CheckSwitchName(name: string): (r: Option<int>)
    ensures r.Some? <==> name == "null" || (|name| == 3 && '1' <= name[2] <= '7')
    ensures r == Some(-1) <==> name == "null"
    ensures r.Some? && r.value != -1 ==> 1 <= r.value <= MAX_NSW && r.value == (name[2] as int) - ('0' as int)
  {
    if |name| == 3 then
      var testNumber := (name[2] as int) - 48;
      if 0 < testNumber < 8 then Some(testNumber) else None
    else if name == "null" then Some(-1)
    else None
  }

  /** The first two characters of a three-character name are never examined. */
  lemma SwitchPrefixNotChecked()
    ensures CheckSwitchName("xy5") == Some(5)
    ensures CheckSwitchName("sw0") == None && CheckSwitchName("sw8") == None
  {
  }

  /** `string::insert(pos, t)`: `t` placed before position `pos`. */
  function Insert(s: string, pos: nat, t: string): (r: string)
    requires pos <= |s|
    ensures |r| == |s| + |t|
    ensures r[..pos] == s[..pos] && r[pos..pos + |t|] == t && r[pos + |t|..] == s[pos..]
  {
    s[..pos] + t + s[pos..]
  }

  /**
   * `determineFIFOName`: the sender's number is inserted at position 5 of
   * "fifo--" and the receiver's number at position 7 of the result.
   */
  function DetermineFIFOName(sender: int, receiver: int): (name: string)
    ensures |name| == 6 + |IntToString(sender)| + |IntToString(receiver)|
    ensures name[..5] == "fifo-"
  {
    var fifo := Insert("fifo--", 5, IntToString(sender));
    Insert(fifo, 7, IntToString(receiver))
  }

  /** For a one-digit sender the name is "fifo-" sender "-" receiver. */
  lemma FIFONameShape(sender: int, receiver: int)
    requires 0 <= sender <= 9
    ensures DetermineFIFOName(sender, receiver) == "fifo-" + IntToString(sender) + "-" + IntToString(receiver)
  {
    SingleDigitString(sender);
  }

  /** Distinct (sender, receiver) pairs with one-digit senders get distinct FIFOs. */
  lemma FIFONamesDistinct(s1: int, r1: int, s2: int, r2: int)
    requires 0 <= s1 <= 9 && 0 <= s2 <= 9
    requires DetermineFIFOName(s1, r1) == DetermineFIFOName(s2, r2)
    ensures s1 == s2 && r1 == r2
  {
    FIFONameShape(s1, r1);
    FIFONameShape(s2, r2);
    SingleDigitString(s1);
    SingleDigitString(s2);
    var n := DetermineFIFOName(s1, r1);
    assert n[5] == DigitChar(s1) && n[5] == DigitChar(s2);
    assert IntToString(r1) == n[7..] == IntToString(r2);
    IntToStringInjective(r1, r2);
  }

  /** A two-digit sender makes the receiver land before the final '-'. */
  lemma FIFONameTwoDigitSender()
    ensures DetermineFIFOName(10, 1) == "fifo-101-"
  {
    assert IntToString(10) == "10";
  }
}
