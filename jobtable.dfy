/**
 * The job shell's bookkeeping (a1/a1jobs.cpp): the argument splitter
 * `parseInput`, the 32-entry table of admitted jobs that `run`,
 * `terminate` and `exitFunction` update in place, and the split of an input
 * line into its command word and argument text.
 *
 * Forking, exec and signals are not modelled: the pid `fork` returned is a
 * parameter, and the pids a procedure would signal are returned.
 */
module JobTable {
  import opened Wrappers
  import opened Text

  const MAXJOBS := 32

  datatype Job = Job(index: int, headPid: int, command: string, terminated: bool)

  /** `s.find(" ", from)`: the first space at or after `from`, or -1. */
  function Find(s: string, from: nat): (k: int)
    requires from <= |s|
    ensures k == -1 || (from <= k < |s| && s[k] == ' ')
    decreases |s| - from
  {
    if from == |s| then -1 else if s[from] == ' ' then from else Find(s, from + 1)
  }

  /** No space comes before the one `Find` returns. */
  lemma {:induction false} FindIsFirst(s: string, from: nat)
    requires from <= |s|
    ensures var k := Find(s, from);
      forall j :: from <= j < |s| && (k == -1 || j < k) ==> s[j] != ' '
    decreases |s| - from
  {
    if from < |s| && s[from] != ' ' {
      FindIsFirst(s, from + 1);
    }
  }

  /** The texts between single spaces from position `from` on. */
  function FieldsFrom(s: string, from: nat): (f: seq<string>)
    requires from <= |s|
    ensures |f| >= 1
    decreases |s| - from
  {
    var k := Find(s, from);
    if k < 0 then [s[from..]] else [s[from..k]] + FieldsFrom(s, k + 1)
  }

  /** One step of the split: the field up to the next space, or the rest when there is none. */
  lemma FieldsFromStep(s: string, from: nat)
    requires from <= |s|
    ensures var k := Find(s, from);
      FieldsFrom(s, from) == if k < 0 then [s[from..]] else [s[from..k]] + FieldsFrom(s, k + 1)
  {
  }

  /** The fields of `s` split at every single space; empty fields are kept. */
  function Fields(s: string): (f: seq<string>)
    ensures |f| >= 1 && Join(f) == s
  {
    FieldsJoin(s, 0);
    FieldsFrom(s, 0)
  }

  /** The fields put back together with one space between each two. */
  function Join(f: seq<string>): string
    requires |f| >= 1
  {
    if |f| == 1 then f[0] else f[0] + " " + Join(f[1..])
  }

  function Spaces(s: string): nat {
    if s == [] then 0 else (if s[0] == ' ' then 1 else 0) + Spaces(s[1..])
  }

  /** Splitting is exact: joining the fields gives back the text. */
  lemma {:induction false} FieldsJoin(s: string, from: nat)
    requires from <= |s|
    ensures Join(FieldsFrom(s, from)) == s[from..]
    decreases |s| - from
  {
    var k := Find(s, from);
    if k >= 0 {
      var rest := FieldsFrom(s, k + 1);
      calc {
        Join(FieldsFrom(s, from));
        == { FieldsFromStep(s, from); }
        Join([s[from..k]] + rest);
        == { JoinCons(s[from..k], rest); }
        s[from..k] + " " + Join(rest);
        == { FieldsJoin(s, k + 1); }
        s[from..k] + " " + s[k + 1..];
        == { CutAtSpace(s, from, k); }
        s[from..];
      }
    } else {
      FieldsFromStep(s, from);
    }
  }

  /** The text from `from` is the part before the space at `k`, the space, and the part after. */
  lemma CutAtSpace(s: string, from: nat, k: nat)
    requires from <= k < |s| && s[k] == ' '
    ensures s[from..] == s[from..k] + " " + s[k + 1..]
  {
  }

  /** Joining a first field onto the others puts one space between. */
  lemma JoinCons(a: string, rest: seq<string>)
    requires |rest| >= 1
    ensures Join([a] + rest) == a + " " + Join(rest)
  {
    assert ([a] + rest)[1..] == rest;
  }

  /** No field holds a space. */
  lemma {:induction false} FieldsHaveNoSpace(s: string, from: nat)
    requires from <= |s|
    ensures forall i :: 0 <= i < |FieldsFrom(s, from)| ==> ' ' !in FieldsFrom(s, from)[i]
    decreases |s| - from
  {
    var f := FieldsFrom(s, from);
    var k := Find(s, from);
    FieldHeadHasNoSpace(s, from);
    if k >= 0 {
      FieldsHaveNoSpace(s, k + 1);
      var rest := FieldsFrom(s, k + 1);
      assert f == [s[from..k]] + rest;
      forall i | 0 <= i < |f| ensures ' ' !in f[i] {
        if i > 0 {
          assert f[i] == rest[i - 1];
        }
      }
    } else {
      assert f == [s[from..]];
    }
  }

  /** There is one field more than there are spaces. */
  lemma {:induction false} FieldsCount(s: string, from: nat)
    requires from <= |s|
    ensures |FieldsFrom(s, from)| == Spaces(s[from..]) + 1
    decreases |s| - from
  {
    var k := Find(s, from);
    FieldHeadHasNoSpace(s, from);
    if k < 0 {
      NoSpaces(s[from..]);
    } else {
      FieldsCount(s, k + 1);
      assert |FieldsFrom(s, from)| == 1 + |FieldsFrom(s, k + 1)|;
      SpacesAtFirst(s, from, k);
    }
  }

  /** Up to the first space there is none, so the spaces counted are that one and those after it. */
  lemma SpacesAtFirst(s: string, from: nat, k: nat)
    requires from <= k < |s| && s[k] == ' ' && ' ' !in s[from..k]
    ensures Spaces(s[from..]) == 1 + Spaces(s[k + 1..])
  {
    NoSpaces(s[from..k]);
    SpacesAppend(s[from..k], s[k..]);
    assert s[from..] == s[from..k] + s[k..];
    assert s[k..][1..] == s[k + 1..];
  }

  /** The text from `from` up to the space `Find` returns, or to the end, holds no space. */
  lemma FieldHeadHasNoSpace(s: string, from: nat)
    requires from <= |s|
    ensures var k := Find(s, from);
      ' ' !in s[from..if k < 0 then |s| else k]
  {
    var k := Find(s, from);
    var end := if k < 0 then |s| else k;
    FindIsFirst(s, from);
    assert forall j :: 0 <= j < end - from ==> s[from..end][j] != ' ';
  }

  lemma {:induction false} NoSpaces(s: string)
    requires ' ' !in s
    ensures Spaces(s) == 0
    decreases |s|
  {
    if s != [] {
      NoSpaces(s[1..]);
    }
  }

  lemma {:induction false} SpacesAppend(a: string, b: string)
    ensures Spaces(a + b) == Spaces(a) + Spaces(b)
    decreases |a|
  {
    if a != [] {
      assert (a + b)[1..] == a[1..] + b;
      SpacesAppend(a[1..], b);
    } else {
      assert a + b == b;
    }
  }

  /**
   * `parseInput`: with at most four spaces, the fields go to
   * `runCommands[0..]` and their number is returned; with five or more,
   * the first five fields are written and -1 is returned.
   */
  method ParseInput(runCommands: array<string>, input: string) returns (numArgs: int)
    requires runCommands.Length == 5
    modifies runCommands
    ensures numArgs == -1 <==> |Fields(input)| > 5
    ensures numArgs != -1 ==> numArgs == |Fields(input)| && runCommands[..numArgs] == Fields(input)
    ensures numArgs == -1 ==> runCommands[..] == Fields(input)[..5]
  {
    numArgs := 0;
    var prevSpace := -1;
    var nextSpace := Find(input, 0);
    ghost var done: seq<string> := [];
    ghost var all := Fields(input);
    while nextSpace >= 0 && numArgs <= 4
      invariant 0 <= numArgs <= 5 && -1 <= prevSpace < |input|
      invariant nextSpace == Find(input, prevSpace + 1)
      invariant done == runCommands[..numArgs]
      invariant all == done + FieldsFrom(input, prevSpace + 1)
      decreases |input| - prevSpace
    {
      var field := input[prevSpace + 1..nextSpace];
      assert all == (done + [field]) + FieldsFrom(input, nextSpace + 1) by {
        FieldsAdvance(done, input, prevSpace + 1, nextSpace);
      }
      Store(runCommands, numArgs, field);
      done := done + [field];
      numArgs := numArgs + 1;
      prevSpace := nextSpace;
      nextSpace := Find(input, prevSpace + 1);
    }
    if numArgs > 4 {
      assert |all| > 5 && all[..5] == done by {
        TooManyFields(input, done, prevSpace + 1);
      }
      assert runCommands[..] == done;
      return -1;
    }
    var last := input[prevSpace + 1..];
    assert all == done + [last] by {
      LastField(input, done, prevSpace + 1);
    }
    Store(runCommands, numArgs, last);
    numArgs := numArgs + 1;
  }

  /** `runCommands[n] = field`: the first `n` entries are kept and `field` follows them. */
  method Store(runCommands: array<string>, n: int, field: string)
    requires 0 <= n < runCommands.Length
    modifies runCommands
    ensures runCommands[..n + 1] == old(runCommands[..n]) + [field]
  {
    runCommands[n] := field;
    assert runCommands[..n + 1] == old(runCommands[..n]) + [field];
  }

  /** Five fields taken and a space still ahead: there are more than five fields, and those five come first. */
  lemma TooManyFields(s: string, done: seq<string>, from: nat)
    requires from <= |s| && |done| == 5 && Fields(s) == done + FieldsFrom(s, from)
    ensures |Fields(s)| > 5 && Fields(s)[..5] == done
  {
    assert (done + FieldsFrom(s, from))[..5] == done;
  }

  /** No space ahead: the rest is the last field. */
  lemma LastField(s: string, done: seq<string>, from: nat)
    requires from <= |s| && Find(s, from) < 0 && Fields(s) == done + FieldsFrom(s, from)
    ensures Fields(s) == done + [s[from..]]
  {
  }

  /** One field moves from the unsplit rest to the fields already taken. */
  lemma FieldsAdvance(done: seq<string>, s: string, from: nat, k: int)
    requires from <= |s| && k == Find(s, from) && k >= 0
    ensures done + FieldsFrom(s, from) == (done + [s[from..k]]) + FieldsFrom(s, k + 1)
  {
    FieldsFromStep(s, from);
    assert done + ([s[from..k]] + FieldsFrom(s, k + 1)) == (done + [s[from..k]]) + FieldsFrom(s, k + 1);
  }

  /** The jobs admitted so far sit at their own index. */
  predicate TableOk(table: seq<Job>, numJobs: int) {
    0 <= numJobs <= |table| && forall i :: 0 <= i < numJobs ==> table[i].index == i
  }

  /** What `run` does to the table and the job count, given the pid `fork` returned. */
  function RunEffect(table: seq<Job>, numJobs: int, input: string, forkPid: int): (r: (seq<Job>, int))
    requires |table| == MAXJOBS && 0 <= numJobs
    ensures |r.0| == MAXJOBS && (r.1 == numJobs || r.1 == numJobs + 1 <= MAXJOBS)
    ensures forkPid <= 0 ==> r == (table, numJobs)
    ensures forall i :: 0 <= i < MAXJOBS && i != numJobs ==> r.0[i] == table[i]
  {
    if numJobs >= MAXJOBS || |Fields(input)| > 5 || forkPid <= 0 then (table, numJobs)
    else (table[numJobs := Job(numJobs, forkPid, input, false)], numJobs + 1)
  }

  /**
   * `run` admits a job exactly when the table has room, the arguments
   * split into at most five fields and the fork gave the parent a child;
   * the admitted job goes to the next free slot and earlier jobs stay.
   */
  lemma RunAdmits(table: seq<Job>, numJobs: int, input: string, forkPid: int)
    requires |table| == MAXJOBS && TableOk(table, numJobs)
    ensures var (t, n) := RunEffect(table, numJobs, input, forkPid);
      var admitted := numJobs < MAXJOBS && |Fields(input)| <= 5 && forkPid > 0;
      n == numJobs + (if admitted then 1 else 0) &&
      TableOk(t, n) && t[..numJobs] == table[..numJobs] &&
      (admitted ==> t[numJobs] == Job(numJobs, forkPid, input, false))
  {
  }

  /** `run`. A zero or negative `forkPid` stands for the child and for a failed fork: neither stores a job. */
  method Run(input: string, jobs: array<Job>, numJobs: int, forkPid: int) returns (newNumJobs: int)
    requires jobs.Length == MAXJOBS && 0 <= numJobs
    modifies jobs
    ensures (jobs[..], newNumJobs) == RunEffect(old(jobs[..]), numJobs, input, forkPid)
  {
    newNumJobs := numJobs;
    if numJobs >= MAXJOBS {
      return;
    }
    var runCommands := new string[5];
    var numArgs := ParseInput(runCommands, input);
    if numArgs == -1 {
      return;
    }
    if forkPid > 0 {
      jobs[numJobs] := Job(numJobs, forkPid, input, false);
      newNumJobs := numJobs + 1;
    }
  }

  /** `terminate`'s effect: only the named job changes, and only its flag, which ends set. */
  function TerminateEffect(table: seq<Job>, index: int): (t: seq<Job>)
    requires 0 <= index < |table|
    ensures |t| == |table| && t[index].terminated
    ensures t[index].index == table[index].index && t[index].headPid == table[index].headPid && t[index].command == table[index].command
    ensures forall i :: 0 <= i < |table| && i != index ==> t[i] == table[i]
  {
    table[index := table[index].(terminated := true)]
  }

  /** Terminating a job twice is the same as terminating it once. */
  lemma TerminateIdempotent(table: seq<Job>, index: int)
    requires 0 <= index < |table|
    ensures TerminateEffect(TerminateEffect(table, index), index) == TerminateEffect(table, index)
    ensures TerminateEffect(table, index)[index].terminated
  {
  }

  /**
   * `terminate`: kill the job at the index the argument names, unless it is
   * terminated already; a second call on the same index signals nothing.
   */
  method Terminate(input: string, jobs: array<Job>) returns (killed: Option<int>)
    requires jobs.Length == MAXJOBS && 0 <= Atoi(input) < MAXJOBS
    modifies jobs
    ensures jobs[..] == TerminateEffect(old(jobs[..]), Atoi(input))
    ensures killed == if old(jobs[Atoi(input)]).terminated then None else Some(old(jobs[Atoi(input)]).headPid)
  {
    var index := Atoi(input);
    killed := None;
    if !jobs[index].terminated {
      killed := Some(jobs[index].headPid);
      jobs[index] := jobs[index].(terminated := true);
    }
  }

  /** The pids of the live jobs, in table order. */
  function LivePids(table: seq<Job>): seq<int> {
    if table == [] then []
    else LivePids(table[..|table| - 1]) + (if table[|table| - 1].terminated then [] else [table[|table| - 1].headPid])
  }

  /** Every admitted job terminated; the slots beyond stay as they are. */
  function TerminateAllEffect(table: seq<Job>, numJobs: int): (t: seq<Job>)
    requires 0 <= numJobs <= |table|
    ensures |t| == |table|
    ensures forall i :: 0 <= i < |t| ==> t[i] == if i < numJobs then table[i].(terminated := true) else table[i]
  {
    if numJobs == 0 then table
    else TerminateAllEffect(table, numJobs - 1)[numJobs - 1 := table[numJobs - 1].(terminated := true)]
  }

  /** After `exitFunction` no admitted job is live, so a second call kills nothing. */
  lemma {:induction false} NothingLiveAfterExit(table: seq<Job>, n: nat)
    requires n <= |table|
    ensures LivePids(TerminateAllEffect(table, n)[..n]) == []
    decreases n
  {
    if n > 0 {
      var t := TerminateAllEffect(table, n);
      assert t[..n][..n - 1] == TerminateAllEffect(table, n - 1)[..n - 1];
      NothingLiveAfterExit(table, n - 1);
    }
  }

  /** `exitFunction`: terminate every live job, returning the pids killed in order. */
  method ExitFunction(jobs: array<Job>, numJobs: int) returns (killed: seq<int>)
    requires 0 <= numJobs <= jobs.Length
    modifies jobs
    ensures jobs[..] == TerminateAllEffect(old(jobs[..]), numJobs)
    ensures killed == LivePids(old(jobs[..])[..numJobs])
  {
    killed := [];
    for index := 0 to numJobs
      invariant jobs[..] == TerminateAllEffect(old(jobs[..]), index)
      invariant killed == LivePids(old(jobs[..])[..index])
    {
      assert old(jobs[..])[..index + 1][..index] == old(jobs[..])[..index];
      if !jobs[index].terminated {
        killed := killed + [jobs[index].headPid];
        jobs[index] := jobs[index].(terminated := true);
      }
    }
  }

  /**
   * The command word of an input line and the argument text: the text before
   * and after the first space. A line with no space is both the command and
   * the argument text, since the line variable is left as it is.
   */
  function SplitCommand(line: string): (r: (string, string))
    ensures ' ' in line ==> r.0 + " " + r.1 == line && ' ' !in r.0
    ensures ' ' !in line ==> r == (line, line)
  {
    var e := Find(line, 0);
    if e >= 0 then
      SplitAtFirstSpace(line, e);
      (line[..e], line[e + 1..])
    else
      NoSpaceFound(line);
      (line, line)
  }

  /** Cutting at the space `Find` returns gives back the line around a head without spaces. */
  lemma SplitAtFirstSpace(line: string, e: int)
    requires e == Find(line, 0) && e >= 0
    ensures ' ' in line && line[..e] + " " + line[e + 1..] == line && ' ' !in line[..e]
  {
    assert line[e] == ' ';
    FindIsFirst(line, 0);
    assert forall j :: 0 <= j < e ==> line[..e][j] != ' ';
  }

  /** When `Find` reports no space, the line holds none. */
  lemma NoSpaceFound(line: string)
    requires Find(line, 0) < 0
    ensures ' ' !in line
  {
    FindIsFirst(line, 0);
  }
}
