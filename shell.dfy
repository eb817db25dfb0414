/**
 * The command loop of the second job shell
 * (A1-Unix-Creating-And-Monitoring-Processes-master/a1jobs.cpp): one input
 * line is routed to `run`, a signal to one job, the listing or the
 * shutdown, against the global linked list of jobs.
 *
 * `fork` is a parameter: `forkPid` is what it returned in this process
 * (0 in the child, which executes the program and never comes back to the
 * loop, -1 when it failed). Signals are not sent; the pids they would go
 * to are returned instead.
 */
module Shell {
  import opened Decimal
  import opened Text
  import opened Tokenizer
  import opened JobList

  /** `run` refuses a new job while this many jobs are live. */
  const MAXLIVE := 32
  /** The largest `int`: what `istringstream >> int` stores when the digits overflow. */
  const INT_MAX := 2147483647

  /** `is_number`: nonempty and made of digits only, so no sign is accepted. */
  method IsNumber(s: string) returns (b: bool)
    ensures b <==> s != [] && AllDigits(s)
  {
    if |s| == 0 {
      return false;
    }
    for i := 0 to |s|
      invariant forall j :: 0 <= j < i ==> IsDigit(s[j])
    {
      if !IsDigit(s[i]) {
        return false;
      }
    }
    return true;
  }

  /** The `int` that `istringstream >> index` reads from a string of digits. */
  function ReadIndex(s: string): (index: int)
    requires AllDigits(s)
    ensures 0 <= index <= INT_MAX
    ensures DigitsValue(s) <= INT_MAX ==> index == DigitsValue(s)
  {
    var v := DigitsValue(s);
    if v > INT_MAX then INT_MAX else v
  }

  /** Every index the listing shows reads back as itself. */
  lemma ReadIndexOfNatToString(n: nat)
    requires n <= INT_MAX
    ensures NatToString(n) != [] && AllDigits(NatToString(n))
    ensures ReadIndex(NatToString(n)) == n
  {
    DigitsValueOfNatToString(n);
  }

  /**
   * The pid `sendsignal` signals and returns: -1 unless there are exactly
   * two words and the second is a number naming a live job.
   */
  function SignalTarget(es: seq<Entry>, words: seq<string>): (pid: int)
    ensures pid != -1 ==> exists i :: 0 <= i < |es| && !es[i].terminated && es[i].pid == pid
  {
    if |words| != 2 || words[1] == [] || !AllDigits(words[1]) then -1
    else PidAt(es, ReadIndex(words[1]))
  }

  /** `sendsignal`. */
  method SendSignal(jobs: LinkedList, words: seq<string>) returns (pid: int)
    requires jobs.Valid()
    ensures pid == SignalTarget(jobs.Contents, words)
  {
    if |words| != 2 {
      return -1;
    }
    var number := IsNumber(words[1]);
    if !number {
      return -1;
    }
    var index := ReadIndex(words[1]);
    pid := jobs.GetPid(index);
    if pid == -1 {
      return -1;
    }
  }

  /** Every entry marked terminated. */
  function AllTerminated(es: seq<Entry>): (r: seq<Entry>)
    ensures |r| == |es|
    ensures forall i :: 0 <= i < |es| ==> r[i] == es[i].(terminated := true)
  {
    seq(|es|, i requires 0 <= i < |es| => es[i].(terminated := true))
  }

  /** The pids of the live entries, in list order. */
  function LivePidsOf(es: seq<Entry>): (pids: seq<int>)
    ensures |pids| == LiveCount(es)
  {
    if es == [] then []
    else LivePidsOf(es[..|es| - 1]) + (if es[|es| - 1].terminated then [] else [es[|es| - 1].pid])
  }

  lemma {:induction false} NoneLiveWhenAllTerminated(es: seq<Entry>)
    ensures LiveCount(AllTerminated(es)) == 0
    decreases |es|
  {
    if es != [] {
      var n := |es| - 1;
      assert AllTerminated(es)[..n] == AllTerminated(es[..n]);
      NoneLiveWhenAllTerminated(es[..n]);
    }
  }

  /** `terminate_all_proccesses`: mark every node terminated, killing the live ones in order. */
  method TerminateAllProcesses(jobs: LinkedList) returns (killed: seq<int>)
    requires jobs.Valid()
    modifies jobs.Repr
    ensures jobs.Valid() && jobs.Repr == old(jobs.Repr)
    ensures jobs.Contents == AllTerminated(old(jobs.Contents))
    ensures killed == LivePidsOf(old(jobs.Contents))
  {
    ghost var start := jobs.Contents;
    var temp := jobs.head;
    ghost var k := 0;
    killed := [];
    while temp.next != null
      invariant jobs.Valid() && jobs.Repr == old(jobs.Repr) && jobs.spine == old(jobs.spine)
      invariant 0 <= k <= |jobs.spine|
      invariant temp == if k == 0 then jobs.head else jobs.spine[k - 1]
      invariant temp.next == if k < |jobs.spine| then jobs.spine[k] else null
      invariant |jobs.Contents| == |start|
      invariant forall i :: 0 <= i < |start| ==> jobs.Contents[i] == if i < k then start[i].(terminated := true) else start[i]
      invariant killed == LivePidsOf(start[..k])
      decreases |jobs.spine| - k
    {
      temp := temp.next;
      ghost var before := jobs.Contents;
      var pids := TerminateNode(jobs, temp, k);
      forall i | 0 <= i < |start|
        ensures jobs.Contents[i] == if i < k + 1 then start[i].(terminated := true) else start[i]
      {
        if i != k {
          assert jobs.Contents[i] == before[i];
        }
      }
      LivePidsStep(start, k);
      killed := killed + pids;
      k := k + 1;
    }
    assert start[..k] == start;
    forall i | 0 <= i < |start|
      ensures jobs.Contents[i] == AllTerminated(start)[i]
    {
    }
  }

  /** One node of the walk: it ends terminated, and its pid is killed when it was live. */
  method TerminateNode(jobs: LinkedList, node: Node, ghost k: nat) returns (killed: seq<int>)
    requires jobs.Valid() && k < |jobs.spine| && node == jobs.spine[k]
    modifies jobs.Repr
    ensures jobs.Valid() && jobs.Repr == old(jobs.Repr) && jobs.spine == old(jobs.spine)
    ensures jobs.Contents == old(jobs.Contents)[k := old(jobs.Contents)[k].(terminated := true)]
    ensures killed == if old(jobs.Contents)[k].terminated then [] else [old(jobs.Contents)[k].pid]
  {
    killed := [];
    if !node.terminated {
      jobs.MarkTerminated(node, k);
      killed := [node.pid];
    } else {
      assert jobs.Contents[k].(terminated := true) == jobs.Contents[k];
    }
  }

  lemma LivePidsStep(es: seq<Entry>, k: nat)
    requires k < |es|
    ensures LivePidsOf(es[..k + 1]) == LivePidsOf(es[..k]) + (if es[k].terminated then [] else [es[k].pid])
  {
    assert es[..k + 1][..k] == es[..k];
  }

  /** What `run` does to the list. */
  function RunEffect(es: seq<Entry>, input: string, forkPid: int): (r: seq<Entry>)
    ensures |es| <= |r| <= |es| + 1 && r[..|es|] == es
    ensures LiveCount(es) >= MAXLIVE ==> r == es
  {
    if LiveCount(es) >= MAXLIVE || forkPid == 0 then es else es + [Entry(forkPid, input, false)]
  }

  /**
   * `run`: with fewer than 32 live jobs, the parent appends the child it
   * forked, under the whole input line; a failed fork appends pid -1.
   * The words only feed `execlp` in the child and are not modelled.
   */
  method Run(jobs: LinkedList, input: string, forkPid: int)
    requires jobs.Valid()
    modifies jobs.Repr
    ensures jobs.Valid() && fresh(jobs.Repr - old(jobs.Repr))
    ensures jobs.Contents == RunEffect(old(jobs.Contents), input, forkPid)
  {
    var size := jobs.GetSize();
    if size >= MAXLIVE {
      return;
    }
    if forkPid == 0 {
      return;
    }
    jobs.Add(forkPid, input);
  }

  /** What `handle_input` does to the list, and whether it ends the loop. */
  function Handled(es: seq<Entry>, input: string, forkPid: int): (r: (seq<Entry>, bool))
    requires input == "" || Tokens(input) != []
    ensures r.1 <==> input == "quit" || input == "exit"
  {
    if input == "" then (es, false)
    else if input == "quit" then (es, true)
    else if input == "exit" then (AllTerminated(es), true)
    else if input == "list" then (es, false)
    else (Dispatched(es, input, Tokens(input), forkPid), false)
  }

  /** What the command named by the first word does to the list; wrong word counts change nothing. */
  function Dispatched(es: seq<Entry>, input: string, words: seq<string>, forkPid: int): (r: seq<Entry>)
    requires words != []
    ensures |es| <= |r| <= |es| + 1
    ensures forall i :: 0 <= i < |es| ==> r[i].pid == es[i].pid && r[i].cmd == es[i].cmd
  {
    var n := |words|;
    if words[0] == "run" && 2 <= n <= 6 then RunEffect(es, input, forkPid)
    else if words[0] == "terminate" && n == 2 then Removed(es, SignalTarget(es, words))
    else es
  }

  /**
   * `handle_input`. A line of white space only would index an empty word
   * list, so it is excluded.
   */
  method HandleInput(jobs: LinkedList, input: string, forkPid: int) returns (quit: bool)
    requires jobs.Valid()
    requires input == "" || Tokens(input) != []
    modifies jobs.Repr
    ensures jobs.Valid() && fresh(jobs.Repr - old(jobs.Repr))
    ensures (jobs.Contents, quit) == Handled(old(jobs.Contents), input, forkPid)
  {
    if input == "" {
      return false;
    }
    if input == "quit" {
      return true;
    } else if input == "exit" {
      var _ := TerminateAllProcesses(jobs);
      return true;
    } else if input == "list" {
      var _, _ := jobs.Print();
      return false;
    }
    var splitInput := GetVectorInput([], input);
    assert splitInput == Tokens(input);
    Dispatch(jobs, input, splitInput, forkPid);
    return false;
  }

  /** The dispatch on the first word of `handle_input`. */
  method Dispatch(jobs: LinkedList, input: string, splitInput: seq<string>, forkPid: int)
    requires jobs.Valid() && splitInput != []
    modifies jobs.Repr
    ensures jobs.Valid() && fresh(jobs.Repr - old(jobs.Repr))
    ensures jobs.Contents == Dispatched(old(jobs.Contents), input, splitInput, forkPid)
  {
    var numOfWords := |splitInput|;
    if splitInput[0] == "run" && numOfWords >= 2 && numOfWords <= 6 {
      Run(jobs, input, forkPid);
    } else if splitInput[0] == "suspend" && numOfWords == 2 {
      var _ := SendSignal(jobs, splitInput);
    } else if splitInput[0] == "resume" && numOfWords == 2 {
      var _ := SendSignal(jobs, splitInput);
    } else if splitInput[0] == "terminate" && numOfWords == 2 {
      var terminatePid := SendSignal(jobs, splitInput);
      var _ := jobs.Remove(terminatePid);
    }
  }

  /** The loop ends exactly on the lines "quit" and "exit"; after "exit" no job is live. */
  lemma QuitOnlyOnQuitOrExit(es: seq<Entry>, input: string, forkPid: int)
    requires input == "" || Tokens(input) != []
    ensures Handled(es, input, forkPid).1 <==> input == "quit" || input == "exit"
    ensures input == "exit" ==> LiveCount(Handled(es, input, forkPid).0) == 0
  {
    if input == "exit" {
      NoneLiveWhenAllTerminated(es);
    }
  }

  /** Starting from at most 32 live jobs, no line brings the list above 32 live jobs. */
  lemma LiveJobsBounded(es: seq<Entry>, input: string, forkPid: int)
    requires input == "" || Tokens(input) != []
    requires LiveCount(es) <= MAXLIVE
    ensures LiveCount(Handled(es, input, forkPid).0) <= MAXLIVE
  {
    var r := Handled(es, input, forkPid).0;
    if input == "exit" {
      NoneLiveWhenAllTerminated(es);
    } else if input != "" && input != "quit" && input != "list" {
      var words := Tokens(input);
      if words[0] == "run" && 2 <= |words| <= 6 {
        if r != es {
          AddedIsLive(es, forkPid, input);
        }
      } else if words[0] == "terminate" && |words| == 2 {
        RemoveLowersSize(es, SignalTarget(es, words));
      }
    }
  }

  /**
   * No line unlinks a job: every job keeps its position, pid and command,
   * and the list only grows.
   */
  lemma PositionsKept(es: seq<Entry>, input: string, forkPid: int)
    requires input == "" || Tokens(input) != []
    ensures var r := Handled(es, input, forkPid).0;
      |es| <= |r| <= |es| + 1 &&
      forall i :: 0 <= i < |es| ==> r[i].pid == es[i].pid && r[i].cmd == es[i].cmd
  {
    if input != "" && input != "quit" && input != "exit" && input != "list" {
      var words := Tokens(input);
      if words[0] == "terminate" && |words| == 2 {
        RemoveAgain(es, SignalTarget(es, words));
      }
    }
  }

  /**
   * `terminate` with an index that names no job still calls `remove(-1)`,
   * which marks terminated the first job whose fork failed.
   */
  lemma TerminateUnknownIndexHitsFailedFork()
    ensures Handled([Entry(-1, "run a", false)], "terminate 9", 0).0 == [Entry(-1, "run a", true)]
  {
    TokensOfTerminateNine();
    assert SignalTarget([Entry(-1, "run a", false)], ["terminate", "9"]) == -1;
  }

  lemma TokensOfTerminateNine()
    ensures Tokens("terminate 9") == ["terminate", "9"]
  {
    var line := "terminate 9";
    assert SkipFrom(line, 0) == 0;
    assert WordEnd(line, 0) == 9;
    assert SkipFrom(line, 9) == 10;
    assert WordEnd(line, 10) == 11;
    assert TokensFrom(line, 11) == [];
    assert line[10..11] == "9";
    assert TokensFrom(line, 9) == [line[10..11]] + TokensFrom(line, 11) == ["9"];
    assert line[0..9] == "terminate";
    assert Tokens(line) == [line[0..9]] + TokensFrom(line, 9);
  }
}
