/**
 * Command dispatch of the object-oriented job shell (a1/Command.cpp and
 * a1/CommandFactory.cpp): a command word selects one of seven command
 * kinds, and executing a command forwards its argument text to exactly one
 * `JobSpawner` procedure and says whether the shell reads another line.
 */
module Commands {
  import opened Wrappers
  import opened Text
  import opened JobTable
  import opened Spawner

  /** The seven subclasses of `Command`. */
  datatype CommandKind = List | Run | Suspend | Resume | Terminate | Exit | Quit

  /** The word `createCommand` compares with for each kind. */
  function Word(k: CommandKind): string {
    match k
    case List => "list"
    case Run => "run"
    case Suspend => "suspend"
    case Resume => "resume"
    case Terminate => "terminate"
    case Exit => "exit"
    case Quit => "quit"
  }

  /**
   * The kind `createCommand` builds for a word, or None for "Invalid
   * command.": exactly the seven words are recognised, compared exactly.
   */
  function KindOf(word: string): (r: Option<CommandKind>)
    ensures r.None? ==> forall k :: Word(k) != word
    ensures r.Some? ==> Word(r.value) == word
  {
    if word == "list" then Some(List)
    else if word == "run" then Some(Run)
    else if word == "suspend" then Some(Suspend)
    else if word == "resume" then Some(Resume)
    else if word == "terminate" then Some(Terminate)
    else if word == "exit" then Some(Exit)
    else if word == "quit" then Some(Quit)
    else
      None
  }

  /** Each kind is built from its own word, so kinds and words correspond one to one. */
  lemma KindOfWord(k: CommandKind)
    ensures KindOf(Word(k)) == Some(k)
  {
  }

  /** Whether the shell goes on reading commands after one of this kind. */
  predicate Continues(k: CommandKind) {
    k != Exit && k != Quit
  }

  /** What executing a command does to the spawner's table and job count. */
  function ExecuteEffect(k: CommandKind, args: string, forkPid: int, table: seq<Job>, numJobs: int): (r: (seq<Job>, int))
    requires |table| == MAXJOBS && 0 <= numJobs
    requires k == Terminate ==> 0 <= Atoi(args) < MAXJOBS
    requires k == Exit ==> numJobs <= MAXJOBS
    ensures |r.0| == MAXJOBS
  {
    match k
    case Run => RunEffect(table, numJobs, args, forkPid)
    case Terminate => (TerminateEffect(table, Atoi(args)), numJobs)
    case Exit => (TerminateAllEffect(table, numJobs), numJobs)
    case _ => (table, numJobs)
  }

  /**
   * Only `run` changes the job count, and by at most one; every command
   * keeps each admitted job at its own index; list, suspend, resume and
   * quit leave the table as it is.
   */
  lemma ExecuteKeepsTable(k: CommandKind, args: string, forkPid: int, table: seq<Job>, numJobs: int)
    requires |table| == MAXJOBS && TableOk(table, numJobs)
    requires k == Terminate ==> 0 <= Atoi(args) < MAXJOBS
    requires k == Exit ==> numJobs <= MAXJOBS
    ensures var (t, n) := ExecuteEffect(k, args, forkPid, table, numJobs);
      TableOk(t, n) &&
      (k != Run ==> n == numJobs) && numJobs <= n <= numJobs + 1 &&
      (k in {List, Suspend, Resume, Quit} ==> t == table)
  {
    if k == Run {
      RunAdmits(table, numJobs, args, forkPid);
    }
  }

  /** What a command reports besides its result: the rows listed or the pids signalled. */
  datatype Report = Listed(rows: seq<Job>) | Signalled(pids: seq<int>) | Silent

  class Command {
    const kind: CommandKind
    const spawner: JobSpawner
    const args: string

    /** Every command keeps its spawner and its argument text as given. */
    constructor (kind: CommandKind, spawner: JobSpawner, args: string)
      ensures this.kind == kind && this.spawner == spawner && this.args == args
    {
      this.kind := kind;
      this.spawner := spawner;
      this.args := args;
    }

    /**
     * The `execute` of each subclass. `forkPid` is what `fork` returns
     * should the command run a job. The result is false exactly for `exit`
     * and `quit`, and the spawner's table changes as `ExecuteEffect` says.
     */
    method Execute(forkPid: int) returns (continueLoop: bool, report: Report)
      requires spawner.Valid()
      requires kind in {Suspend, Resume, Terminate} ==> 0 <= Atoi(args) < MAXJOBS
      requires kind in {List, Exit} ==> spawner.numJobs <= MAXJOBS
      modifies spawner, spawner.jobs
      ensures spawner.Valid()
      ensures continueLoop <==> Continues(kind)
      ensures (spawner.jobs[..], spawner.numJobs) ==
        ExecuteEffect(kind, args, forkPid, old(spawner.jobs[..]), old(spawner.numJobs))
      ensures kind in {Run, Quit} ==> report == Silent
      ensures kind == Terminate ==> report == Signalled(
        if old(spawner.jobs[Atoi(args)]).terminated then [] else [old(spawner.jobs[Atoi(args)]).headPid])
      ensures kind in {Suspend, Resume} ==> report == Signalled([old(spawner.jobs[Atoi(args)]).headPid])
      ensures kind == List ==> report == Listed(old(spawner.jobs[..spawner.numJobs]))
      ensures kind == Exit ==> report == Signalled(LivePids(old(spawner.jobs[..])[..spawner.numJobs]))
    {
      match kind
      case List =>
        var rows := spawner.ListJobs();
        report := Listed(rows);
        continueLoop := true;
      case Run =>
        spawner.RunJob(args, forkPid);
        report := Silent;
        continueLoop := true;
      case Suspend =>
        var pid := spawner.SuspendJob(args);
        report := Signalled([pid]);
        continueLoop := true;
      case Resume =>
        var pid := spawner.ResumeJob(args);
        report := Signalled([pid]);
        continueLoop := true;
      case Terminate =>
        var killed := spawner.TerminateJob(args);
        report := Signalled(if killed.Some? then [killed.value] else []);
        continueLoop := true;
      case Exit =>
        var killed := spawner.TerminateAllJobs();
        report := Signalled(killed);
        continueLoop := false;
      case Quit =>
        report := Silent;
        continueLoop := false;
    }
  }

  /**
   * `createCommand`: a fresh command of the word's kind carrying `args`
   * unchanged, or false with `c` left as it was when the word is not one of
   * the seven.
   */
  method CreateCommand(c: Command?, word: string, js: JobSpawner, args: string) returns (ok: bool, c': Command?)
    ensures ok <==> KindOf(word).Some?
    ensures ok ==> c' != null && fresh(c') && c'.kind == KindOf(word).value && c'.spawner == js && c'.args == args
    ensures !ok ==> c' == c
  {
    var k := KindOf(word);
    if k.None? {
      return false, c;
    }
    c' := new Command(k.value, js, args);
    ok := true;
  }
}
