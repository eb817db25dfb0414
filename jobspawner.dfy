/**
 * The object-oriented job shell of a1/JobSpawner.cpp: a `JobSpawner` owns
 * the 32-slot table of admitted jobs and the count of jobs admitted, and
 * updates both in place. Its procedures are the ones of a1/a1jobs.cpp
 * moved into the class, so each method calls the table procedure of
 * `JobTable` on its own table; its private `parseInput` is the same code as
 * `JobTable.ParseInput`, which `runJob` reaches through `JobTable.Run`.
 */
module Spawner {
  import opened Wrappers
  import opened Text
  import opened JobTable

  class JobSpawner {
    const jobs: array<Job>
    var numJobs: int

    ghost predicate Valid()
      reads this
    {
      jobs.Length == MAXJOBS && numJobs >= 0
    }

    /** A spawner starts with no job admitted. */
    constructor ()
      ensures Valid() && fresh(jobs) && numJobs == 0
    {
      // The source leaves the slots uninitialised; this fill is arbitrary.
      jobs := new Job[MAXJOBS](_ => Job(0, 0, [], false));
      numJobs := 0;
    }

    /** `addJob`: counts one more job and writes no entry. */
    method AddJob()
      requires Valid()
      modifies this
      ensures Valid() && numJobs == old(numJobs) + 1
      ensures unchanged(jobs)
    {
      numJobs := numJobs + 1;
    }

    /**
     * `listJobs`: the entries it prints, one per admitted job, terminated
     * ones included; "No jobs." is printed when the list is empty.
     */
    method ListJobs() returns (rows: seq<Job>)
      requires Valid() && numJobs <= MAXJOBS
      ensures |rows| == numJobs
      ensures forall i :: 0 <= i < numJobs ==> rows[i] == jobs[i]
    {
      rows := [];
      for i := 0 to numJobs
        invariant rows == jobs[..i]
      {
        rows := rows + [jobs[i]];
      }
    }

    /**
     * `runJob`, given the pid `fork` returned: the table gains the job
     * exactly as `run` of a1/a1jobs.cpp stores it.
     */
    method RunJob(args: string, forkPid: int)
      requires Valid()
      modifies this, jobs
      ensures Valid()
      ensures (jobs[..], numJobs) == RunEffect(old(jobs[..]), old(numJobs), args, forkPid)
    {
      numJobs := Run(args, jobs, numJobs, forkPid);
    }

    /** `suspendJob`: the pid it sends SIGSTOP to, the one stored at the index the argument names. */
    method SuspendJob(args: string) returns (stopped: int)
      requires Valid() && 0 <= Atoi(args) < MAXJOBS
      ensures stopped == jobs[Atoi(args)].headPid
    {
      var index := Atoi(args);
      stopped := jobs[index].headPid;
    }

    /** `resumeJob`: the pid it sends SIGCONT to. */
    method ResumeJob(args: string) returns (continued: int)
      requires Valid() && 0 <= Atoi(args) < MAXJOBS
      ensures continued == jobs[Atoi(args)].headPid
    {
      var index := Atoi(args);
      continued := jobs[index].headPid;
    }

    /** `terminateJob`: marks the job terminated, killing it only when it was live. */
    method TerminateJob(args: string) returns (killed: Option<int>)
      requires Valid() && 0 <= Atoi(args) < MAXJOBS
      modifies jobs
      ensures jobs[..] == TerminateEffect(old(jobs[..]), Atoi(args))
      ensures killed == if old(jobs[Atoi(args)]).terminated then None else Some(old(jobs[Atoi(args)]).headPid)
    {
      killed := Terminate(args, jobs);
    }

    /** `terminateAllJobs`: every admitted job ends terminated; the live ones are killed in order. */
    method TerminateAllJobs() returns (killed: seq<int>)
      requires Valid() && numJobs <= MAXJOBS
      modifies jobs
      ensures jobs[..] == TerminateAllEffect(old(jobs[..]), numJobs)
      ensures killed == LivePids(old(jobs[..])[..numJobs])
    {
      killed := ExitFunction(jobs, numJobs);
    }
  }
}
