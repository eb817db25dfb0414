/**
 * The list of jobs of the second job shell
 * (A1-Unix-Creating-And-Monitoring-Processes-master/linked_list.cpp): a
 * singly linked chain of nodes behind a sentinel head with pid -1 that is
 * marked terminated. Nodes are appended at the tail and never unlinked:
 * removing a job only marks its node terminated, so a job keeps its
 * position for good.
 *
 * The list is specified by the ghost sequence `Contents` of the entries
 * after the head, in order; the functions over such sequences below say
 * what each operation returns.
 */
module JobList {

  /** What one node after the head holds. */
  datatype Entry = Entry(pid: int, cmd: string, terminated: bool)

  /** One line of `print`: a live job with its position among all nodes after the head. */
  datatype Row = Row(position: int, pid: int, cmd: string)

  /** `getpid(idx)`: -1 for a negative index, an index past the last node or a terminated node. */
  function PidAt(es: seq<Entry>, idx: int): (pid: int)
    ensures pid != -1 ==> 0 <= idx < |es| && Row(idx, pid, es[idx].cmd) in Listing(es)
  {
    if idx < 0 || idx >= |es| || es[idx].terminated then -1 else es[idx].pid
  }

  /** `getsize`: the number of entries not terminated. */
  function LiveCount(es: seq<Entry>): (n: nat)
    ensures n <= |es|
  {
    if es == [] then 0
    else LiveCount(es[..|es| - 1]) + (if es[|es| - 1].terminated then 0 else 1)
  }

  /**
   * What `print` lists: one row per live entry, numbered by its position
   * among all entries, terminated ones included, in list order.
   */
  function Listing(es: seq<Entry>): (rows: seq<Row>)
    ensures forall r :: r in rows ==>
      0 <= r.position < |es| && !es[r.position].terminated &&
      r.pid == es[r.position].pid && r.cmd == es[r.position].cmd
    ensures forall i :: 0 <= i < |es| && !es[i].terminated ==> Row(i, es[i].pid, es[i].cmd) in rows
    ensures forall a, b :: 0 <= a < b < |rows| ==> rows[a].position < rows[b].position
  {
    if es == [] then []
    else
      var n := |es| - 1;
      var front := Listing(es[..n]);
      assert forall i :: 0 <= i < n ==> es[..n][i] == es[i];
      front + (if es[n].terminated then [] else [Row(n, es[n].pid, es[n].cmd)])
  }

  /** `print` says "Empty List" exactly when `getsize` is 0: there is one row per live entry. */
  lemma {:induction false} ListingCount(es: seq<Entry>)
    ensures |Listing(es)| == LiveCount(es)
    decreases |es|
  {
    if es != [] {
      ListingCount(es[..|es| - 1]);
    }
  }

  /** The first entry with this pid, or -1. */
  function FindPid(es: seq<Entry>, pid: int): (k: int)
    ensures k == -1 || (0 <= k < |es| && es[k].pid == pid)
    ensures forall j :: 0 <= j < |es| && (k == -1 || j < k) ==> es[j].pid != pid
  {
    if es == [] then -1
    else
      var n := |es| - 1;
      var k := FindPid(es[..n], pid);
      assert forall j :: 0 <= j < n ==> es[..n][j] == es[j];
      if k >= 0 then k else if es[n].pid == pid then n else -1
  }

  /** `remove(pid)`: the first entry with that pid is marked terminated. */
  function Removed(es: seq<Entry>, pid: int): (r: seq<Entry>)
    ensures |r| == |es| && forall i :: 0 <= i < |es| ==> r[i].pid == es[i].pid && r[i].cmd == es[i].cmd
    ensures FindPid(es, pid) >= 0 ==> r[FindPid(es, pid)].terminated
    ensures FindPid(es, pid) < 0 ==> r == es
  {
    var k := FindPid(es, pid);
    if k < 0 then es else es[k := es[k].(terminated := true)]
  }

  /** Entries that hold the same pids in the same order. */
  predicate SamePids(a: seq<Entry>, b: seq<Entry>) {
    |a| == |b| && forall i :: 0 <= i < |a| ==> a[i].pid == b[i].pid
  }

  lemma {:induction false} FindPidIgnoresFlags(a: seq<Entry>, b: seq<Entry>, pid: int)
    requires SamePids(a, b)
    ensures FindPid(a, pid) == FindPid(b, pid)
    decreases |a|
  {
    if a != [] {
      var n := |a| - 1;
      FindPidIgnoresFlags(a[..n], b[..n], pid);
    }
  }

  /**
   * Removing never unlinks: positions, pids and commands stay, and a second
   * `remove` of the same pid succeeds again and changes nothing more.
   */
  lemma RemoveAgain(es: seq<Entry>, pid: int)
    ensures var r := Removed(es, pid);
      |r| == |es| &&
      (forall i :: 0 <= i < |es| ==> r[i].pid == es[i].pid && r[i].cmd == es[i].cmd) &&
      (FindPid(r, pid) >= 0 <==> FindPid(es, pid) >= 0) &&
      Removed(r, pid) == r
  {
    var r := Removed(es, pid);
    FindPidIgnoresFlags(es, r, pid);
  }

  /** Changing one entry changes the live count by the difference in that entry's liveness. */
  lemma {:induction false} LiveCountUpdate(es: seq<Entry>, k: nat, e: Entry)
    requires k < |es|
    ensures LiveCount(es[k := e]) + (if es[k].terminated then 0 else 1) ==
      LiveCount(es) + (if e.terminated then 0 else 1)
    decreases |es|
  {
    var n := |es| - 1;
    if k < n {
      assert es[k := e][..n] == es[..n][k := e];
      LiveCountUpdate(es[..n], k, e);
    } else {
      assert es[k := e][..n] == es[..n];
    }
  }

  /** `remove` lowers `getsize` by one exactly when it finds a live job. */
  lemma RemoveLowersSize(es: seq<Entry>, pid: int)
    ensures var k := FindPid(es, pid);
      LiveCount(Removed(es, pid)) == LiveCount(es) - (if k >= 0 && !es[k].terminated then 1 else 0)
  {
    var k := FindPid(es, pid);
    if k >= 0 {
      LiveCountUpdate(es, k, es[k].(terminated := true));
    }
  }

  /** An appended job is live at the new last position and raises `getsize` by one. */
  lemma AddedIsLive(es: seq<Entry>, pid: int, cmd: string)
    ensures PidAt(es + [Entry(pid, cmd, false)], |es|) == pid
    ensures LiveCount(es + [Entry(pid, cmd, false)]) == LiveCount(es) + 1
    ensures Listing(es + [Entry(pid, cmd, false)]) == Listing(es) + [Row(|es|, pid, cmd)]
  {
    assert (es + [Entry(pid, cmd, false)])[..|es|] == es;
  }

  /** Each job in the listing is the one `getpid` gives for that position. */
  lemma ListedPositionGivesPid(es: seq<Entry>, r: Row)
    requires r in Listing(es)
    ensures PidAt(es, r.position) == r.pid
  {
  }

  /** `node`: the four fields as given. */
  class Node {
    var pid: int
    var cmd: string
    var next: Node?
    var terminated: bool

    constructor (pid: int, cmd: string, terminated: bool, next: Node?)
      ensures this.pid == pid && this.cmd == cmd && this.terminated == terminated && this.next == next
    {
      this.pid := pid;
      this.cmd := cmd;
      this.next := next;
      this.terminated := terminated;
    }
  }

  /** `linked_list`. */
  class LinkedList {
    const head: Node
    ghost var spine: seq<Node>
    ghost var Contents: seq<Entry>
    ghost var Repr: set<object>

    /** The head, then the nodes of `spine` in order up to a null link, each mirrored in `Contents`. */
    ghost predicate Valid()
      reads this, Repr
    {
      this in Repr && head in Repr &&
      (forall i :: 0 <= i < |spine| ==> spine[i] in Repr && spine[i] != head) &&
      (forall i, j :: 0 <= i < j < |spine| ==> spine[i] != spine[j]) &&
      head.pid == -1 && head.terminated &&
      head.next == (if spine == [] then null else spine[0]) &&
      (forall i :: 0 <= i < |spine| - 1 ==> spine[i].next == spine[i + 1]) &&
      (spine != [] ==> spine[|spine| - 1].next == null) &&
      |Contents| == |spine| &&
      (forall i :: 0 <= i < |spine| ==> Contents[i] == Entry(spine[i].pid, spine[i].cmd, spine[i].terminated))
    }

    /** A new list holds only the head, so it is empty and `getsize` is 0. */
    constructor ()
      ensures Valid() && fresh(Repr) && Contents == []
    {
      head := new Node(-1, "", true, null);
      spine := [];
      Contents := [];
      new;
      Repr := {this, head};
    }

    /** `add`: walk to the last node and link a new live node after it. */
    method Add(pid: int, cmd: string)
      requires Valid()
      modifies Repr
      ensures Valid() && fresh(Repr - old(Repr))
      ensures Contents == old(Contents) + [Entry(pid, cmd, false)]
    {
      var temp := head;
      ghost var k := 0;
      while temp.next != null
        invariant Valid() && 0 <= k <= |spine|
        invariant temp == if k == 0 then head else spine[k - 1]
        invariant temp.next == if k < |spine| then spine[k] else null
        decreases |spine| - k
      {
        temp := temp.next;
        k := k + 1;
      }
      assert k == |spine|;
      var n := new Node(pid, cmd, false, null);
      temp.next := n;
      spine := spine + [n];
      Contents := Contents + [Entry(pid, cmd, false)];
      Repr := Repr + {n};
      forall i | 0 <= i < |spine| - 1
        ensures spine[i].next == spine[i + 1]
      {
        if i + 1 < k {
          assert spine[i] != temp;
        }
      }
    }

    /** `remove`: mark the first node with this pid terminated; false when there is none. */
    method Remove(pid: int) returns (removed: bool)
      requires Valid()
      modifies Repr
      ensures Valid() && Repr == old(Repr)
      ensures removed <==> FindPid(old(Contents), pid) >= 0
      ensures Contents == Removed(old(Contents), pid)
    {
      var temp := head;
      ghost var k := 0;
      while temp.next != null && temp.next.pid != pid
        invariant Valid() && 0 <= k <= |spine|
        invariant temp == if k == 0 then head else spine[k - 1]
        invariant temp.next == if k < |spine| then spine[k] else null
        invariant forall j :: 0 <= j < k ==> Contents[j].pid != pid
        decreases |spine| - k
      {
        temp := temp.next;
        k := k + 1;
      }
      if temp.next == null {
        return false;
      }
      temp.next.terminated := true;
      Contents := Contents[k := Contents[k].(terminated := true)];
      return true;
    }

    /** Set the terminated flag of the node at position `k` in place, as `terminate_all_proccesses` does. */
    method MarkTerminated(node: Node, ghost k: nat)
      requires Valid() && k < |spine| && node == spine[k]
      modifies this, node
      ensures Valid() && spine == old(spine) && Repr == old(Repr)
      ensures Contents == old(Contents)[k := old(Contents)[k].(terminated := true)]
    {
      node.terminated := true;
      Contents := Contents[k := Contents[k].(terminated := true)];
    }

    /** `getpid`: step `idx + 1` links from the head, then refuse a terminated node. */
    method GetPid(idx: int) returns (pid: int)
      requires Valid()
      ensures pid == PidAt(Contents, idx)
    {
      var temp: Node? := head;
      var i := 0;
      while i <= idx
        invariant Valid() && 0 <= i <= |spine| && (if idx >= 0 then i <= idx + 1 else i == 0)
        invariant temp == if i == 0 then head else spine[i - 1]
        invariant temp.next == if i < |spine| then spine[i] else null
        decreases idx - i
      {
        temp := temp.next;
        if temp == null {
          return -1;
        }
        i := i + 1;
      }
      if temp.terminated {
        return -1;
      }
      assert i == idx + 1 && temp == spine[idx];
      return temp.pid;
    }

    /** `print`: the rows it prints, and whether it prints "Empty List". */
    method Print() returns (rows: seq<Row>, emptyList: bool)
      requires Valid()
      ensures rows == Listing(Contents)
      ensures emptyList <==> LiveCount(Contents) == 0
    {
      var temp := head;
      var n := 0;
      var i := 0;
      rows := [];
      while temp.next != null
        invariant Valid() && 0 <= i <= |spine|
        invariant temp == if i == 0 then head else spine[i - 1]
        invariant temp.next == if i < |spine| then spine[i] else null
        invariant rows == Listing(Contents[..i]) && n == |rows|
        decreases |spine| - i
      {
        temp := temp.next;
        assert Contents[..i + 1][..i] == Contents[..i];
        if !temp.terminated {
          rows := rows + [Row(i, temp.pid, temp.cmd)];
          n := n + 1;
        }
        i := i + 1;
      }
      assert Contents[..i] == Contents;
      ListingCount(Contents);
      emptyList := n == 0;
    }

    /** `getsize`: count the nodes after the head that are not terminated. */
    method GetSize() returns (size: int)
      requires Valid()
      ensures size == LiveCount(Contents)
    {
      size := 0;
      var temp := head;
      ghost var k := 0;
      while temp.next != null
        invariant Valid() && 0 <= k <= |spine|
        invariant temp == if k == 0 then head else spine[k - 1]
        invariant temp.next == if k < |spine| then spine[k] else null
        invariant size == LiveCount(Contents[..k])
        decreases |spine| - k
      {
        assert Contents[..k + 1][..k] == Contents[..k];
        if !temp.next.terminated {
          size := size + 1;
        }
        temp := temp.next;
        k := k + 1;
      }
      assert Contents[..k] == Contents;
    }
  }
}
