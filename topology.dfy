/**
 * The controller's chain of switches (`connectionInfo` on the controller):
 * placing a newcomer (`addSwitch`), checking the finished chain
 * (`verifyNetwork`) and finding a switch number, a3/a3sdn.cpp and a2/a2sdn.cpp.
 * Each record is the OPEN message the switch sent.
 */
module Topology {
  import opened Packets

  /** Some record carries switch number `n`. */
  predicate InUse(table: seq<OpenMessage>, n: int) {
    exists i :: 0 <= i < |table| && table[i].switchNumber == n
  }

  /** No switch number appears twice. */
  predicate DistinctNumbers(table: seq<OpenMessage>) {
    forall i, j :: 0 <= i < j < |table| ==> table[i].switchNumber != table[j].switchNumber
  }

  /** The neighbour test of `verifyNetwork`: `a`'s port 2 leads to `b` and `b`'s port 1 back to `a`. */
  predicate Linked(a: OpenMessage, b: OpenMessage) {
    a.switchNumber == b.port1Switch && a.port2Switch == b.switchNumber
  }

  predicate BothNull(r: OpenMessage) {
    r.port1Switch == -1 && r.port2Switch == -1
  }

  /** What one record means to a newcomer with both ports set. */
  datatype Verdict =
    | Conflict   // the record cannot be joined to the newcomer: placement fails
    | Before     // the newcomer belongs directly before the record
    | After      // the newcomer belongs directly after the record
    | Unrelated  // the record names neither of the newcomer's neighbours

  function Examine(r: OpenMessage, swNew: OpenMessage): Verdict {
    if BothNull(r) then Conflict
    else if swNew.switchNumber == r.port1Switch then
      (if swNew.port2Switch == r.switchNumber then Before else Conflict)
    else if swNew.switchNumber == r.port2Switch then
      (if swNew.port1Switch == r.switchNumber then After else Conflict)
    else Unrelated
  }

  predicate IsSlot(v: Verdict) {
    v == Before || v == After
  }

  /** Index of the first record next to which the newcomer fits, or |table| if none. */
  function FirstSlot(table: seq<OpenMessage>, swNew: OpenMessage): (h: nat)
    ensures h <= |table|
    ensures h < |table| ==> IsSlot(Examine(table[h], swNew))
    ensures forall j :: 0 <= j < h ==> !IsSlot(Examine(table[j], swNew))
    decreases |table|
  {
    if table == [] then 0
    else if IsSlot(Examine(table[0], swNew)) then 0
    else 1 + FirstSlot(table[1..], swNew)
  }

  /** No record before index `h` is in conflict with the newcomer. */
  predicate NoConflictBefore(table: seq<OpenMessage>, swNew: OpenMessage, h: nat)
    requires h <= |table|
  {
    forall j :: 0 <= j < h ==> Examine(table[j], swNew) != Conflict
  }

  /**
   * The result of `addSwitch` before its failure handling: the new chain and
   * whether placement succeeded, or `ReadPastEnd` when the fallback reads the
   * record after the last one (undefined behaviour in the source).
   */
  datatype Placement = Placement(table: seq<OpenMessage>, success: bool) | ReadPastEnd

  /** Placement of a newcomer with both ports set into a non-empty chain. */
  function PlaceBetween(table: seq<OpenMessage>, swNew: OpenMessage): (p: Placement)
    requires table != []
    ensures p.ReadPastEnd? ==> |table| >= 2
    ensures p.Placement? ==> p.table == table || |p.table| == |table| + 1
  {
    var h := FirstSlot(table, swNew);
    var ok := NoConflictBefore(table, swNew, h);
    if h < |table| then
      var at := if Examine(table[h], swNew) == Before then h else h + 1;
      Placement(table[..at] + [swNew] + table[at..], ok)
    else if |table| >= 2 && Examine(table[|table| - 1], swNew) == Unrelated
            && swNew.switchNumber > table[|table| - 1].switchNumber then
      ReadPastEnd
    else
      Placement(table, ok)
  }

  /** Where `addSwitch` puts a newcomer, by the newcomer's ports. */
  function Place(table: seq<OpenMessage>, swNew: OpenMessage): (p: Placement)
    ensures p.ReadPastEnd? ==> |table| >= 2
    ensures p.Placement? ==> p.table == table || |p.table| == |table| + 1
  {
    if table == [] then Placement([swNew], true)
    else if swNew.port1Switch == -1 && swNew.port2Switch == -1 then Placement(table, false)
    else if swNew.port1Switch == -1 && swNew.port2Switch > 0 then
      if table[0].port1Switch == -1 then Placement(table, false) else Placement([swNew] + table, true)
    else if swNew.port1Switch > 0 && swNew.port2Switch == -1 then
      if table[|table| - 1].port2Switch == -1 then Placement(table, false) else Placement(table + [swNew], true)
    else if swNew.port1Switch > 0 && swNew.port2Switch > 0 then PlaceBetween(table, swNew)
    else Placement(table, true)
  }

  /**
   * The placement logic of `addSwitch`. A conflict does not stop the scan: a
   * later record can still receive the newcomer while the failure stands.
   */
  method PlaceSwitch(connectionInfo: seq<OpenMessage>, swNew: OpenMessage) returns (p: Placement)
    ensures p == Place(connectionInfo, swNew)
  {
    var table := connectionInfo;
    var success := true;
    if |table| == 0 {
      table := table + [swNew];
    } else if swNew.port1Switch == -1 && swNew.port2Switch == -1 {
      success := false;
    } else if swNew.port1Switch == -1 && swNew.port2Switch > 0 {
      if table[0].port1Switch == -1 {
        success := false;
      } else {
        table := [swNew] + table;
      }
    } else if swNew.port1Switch > 0 && swNew.port2Switch == -1 {
      if table[|table| - 1].port2Switch == -1 {
        success := false;
      } else {
        table := table + [swNew];
      }
    } else if swNew.port1Switch > 0 && swNew.port2Switch > 0 {
      var i := 0;
      while i < |table|
        invariant 0 <= i <= |table| && table == connectionInfo
        invariant forall j :: 0 <= j < i ==> !IsSlot(Examine(table[j], swNew))
        invariant success == NoConflictBefore(table, swNew, i)
        invariant i == |table| && |table| >= 2 && Examine(table[|table| - 1], swNew) == Unrelated
                  ==> swNew.switchNumber <= table[|table| - 1].switchNumber
      {
        var sw := table[i];
        if sw.port1Switch == -1 && sw.port2Switch == -1 {
          success := false;
        } else if swNew.switchNumber == sw.port1Switch {
          if swNew.port2Switch == sw.switchNumber {
            table := table[..i] + [swNew] + table[i..];
            break;
          } else {
            success := false;
          }
        } else if swNew.switchNumber == sw.port2Switch {
          if swNew.port1Switch == sw.switchNumber {
            table := table[..i + 1] + [swNew] + table[i + 1..];
            break;
          } else {
            success := false;
          }
        } else if i == |table| - 1 {
          // the fallback compares against the record after the last one
          var j := 0;
          while j < |table| - 1
            invariant 0 <= j <= |table| - 1
            invariant j > 0 ==> swNew.switchNumber <= table[i].switchNumber
          {
            if swNew.switchNumber > table[i].switchNumber {
              return ReadPastEnd;
            }
            j := j + 1;
          }
        }
        i := i + 1;
      }
    }
    p := Placement(table, success);
  }

  /** Placement inserts the newcomer at most once and keeps every other record in order. */
  lemma PlaceInsertsOnce(table: seq<OpenMessage>, swNew: OpenMessage)
    requires Place(table, swNew).Placement?
    ensures var t := Place(table, swNew).table;
      t == table || exists k :: 0 <= k <= |table| && t == table[..k] + [swNew] + table[k..]
  {
    var t := Place(table, swNew).table;
    if table == [] {
      assert t == table[..0] + [swNew] + table[0..];
    } else if t == [swNew] + table {
      assert t == table[..0] + [swNew] + table[0..];
    } else if t == table + [swNew] {
      assert t == table[..|table|] + [swNew] + table[|table|..];
    }
  }

  /** A successful placement gives a newcomer whose port 1 is null the front of the chain. */
  lemma PlaceAtFront(table: seq<OpenMessage>, swNew: OpenMessage)
    requires table != [] && swNew.port1Switch == -1 && swNew.port2Switch > 0
    ensures Place(table, swNew).success <==> table[0].port1Switch != -1
    ensures Place(table, swNew).success ==> Place(table, swNew).table == [swNew] + table
    ensures !Place(table, swNew).success ==> Place(table, swNew).table == table
  {
  }

  /** A successful placement gives a newcomer whose port 2 is null the back of the chain. */
  lemma PlaceAtBack(table: seq<OpenMessage>, swNew: OpenMessage)
    requires table != [] && swNew.port1Switch > 0 && swNew.port2Switch == -1
    ensures Place(table, swNew).success <==> table[|table| - 1].port2Switch != -1
    ensures Place(table, swNew).success ==> Place(table, swNew).table == table + [swNew]
    ensures !Place(table, swNew).success ==> Place(table, swNew).table == table
  {
  }

  /**
   * A newcomer with both ports set that is inserted sits next to a record it
   * is linked with, exactly as `verifyNetwork` checks neighbours.
   */
  lemma PlaceLinksNeighbour(table: seq<OpenMessage>, swNew: OpenMessage)
    requires table != [] && swNew.port1Switch > 0 && swNew.port2Switch > 0
    requires Place(table, swNew).Placement? && |Place(table, swNew).table| > |table|
    ensures var t := Place(table, swNew).table;
      exists k :: 0 <= k < |t| && t[k] == swNew &&
        ((k + 1 < |t| && Linked(t[k], t[k + 1])) || (k > 0 && Linked(t[k - 1], t[k])))
  {
    var t := Place(table, swNew).table;
    var h := FirstSlot(table, swNew);
    if Examine(table[h], swNew) == Before {
      assert t[h] == swNew && t[h + 1] == table[h];
    } else {
      assert t[h + 1] == swNew && t[h] == table[h];
    }
  }

  /** Fatal placements: a newcomer with both ports null, or one that conflicts with a record before its slot. */
  lemma PlaceFails(table: seq<OpenMessage>, swNew: OpenMessage)
    requires table != []
    ensures swNew.port1Switch == -1 && swNew.port2Switch == -1 ==> Place(table, swNew) == Placement(table, false)
    ensures swNew.port1Switch > 0 && swNew.port2Switch > 0 && Place(table, swNew).Placement? ==>
      (Place(table, swNew).success <==>
        forall j :: 0 <= j < FirstSlot(table, swNew) ==> Examine(table[j], swNew) != Conflict)
  {
  }

  /** Placing a switch whose number is free keeps switch numbers distinct. */
  lemma PlaceKeepsNumbersDistinct(table: seq<OpenMessage>, swNew: OpenMessage)
    requires DistinctNumbers(table) && !InUse(table, swNew.switchNumber)
    requires Place(table, swNew).Placement?
    ensures DistinctNumbers(Place(table, swNew).table)
  {
    var t := Place(table, swNew).table;
    PlaceInsertsOnce(table, swNew);
    if t != table {
      var k :| 0 <= k <= |table| && t == table[..k] + [swNew] + table[k..];
      forall i, j | 0 <= i < j < |t|
        ensures t[i].switchNumber != t[j].switchNumber
      {
        if i < k && j > k {
          assert t[j] == table[j - 1];
        } else if i > k {
          assert t[i] == table[i - 1] && t[j] == table[j - 1];
        } else if i == k {
          assert t[j] == table[j - 1];
        }
      }
    }
  }

  /** The test `verifyNetwork` applies at position `i` of the chain. */
  predicate CheckAt(table: seq<OpenMessage>, i: nat)
    requires i < |table|
  {
    if i == |table| - 1 then table[i].port2Switch == -1
    else (i != 0 || table[i].port1Switch == -1) && Linked(table[i], table[i + 1])
  }

  /** `verifyNetwork` from position `i` on. */
  function VerifyFrom(table: seq<OpenMessage>, i: nat): bool
    requires i <= |table|
    decreases |table| - i
  {
    if i == |table| then true else CheckAt(table, i) && VerifyFrom(table, i + 1)
  }

  /** `verifyNetwork`: whether the chain is consistent (false only triggers a warning). */
  function VerifyNetwork(table: seq<OpenMessage>): (ok: bool)
    ensures ok <==> forall j :: 0 <= j < |table| ==> CheckAt(table, j)
  {
    VerifyFromAll(table, 0);
    VerifyFrom(table, 0)
  }

  /** The closed form of what `verifyNetwork` accepts. */
  predicate WellChained(table: seq<OpenMessage>) {
    (|table| > 0 ==> table[|table| - 1].port2Switch == -1) &&
    (|table| >= 2 ==> table[0].port1Switch == -1) &&
    (forall i :: 0 <= i < |table| - 1 ==> Linked(table[i], table[i + 1]))
  }

  lemma {:induction false} VerifyFromAll(table: seq<OpenMessage>, i: nat)
    requires i <= |table|
    ensures VerifyFrom(table, i) <==> forall j :: i <= j < |table| ==> CheckAt(table, j)
    decreases |table| - i
  {
    if i < |table| {
      VerifyFromAll(table, i + 1);
    }
  }

  /** `verifyNetwork` reports a valid chain exactly when it is well chained. */
  lemma VerifyNetworkCorrect(table: seq<OpenMessage>)
    ensures VerifyNetwork(table) <==> WellChained(table)
  {
    VerifyFromAll(table, 0);
    if WellChained(table) {
      forall j | 0 <= j < |table| ensures CheckAt(table, j) {
      }
    }
    if VerifyNetwork(table) && |table| > 0 {
      assert CheckAt(table, |table| - 1);
      if |table| >= 2 {
        assert CheckAt(table, 0);
      }
      forall i | 0 <= i < |table| - 1 ensures Linked(table[i], table[i + 1]) {
        assert CheckAt(table, i);
      }
    }
  }

  /** Index of the first record with switch number `n`, or |table|. */
  function IndexOfNumber(table: seq<OpenMessage>, n: int): (k: nat)
    ensures k <= |table|
    ensures k < |table| ==> table[k].switchNumber == n
    ensures forall j :: 0 <= j < k ==> table[j].switchNumber != n
    decreases |table|
  {
    if table == [] then 0
    else if table[0].switchNumber == n then 0
    else 1 + IndexOfNumber(table[1..], n)
  }

  /** The chain without the first record of switch `n` (`removeSwitch`'s erase). */
  function EraseNumber(table: seq<OpenMessage>, n: int): (t: seq<OpenMessage>)
    ensures |t| == if InUse(table, n) then |table| - 1 else |table|
    ensures !InUse(table, n) ==> t == table
  {
    var k := IndexOfNumber(table, n);
    if k < |table| then table[..k] + table[k + 1..] else table
  }

  /** With distinct numbers, erasing switch `n` frees its number and keeps the others in order. */
  lemma EraseFreesNumber(table: seq<OpenMessage>, n: int)
    requires DistinctNumbers(table)
    ensures !InUse(EraseNumber(table, n), n)
    ensures DistinctNumbers(EraseNumber(table, n))
    ensures forall m :: m != n ==> (InUse(EraseNumber(table, n), m) <==> InUse(table, m))
  {
    var k := IndexOfNumber(table, n);
    var t := EraseNumber(table, n);
    if k < |table| {
      assert forall i :: 0 <= i < |t| ==> t[i] == if i < k then table[i] else table[i + 1];
      forall m | InUse(table, m) && m != n ensures InUse(t, m) {
        var i :| 0 <= i < |table| && table[i].switchNumber == m;
        if i < k { assert t[i] == table[i]; } else { assert t[i - 1] == table[i]; }
      }
    }
  }
}
