/**
 * The flow table of a switch: matching an incoming packet against the rules
 * (`processRelayPacket`) and recognising a rule already installed
 * (`ruleExists`), a3/a3sdn.cpp and a2/a2sdn.cpp.
 */
module FlowTable {
  import opened Packets

  /** The rule's source and destination ranges both contain the packet's addresses. */
  predicate Covers(e: FlowEntry, srcIP: int, destIP: int) {
    e.srcIPLo <= srcIP <= e.srcIPHi && e.destIPLo <= destIP <= e.destIPHi
  }

  /** A rule the matcher may pick: it covers the packet and its priority is at least MINPRI. */
  predicate Selectable(e: FlowEntry, srcIP: int, destIP: int) {
    Covers(e, srcIP, destIP) && e.pri >= MINPRI
  }

  /**
   * The rule a packet is matched to: the last selectable rule of the table,
   * or -1 when there is none. Priorities above MINPRI never outrank a later rule.
   */
  function LastMatch(table: seq<FlowEntry>, srcIP: int, destIP: int): (k: int)
    ensures -1 <= k < |table|
    ensures k >= 0 ==> Selectable(table[k], srcIP, destIP)
    ensures forall j :: k < j < |table| ==> !Selectable(table[j], srcIP, destIP)
    decreases |table|
  {
    if table == [] then -1
    else if Selectable(table[|table| - 1], srcIP, destIP) then |table| - 1
    else LastMatch(table[..|table| - 1], srcIP, destIP)
  }

  /**
   * The scan of `processRelayPacket`. The priority bound is reset to MINPRI
   * for every rule, so each selectable rule replaces the previous choice.
   */
  method FindRule(table: seq<FlowEntry>, srcIP: int, destIP: int) returns (foundIndex: int)
    ensures foundIndex == LastMatch(table, srcIP, destIP)
    ensures foundIndex == -1 <==> forall j :: 0 <= j < |table| ==> !Selectable(table[j], srcIP, destIP)
  {
    foundIndex := -1;
    for i := 0 to |table|
      invariant foundIndex == LastMatch(table[..i], srcIP, destIP)
    {
      assert table[..i + 1][..i] == table[..i];
      var pri := MINPRI;
      var e := table[i];
      if e.srcIPLo <= srcIP <= e.srcIPHi && e.destIPLo <= destIP <= e.destIPHi {
        if e.pri >= pri {
          pri := e.pri;
          foundIndex := i;
        }
      }
    }
    assert table[..|table|] == table;
  }

  /** The table after a packet matched rule `k`: only that rule's hit count grows. */
  function Hit(table: seq<FlowEntry>, k: nat): (t: seq<FlowEntry>)
    requires k < |table|
    ensures |t| == |table| && t[k].pktCount == table[k].pktCount + 1
    ensures forall j :: 0 <= j < |t| && j != k ==> t[j] == table[j]
  {
    table[k := table[k].(pktCount := table[k].pktCount + 1)]
  }

  /** A rule without its hit counter. */
  function Rule(e: FlowEntry): FlowEntry {
    e.(pktCount := 0)
  }

  /** Two tables hold the same rules in the same order, whatever their hit counts. */
  predicate SameRules(t1: seq<FlowEntry>, t2: seq<FlowEntry>) {
    |t1| == |t2| && forall i :: 0 <= i < |t1| ==> Rule(t1[i]) == Rule(t2[i])
  }

  lemma HitKeepsRules(table: seq<FlowEntry>, k: nat)
    requires k < |table|
    ensures SameRules(table, Hit(table, k))
  {
  }

  /** Matching never looks at hit counts. */
  lemma {:induction false} LastMatchIgnoresCounts(t1: seq<FlowEntry>, t2: seq<FlowEntry>, srcIP: int, destIP: int)
    requires SameRules(t1, t2)
    ensures LastMatch(t1, srcIP, destIP) == LastMatch(t2, srcIP, destIP)
    decreases |t1|
  {
    if t1 != [] {
      var n := |t1| - 1;
      assert Rule(t1[n]) == Rule(t2[n]);
      assert Selectable(t1[n], srcIP, destIP) == Selectable(t2[n], srcIP, destIP);
      LastMatchIgnoresCounts(t1[..n], t2[..n], srcIP, destIP);
    }
  }

  /** A packet keeps matching the same rule, and that rule's count grows by one per match. */
  lemma MatchIsStable(table: seq<FlowEntry>, srcIP: int, destIP: int)
    requires LastMatch(table, srcIP, destIP) >= 0
    ensures var k := LastMatch(table, srcIP, destIP);
      LastMatch(Hit(table, k), srcIP, destIP) == k &&
      Hit(table, k)[k].pktCount == table[k].pktCount + 1
  {
    var k := LastMatch(table, srcIP, destIP);
    HitKeepsRules(table, k);
    LastMatchIgnoresCounts(table, Hit(table, k), srcIP, destIP);
  }

  /** The seven fields `ruleExists` compares: all but the hit count. */
  predicate SameRule(a: FlowEntry, b: FlowEntry) {
    a.srcIPLo == b.srcIPLo && a.srcIPHi == b.srcIPHi &&
    a.destIPLo == b.destIPLo && a.destIPHi == b.destIPHi &&
    a.actionType == b.actionType && a.actionVal == b.actionVal && a.pri == b.pri
  }

  /** `ruleExists`: some installed rule equals `e` in everything but its hit count. */
  function RuleExists(table: seq<FlowEntry>, e: FlowEntry): (r: bool)
    ensures r <==> exists i :: 0 <= i < |table| && SameRule(table[i], e)
    decreases |table|
  {
    if table == [] then false
    else if SameRule(table[0], e) then true
    else
      var rest := RuleExists(table[1..], e);
      assert forall i :: 1 <= i < |table| ==> table[i] == table[1..][i - 1];
      rest
  }

  /** Whether a rule is present does not depend on hit counts. */
  lemma RuleExistsIgnoresCounts(t1: seq<FlowEntry>, t2: seq<FlowEntry>, e: FlowEntry)
    requires SameRules(t1, t2)
    ensures RuleExists(t1, e) == RuleExists(t2, e)
  {
    if RuleExists(t1, e) {
      var i :| 0 <= i < |t1| && SameRule(t1[i], e);
      assert Rule(t1[i]) == Rule(t2[i]);
    }
    if RuleExists(t2, e) {
      var i :| 0 <= i < |t2| && SameRule(t2[i], e);
      assert Rule(t1[i]) == Rule(t2[i]);
    }
  }

  /** A rule appended to a table is then found by `ruleExists`. */
  lemma AppendedRuleExists(table: seq<FlowEntry>, e: FlowEntry)
    ensures RuleExists(table + [e], e)
  {
    assert (table + [e])[|table|] == e;
  }
}
