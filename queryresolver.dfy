/**
 * The controller's answer to a QUERY (`processQueryPacket`): a rule for the
 * querying switch, computed from the chain of switches, a3/a3sdn.cpp and
 * a2/a2sdn.cpp (which differ in the destination range of a FORWARD rule).
 */
module QueryResolver {
  import opened Packets

  /**
   * The variables of the resolver's scan. `destBeforeSwitch`, `ipLow` and
   * `ipHigh` start uninitialised in the source. When no record assigns them
   * the resolver still reads `destBeforeSwitch`, but only on the path that
   * drops the packet, where the value does not reach the answer; so the start
   * values below never show in an answer.
   */
  datatype ScanState = ScanState(destBeforeSwitch: bool, foundDest: bool, ipLow: int, ipHigh: int)

  const ScanStart := ScanState(false, false, 0, 0)

  predicate Holds(r: OpenMessage, destIP: int) {
    r.ipLow <= destIP <= r.ipHigh
  }

  function ScanStep(s: ScanState, r: OpenMessage, destIP: int, querier: int): ScanState {
    if r.switchNumber == querier then s.(destBeforeSwitch := true)
    else if Holds(r, destIP) then ScanState(false, true, r.ipLow, r.ipHigh)
    else s
  }

  /** The scan's variables after visiting the records of `table` in order. */
  function Scan(table: seq<OpenMessage>, destIP: int, querier: int, s: ScanState): ScanState
    decreases |table|
  {
    if table == [] then s
    else ScanStep(Scan(table[..|table| - 1], destIP, querier, s), table[|table| - 1], destIP, querier)
  }

  /** `processQueryPacket`: the ADD packet answering a query from switch `querier`. */
  function ProcessQueryPacket(variant: Variant, table: seq<OpenMessage>, qr: QueryRelayMessage, querier: int): (p: Packet)
    ensures p.ptype == Add && WellFormed(p)
  {
    var srcIP := qr.srcIP;
    var destIP := qr.destIP;
    if srcIP > MAXIP then
      CreateAMessagePacket(Add, srcIP, srcIP, destIP, destIP, Drop, 0, MINPRI, 0)
    else
      var s := Scan(table, destIP, querier, ScanStart);
      var forwardPort := if s.destBeforeSwitch then 1 else 2;
      if s.foundDest then
        if variant == A3 then CreateAMessagePacket(Add, 0, MAXIP, s.ipLow, s.ipHigh, Forward, forwardPort, MINPRI, 0)
        else CreateAMessagePacket(Add, 0, MAXIP, destIP, destIP, Forward, forwardPort, MINPRI, 0)
      else
        CreateAMessagePacket(Add, 0, MAXIP, destIP, destIP, Drop, 0, MINPRI, 0)
  }

  /** Index of the last switch other than the querier whose range holds `destIP`, or -1. */
  function LastHolder(table: seq<OpenMessage>, destIP: int, querier: int): (k: int)
    ensures -1 <= k < |table|
    ensures k >= 0 ==> table[k].switchNumber != querier && Holds(table[k], destIP)
    ensures forall j :: k < j < |table| ==> table[j].switchNumber == querier || !Holds(table[j], destIP)
    decreases |table|
  {
    if table == [] then -1
    else
      var last := table[|table| - 1];
      if last.switchNumber != querier && Holds(last, destIP) then |table| - 1
      else LastHolder(table[..|table| - 1], destIP, querier)
  }

  /** The querier appears in the table after position `k`. */
  predicate QuerierAfter(table: seq<OpenMessage>, k: int, querier: int) {
    exists j :: 0 <= j < |table| && k < j && table[j].switchNumber == querier
  }

  /** What the scan computes, stated without the scan. */
  lemma {:induction false} ScanClosedForm(table: seq<OpenMessage>, destIP: int, querier: int, s: ScanState)
    ensures var r := Scan(table, destIP, querier, s);
      var k := LastHolder(table, destIP, querier);
      if k >= 0 then
        r.foundDest && r.ipLow == table[k].ipLow && r.ipHigh == table[k].ipHigh &&
        r.destBeforeSwitch == QuerierAfter(table, k, querier)
      else
        r.foundDest == s.foundDest && r.ipLow == s.ipLow && r.ipHigh == s.ipHigh &&
        r.destBeforeSwitch == (s.destBeforeSwitch || QuerierAfter(table, -1, querier))
    decreases |table|
  {
    if table != [] {
      var n := |table| - 1;
      var prefix := table[..n];
      ScanClosedForm(prefix, destIP, querier, s);
      var k := LastHolder(table, destIP, querier);
      var k' := LastHolder(prefix, destIP, querier);
      assert forall j :: 0 <= j < n ==> prefix[j] == table[j];
      if table[n].switchNumber == querier {
        assert k == k';
        assert QuerierAfter(table, k, querier) by {
          assert table[n].switchNumber == querier;
        }
      } else if Holds(table[n], destIP) {
        assert k == n;
      } else {
        assert k == k';
        assert QuerierAfter(table, k, querier) == QuerierAfter(prefix, k', querier);
        assert QuerierAfter(table, -1, querier) == QuerierAfter(prefix, -1, querier);
      }
    }
  }

  /**
   * The three answers of the socket-based resolver: DROP for an out-of-range
   * source; FORWARD towards the last other switch holding the destination,
   * on port 1 exactly when the querier comes later in the chain; DROP of that
   * destination otherwise.
   */
  lemma ResolveA3(table: seq<OpenMessage>, qr: QueryRelayMessage, querier: int)
    ensures var a := ProcessQueryPacket(A3, table, qr, querier).msg.a;
      var k := LastHolder(table, qr.destIP, querier);
      if qr.srcIP > MAXIP then
        a == FlowEntry(qr.srcIP, qr.srcIP, qr.destIP, qr.destIP, Drop, 0, MINPRI, 0)
      else if k >= 0 then
        a == FlowEntry(0, MAXIP, table[k].ipLow, table[k].ipHigh, Forward,
                       if QuerierAfter(table, k, querier) then 1 else 2, MINPRI, 0)
      else
        a == FlowEntry(0, MAXIP, qr.destIP, qr.destIP, Drop, 0, MINPRI, 0)
  {
    ScanClosedForm(table, qr.destIP, querier, ScanStart);
  }

  /** The FIFO-based resolver forwards a single destination address instead of the holder's range. */
  lemma ResolveA2(table: seq<OpenMessage>, qr: QueryRelayMessage, querier: int)
    ensures var a := ProcessQueryPacket(A2, table, qr, querier).msg.a;
      var k := LastHolder(table, qr.destIP, querier);
      if qr.srcIP > MAXIP then
        a == FlowEntry(qr.srcIP, qr.srcIP, qr.destIP, qr.destIP, Drop, 0, MINPRI, 0)
      else if k >= 0 then
        a == FlowEntry(0, MAXIP, qr.destIP, qr.destIP, Forward,
                       if QuerierAfter(table, k, querier) then 1 else 2, MINPRI, 0)
      else
        a == FlowEntry(0, MAXIP, qr.destIP, qr.destIP, Drop, 0, MINPRI, 0)
  {
    ScanClosedForm(table, qr.destIP, querier, ScanStart);
  }

  /** The two resolvers differ only in the destination range of a FORWARD answer. */
  lemma ResolversAgreeButForRange(table: seq<OpenMessage>, qr: QueryRelayMessage, querier: int)
    ensures var a2 := ProcessQueryPacket(A2, table, qr, querier).msg.a;
      var a3 := ProcessQueryPacket(A3, table, qr, querier).msg.a;
      a2 == a3.(destIPLo := if a3.actionType == Forward then qr.destIP else a3.destIPLo,
                destIPHi := if a3.actionType == Forward then qr.destIP else a3.destIPHi)
  {
  }

  /**
   * Two switches in a chain, sw1 holding 0-499 and sw2 holding 500-999: a
   * query from sw1 for 600 is answered with FORWARD on port 2 over 500-999.
   */
  lemma TwoSwitchExample()
    ensures var table := [OpenMessage(1, -1, 2, 0, 499), OpenMessage(2, 1, -1, 500, 999)];
      ProcessQueryPacket(A3, table, QueryRelayMessage(Wrappers.None, 10, 600), 1).msg.a
        == FlowEntry(0, MAXIP, 500, 999, Forward, 2, MINPRI, 0)
  {
    var table := [OpenMessage(1, -1, 2, 0, 499), OpenMessage(2, 1, -1, 500, 999)];
    assert table[..1] == [table[0]];
    assert table[..1][..0] == [];
  }
}
