/**
 * What the controller promises across packets: a chain of distinct switch
 * numbers no longer than the expected network, queries held back only while
 * the network is incomplete and every held query answered to the switch
 * that asked once the last switch joins, and a network-wide shutdown when a
 * newcomer cannot be placed.
 */
module ControllerLemmas {
  import opened Wrappers
  import opened Packets
  import opened Nodes
  import opened Topology
  import opened QueryResolver
  import opened ControllerNode

  /** The rules sent, in order, for the held-back queries `q`: one to each asking switch. */
  function Answers(variant: Variant, switches: seq<OpenMessage>, q: seq<Packet>): (r: seq<Send>)
    requires forall i :: 0 <= i < |q| ==> Waiting(q[i])
    ensures |r| == |q|
    ensures forall i :: 0 <= i < |q| ==>
      (Waiting(q[i]) && r[i].receiver == q[i].msg.qr.sendingSwitchNumber.value && r[i].pkt.ptype == Add)
  {
    if q == [] then []
    else
      var last := q[|q| - 1];
      assert Waiting(last);
      var sender := last.msg.qr.sendingSwitchNumber.value;
      Answers(variant, switches, q[..|q| - 1]) + [Send(sender, ProcessQueryPacket(variant, switches, last.msg.qr, sender))]
  }

  /** Draining `n` held queries answers exactly those, in order, and touches nothing else. */
  lemma {:induction false} DrainAnswersAll(cfg: ControllerConfig, s: ControllerState, n: nat)
    requires QueueOk(s) && n <= |s.packetQueue|
    ensures var d := DrainN(cfg, s, n);
      d.switches == s.switches && d.skewWarning == s.skewWarning &&
      d.outbox == s.outbox + Answers(cfg.variant, s.switches, s.packetQueue[..n]) &&
      Count(d.pktStats.transmitted, Add) == Count(s.pktStats.transmitted, Add) + n
    decreases n
  {
    if n > 0 {
      DrainAnswersAll(cfg, s, n - 1);
      DrainOne(cfg, s, n);
      var q := s.packetQueue;
      AnswersSnoc(cfg.variant, s.switches, q, n);
      var a := Answers(cfg.variant, s.switches, q[..n - 1]);
      assert (s.outbox + a) + [AnswerTo(cfg.variant, s.switches, q[n - 1])] ==
        s.outbox + (a + [AnswerTo(cfg.variant, s.switches, q[n - 1])]);
    } else {
      assert s.packetQueue[..0] == [];
    }
  }

  /** The rule sent back for one held query, to the switch that asked. */
  function AnswerTo(variant: Variant, switches: seq<OpenMessage>, p: Packet): Send
    requires Waiting(p)
  {
    var sender := p.msg.qr.sendingSwitchNumber.value;
    Send(sender, ProcessQueryPacket(variant, switches, p.msg.qr, sender))
  }

  /** Answering the `n`-th held query adds its answer and one ADD to the count, and nothing else. */
  lemma DrainOne(cfg: ControllerConfig, s: ControllerState, n: nat)
    requires QueueOk(s) && 0 < n <= |s.packetQueue|
    ensures var d := DrainN(cfg, s, n - 1);
      var r := DrainN(cfg, s, n);
      r.switches == d.switches && r.skewWarning == d.skewWarning &&
      d.switches == s.switches &&
      r.outbox == d.outbox + [AnswerTo(cfg.variant, s.switches, s.packetQueue[n - 1])] &&
      Count(r.pktStats.transmitted, Add) == Count(d.pktStats.transmitted, Add) + 1
  {
    var d := DrainN(cfg, s, n - 1);
    assert d.packetQueue[0] == s.packetQueue[n - 1];
    DrainKeepsSwitches(cfg, s, n - 1);
  }

  /** Answering queries leaves the chain alone. */
  lemma {:induction false} DrainKeepsSwitches(cfg: ControllerConfig, s: ControllerState, n: nat)
    requires QueueOk(s) && n <= |s.packetQueue|
    ensures DrainN(cfg, s, n).switches == s.switches
    decreases n
  {
    if n > 0 {
      DrainKeepsSwitches(cfg, s, n - 1);
    }
  }

  /** Answering one more held query appends its answer. */
  lemma AnswersSnoc(variant: Variant, switches: seq<OpenMessage>, q: seq<Packet>, n: nat)
    requires forall i :: 0 <= i < |q| ==> Waiting(q[i])
    requires 0 < n <= |q|
    ensures Answers(variant, switches, q[..n]) == Answers(variant, switches, q[..n - 1]) + [AnswerTo(variant, switches, q[n - 1])]
  {
    assert q[..n][..n - 1] == q[..n - 1];
  }

  /**
   * The controller's standing invariant: distinct switch numbers, no more
   * switches than expected, and held queries only while switches are missing.
   */
  predicate ChainOk(cfg: ControllerConfig, s: ControllerState) {
    DistinctNumbers(s.switches) && |s.switches| <= cfg.numSwitches &&
    (s.packetQueue != [] ==> |s.switches| < cfg.numSwitches)
  }

  /** Every packet the controller survives keeps the invariant. */
  lemma ControllerStepKeepsChainOk(cfg: ControllerConfig, s: ControllerState, p: Packet, sender: int)
    requires QueueOk(s) && WellFormed(p) && ControllerHandles(p.ptype) && ChainOk(cfg, s)
    requires ControllerStep(cfg, s, p, sender).1.Status?
    ensures ChainOk(cfg, ControllerStep(cfg, s, p, sender).0)
  {
    if p.ptype == Open {
      var o := p.msg.o;
      if !InUse(s.switches, o.switchNumber) && |s.switches| < cfg.numSwitches {
        var counted := s.(pktStats := Received(s.pktStats, Open));
        assert ControllerStep(cfg, s, p, sender) == Join(cfg, counted, o);
        assert Place(s.switches, o).Placement? && Place(s.switches, o).success;
        PlaceInsertsOnce(s.switches, o);
        PlaceKeepsNumbersDistinct(s.switches, o);
        var t := Place(s.switches, o).table;
        assert |t| <= |s.switches| + 1;
        if |t| == cfg.numSwitches {
          var checked := counted.(switches := t,
                                  outbox := s.outbox + [Send(o.switchNumber, Signal(Ack))],
                                  pktStats := Transmitted(counted.pktStats, Ack, 1),
                                  skewWarning := !VerifyNetwork(t));
          DrainAnswersAll(cfg, checked, |s.packetQueue|);
        }
        var r := ControllerStep(cfg, s, p, sender).0;
        assert r.switches == t;
        assert |t| == cfg.numSwitches ==> r.packetQueue == [];
      }
    }
  }

  /**
   * An OPEN whose number is taken, or that finds the network full, is
   * answered with EXIT and changes neither the chain nor the queue. Only a
   * taken number under version 2 reports success.
   */
  lemma OpenRefused(cfg: ControllerConfig, s: ControllerState, p: Packet, sender: int)
    requires QueueOk(s) && WellFormed(p) && p.ptype == Open
    requires InUse(s.switches, p.msg.o.switchNumber) || |s.switches| >= cfg.numSwitches
    ensures var (r, out) := ControllerStep(cfg, s, p, sender);
      r.switches == s.switches && r.packetQueue == s.packetQueue &&
      r.outbox == s.outbox + [Send(p.msg.o.switchNumber, Signal(Exit))] &&
      out == Status(InUse(s.switches, p.msg.o.switchNumber) && cfg.variant == A2)
  {
  }

  /** A newcomer that cannot be placed brings the network down: every switch in the chain and the newcomer get EXIT. */
  lemma FatalOpenShutsDown(cfg: ControllerConfig, s: ControllerState, p: Packet, sender: int)
    requires QueueOk(s) && WellFormed(p) && p.ptype == Open
    requires !InUse(s.switches, p.msg.o.switchNumber) && |s.switches| < cfg.numSwitches
    requires Place(s.switches, p.msg.o).Placement? && !Place(s.switches, p.msg.o).success
    ensures var (r, out) := ControllerStep(cfg, s, p, sender);
      out == Exited &&
      forall m :: InUse(Place(s.switches, p.msg.o).table, m) || m == p.msg.o.switchNumber ==>
        Send(m, Signal(Exit)) in r.outbox[|s.outbox|..]
  {
    var t := Place(s.switches, p.msg.o).table;
    var r := ControllerStep(cfg, s, p, sender).0;
    var sent := ExitsTo(t) + [Send(p.msg.o.switchNumber, Signal(Exit))];
    assert r.outbox[|s.outbox|..] == sent;
    forall m | InUse(t, m) || m == p.msg.o.switchNumber
      ensures Send(m, Signal(Exit)) in sent
    {
      if m == p.msg.o.switchNumber {
        assert sent[|t|] == Send(m, Signal(Exit));
      } else {
        var i :| 0 <= i < |t| && t[i].switchNumber == m;
        assert sent[i] == ExitsTo(t)[i];
      }
    }
  }

  /**
   * A QUERY is held back, remembering who asked, exactly while switches are
   * missing; otherwise it is answered at once and nothing is held.
   */
  lemma QueryHeldUntilComplete(cfg: ControllerConfig, s: ControllerState, p: Packet, sender: int)
    requires QueueOk(s) && WellFormed(p) && p.ptype == Query
    ensures var (r, out) := ControllerStep(cfg, s, p, sender);
      (|s.switches| < cfg.numSwitches ==>
        r.outbox == s.outbox && |r.packetQueue| == |s.packetQueue| + 1 &&
        r.packetQueue[..|s.packetQueue|] == s.packetQueue &&
        r.packetQueue[|s.packetQueue|].msg.qr == p.msg.qr.(sendingSwitchNumber := Some(sender)) &&
        out == Status(cfg.variant == A3)) &&
      (|s.switches| >= cfg.numSwitches ==>
        r.packetQueue == s.packetQueue &&
        r.outbox == s.outbox + [Send(sender, ProcessQueryPacket(cfg.variant, s.switches, p.msg.qr, sender))] &&
        out == Status(true))
  {
    var r := ControllerStep(cfg, s, p, sender).0;
    if |s.switches| < cfg.numSwitches {
      assert r.packetQueue[..|s.packetQueue|] == s.packetQueue;
    }
  }

  /**
   * The OPEN that completes the network acknowledges the newcomer, records
   * whether the chain is skewed, and answers every held query, in order, to
   * the switch that asked it, leaving nothing held.
   */
  lemma LastJoinAnswersHeldQueries(cfg: ControllerConfig, s: ControllerState, p: Packet, sender: int)
    requires QueueOk(s) && WellFormed(p) && p.ptype == Open
    requires !InUse(s.switches, p.msg.o.switchNumber) && |s.switches| < cfg.numSwitches
    requires Place(s.switches, p.msg.o).Placement? && Place(s.switches, p.msg.o).success
    requires |Place(s.switches, p.msg.o).table| == cfg.numSwitches
    ensures var (r, out) := ControllerStep(cfg, s, p, sender);
      var t := Place(s.switches, p.msg.o).table;
      out == Status(true) && r.switches == t && r.packetQueue == [] &&
      r.skewWarning == !WellChained(t) &&
      r.outbox == s.outbox + [Send(p.msg.o.switchNumber, Signal(Ack))] + Answers(cfg.variant, t, s.packetQueue)
  {
    var t := Place(s.switches, p.msg.o).table;
    VerifyNetworkCorrect(t);
    var checked := s.(pktStats := Transmitted(Received(s.pktStats, Open), Ack, 1),
                      switches := t,
                      outbox := s.outbox + [Send(p.msg.o.switchNumber, Signal(Ack))],
                      skewWarning := !VerifyNetwork(t));
    DrainAnswersAll(cfg, checked, |s.packetQueue|);
    assert s.packetQueue[..|s.packetQueue|] == s.packetQueue;
  }

  /** Once a lost switch is removed, its number may join again: the OPEN goes to placement. */
  lemma RejoinAfterRemove(cfg: ControllerConfig, s: ControllerState, p: Packet, sender: int)
    requires QueueOk(s) && WellFormed(p) && p.ptype == Open && ChainOk(cfg, s)
    requires InUse(s.switches, p.msg.o.switchNumber)
    ensures var s' := s.(switches := EraseNumber(s.switches, p.msg.o.switchNumber));
      ControllerStep(cfg, s', p, sender) == Join(cfg, s'.(pktStats := Received(s.pktStats, Open)), p.msg.o)
  {
    EraseFreesNumber(s.switches, p.msg.o.switchNumber);
  }
}
