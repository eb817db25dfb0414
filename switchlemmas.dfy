/**
 * What a switch promises across packets: one question to the controller
 * per pending key, a queue that keeps exactly the packets still without a
 * rule, and rules installed once (version 3) or on every ADD (version 2).
 */
module SwitchLemmas {
  import opened Packets
  import opened FlowTable
  import opened Nodes
  import opened SwitchNode

  /** A packet sent to the controller asking for a rule for `key`. */
  predicate AsksFor(snd: Send, key: (bool, int)) {
    snd.receiver == 0 && snd.pkt.ptype == Query && snd.pkt.msg.QRMessage? && PendingKey(snd.pkt.msg.qr) == key
  }

  /** How many of the packets sent ask for `key`. */
  function Questions(out: seq<Send>, key: (bool, int)): nat {
    if out == [] then 0
    else Questions(out[..|out| - 1], key) + (if AsksFor(out[|out| - 1], key) then 1 else 0)
  }

  lemma {:induction false} QuestionsAppend(a: seq<Send>, b: seq<Send>, key: (bool, int))
    ensures Questions(a + b, key) == Questions(a, key) + Questions(b, key)
    decreases |b|
  {
    if b != [] {
      var n := |b| - 1;
      assert (a + b)[..|a + b| - 1] == a + b[..n];
      assert (a + b)[|a + b| - 1] == b[n];
      QuestionsAppend(a, b[..n], key);
    } else {
      assert a + b == a;
    }
  }

  /** Following a rule sends no question and leaves the table, queue and pending set alone. */
  lemma ForwardAsksNothing(cfg: SwitchConfig, s: SwitchState, p: Packet, outPort: int, key: (bool, int))
    requires p.ptype != Query
    ensures var r := ForwardByRule(cfg, s, p, outPort);
      Questions(r.outbox, key) == Questions(s.outbox, key) &&
      r.flowTable == s.flowTable && r.packetQueue == s.packetQueue && r.pendingQuerySet == s.pendingQuerySet
  {
    var r := ForwardByRule(cfg, s, p, outPort);
    if outPort == 1 || outPort == 2 {
      assert r.outbox == s.outbox + [r.outbox[|r.outbox| - 1]];
      QuestionsAppend(s.outbox, [r.outbox[|r.outbox| - 1]], key);
    }
  }

  /** Replaying the queue never asks the controller and only settles pending keys. */
  lemma {:induction false} DrainAsksNothing(cfg: SwitchConfig, s: SwitchState, n: nat, key: (bool, int))
    requires QueueOk(s) && n <= |s.packetQueue|
    ensures Questions(DrainN(cfg, s, n).outbox, key) == Questions(s.outbox, key)
    ensures DrainN(cfg, s, n).pendingQuerySet <= s.pendingQuerySet
    decreases n
  {
    if n > 0 {
      DrainAsksNothing(cfg, s, n - 1, key);
      DrainStep(cfg, s, n);
      ReplayAsksNothing(cfg, DrainN(cfg, s, n - 1), key);
    }
  }

  /** Replaying the packet at the front asks nothing and at most settles its own key. */
  lemma ReplayAsksNothing(cfg: SwitchConfig, d: SwitchState, key: (bool, int))
    requires d.packetQueue != [] && Waiting(d.packetQueue[0])
    ensures var r := ReplayStep(cfg, Pop(d), d.packetQueue[0]).0;
      Questions(r.outbox, key) == Questions(d.outbox, key) && r.pendingQuerySet <= d.pendingQuerySet
  {
    var p := d.packetQueue[0];
    var k := MatchOf(Pop(d), p);
    if k >= 0 {
      var settled := Pop(d).(flowTable := Hit(d.flowTable, k),
                             pendingQuerySet := d.pendingQuerySet - {PendingKey(p.msg.qr)});
      ForwardAsksNothing(cfg, settled, p, d.flowTable[k].actionVal, key);
    }
  }

  /**
   * A RELAY or ADMIT that no rule matches asks the controller about its key
   * exactly when that key is not pending already, and leaves the key pending;
   * any other question count stays as it was.
   */
  lemma AdmitAsksOnce(cfg: SwitchConfig, s: SwitchState, p: Packet, key: (bool, int))
    requires QueueOk(s) && WellFormed(p) && (p.ptype == Relay || p.ptype == Admit)
    ensures var r := SwitchStep(cfg, s, p).0;
      var miss := LastMatch(s.flowTable, p.msg.qr.srcIP, p.msg.qr.destIP) < 0;
      Questions(r.outbox, key) ==
        Questions(s.outbox, key) + (if miss && key == PendingKey(p.msg.qr) && key !in s.pendingQuerySet then 1 else 0) &&
      (miss ==> PendingKey(p.msg.qr) in r.pendingQuerySet && r.packetQueue == s.packetQueue + [p.(ptype := QueuedRelay)]) &&
      (!miss ==> r.pendingQuerySet == s.pendingQuerySet && r.packetQueue == s.packetQueue)
  {
    var counted := s.(pktStats := Received(s.pktStats, if p.ptype == Relay then RelayIn else Admit));
    var k := MatchOf(counted, p);
    if k < 0 {
      var ask := Send(0, p.(ptype := Query));
      QuestionsAppend(s.outbox, [ask], key);
      assert s.outbox + [ask] == (s.outbox + [ask])[..|s.outbox|] + [ask];
    } else {
      ForwardAsksNothing(cfg, counted.(flowTable := Hit(s.flowTable, k)), p, s.flowTable[k].actionVal, key);
    }
  }

  /** Every key the switch holds as pending has been asked about. */
  predicate Asked(s: SwitchState) {
    forall key :: key in s.pendingQuerySet ==> Questions(s.outbox, key) >= 1
  }

  /** One packet never takes back a question, and a key it leaves pending was pending or has been asked. */
  lemma StepAsks(cfg: SwitchConfig, s: SwitchState, p: Packet, key: (bool, int))
    requires QueueOk(s) && WellFormed(p) && SwitchHandles(p.ptype)
    ensures var r := SwitchStep(cfg, s, p).0;
      Questions(r.outbox, key) >= Questions(s.outbox, key) &&
      (key in r.pendingQuerySet ==> key in s.pendingQuerySet || Questions(r.outbox, key) >= 1)
  {
    match p.ptype
    case Add =>
      var counted := s.(pktStats := Received(s.pktStats, Add));
      if !(cfg.variant == A3 && RuleExists(s.flowTable, p.msg.a)) {
        var installed := counted.(flowTable := s.flowTable + [p.msg.a]);
        DrainAsksNothing(cfg, installed, |installed.packetQueue|, key);
      }
    case Relay =>
      AdmitAsksOnce(cfg, s, p, key);
    case Admit =>
      AdmitAsksOnce(cfg, s, p, key);
    case QueuedRelay =>
      var k := MatchOf(s, p);
      if k >= 0 {
        var settled := s.(flowTable := Hit(s.flowTable, k),
                          pendingQuerySet := s.pendingQuerySet - {PendingKey(p.msg.qr)});
        ForwardAsksNothing(cfg, settled, p, s.flowTable[k].actionVal, key);
      }
    case _ =>
  }

  /** No packet leaves a key pending that the switch has not asked the controller about. */
  lemma SwitchStepKeepsAsked(cfg: SwitchConfig, s: SwitchState, p: Packet)
    requires QueueOk(s) && WellFormed(p) && SwitchHandles(p.ptype) && Asked(s)
    ensures Asked(SwitchStep(cfg, s, p).0)
  {
    var r := SwitchStep(cfg, s, p).0;
    forall key | key in r.pendingQuerySet
      ensures Questions(r.outbox, key) >= 1
    {
      StepAsks(cfg, s, p, key);
    }
  }

  /** A queued packet that matches no rule of `table`. */
  predicate Stuck(table: seq<FlowEntry>, p: Packet) {
    p.msg.QRMessage? && LastMatch(table, p.msg.qr.srcIP, p.msg.qr.destIP) < 0
  }

  /** The packets of `q`, in order, that match no rule of `table`. */
  function Misses(table: seq<FlowEntry>, q: seq<Packet>): (m: seq<Packet>)
    ensures |m| <= |q|
    ensures forall i :: 0 <= i < |m| ==> m[i] in q && Stuck(table, m[i])
  {
    if q == [] then []
    else
      var last := q[|q| - 1];
      var m := Misses(table, q[..|q| - 1]);
      if Stuck(table, last) then m + [last] else m
  }

  /** Replaying the packet at the front: it goes to the back exactly when it is stuck; the rules stay. */
  lemma ReplayKeepsMisses(cfg: SwitchConfig, table: seq<FlowEntry>, d: SwitchState)
    requires d.packetQueue != [] && Waiting(d.packetQueue[0]) && SameRules(table, d.flowTable)
    ensures var p := d.packetQueue[0];
      var r := ReplayStep(cfg, Pop(d), p).0;
      SameRules(table, r.flowTable) &&
      r.packetQueue == d.packetQueue[1..] + (if Stuck(table, p) then [p] else [])
  {
    var p := d.packetQueue[0];
    LastMatchIgnoresCounts(table, d.flowTable, p.msg.qr.srcIP, p.msg.qr.destIP);
    var k := MatchOf(Pop(d), p);
    if k >= 0 {
      HitKeepsRules(d.flowTable, k);
      var settled := Pop(d).(flowTable := Hit(d.flowTable, k),
                             pendingQuerySet := d.pendingQuerySet - {PendingKey(p.msg.qr)});
      ForwardAsksNothing(cfg, settled, p, d.flowTable[k].actionVal, (true, 0));
    }
  }

  /**
   * Taking `n` packets from the queue keeps the rules (only hit counts
   * change), leaves the packets not yet taken at the front and puts back,
   * in their order, exactly the taken ones that still match no rule.
   */
  lemma {:induction false} DrainKeepsMisses(cfg: SwitchConfig, s: SwitchState, n: nat)
    requires QueueOk(s) && n <= |s.packetQueue|
    ensures var d := DrainN(cfg, s, n);
      SameRules(s.flowTable, d.flowTable) &&
      d.packetQueue == s.packetQueue[n..] + Misses(s.flowTable, s.packetQueue[..n])
    decreases n
  {
    var q := s.packetQueue;
    if n > 0 {
      DrainKeepsMisses(cfg, s, n - 1);
      DrainStep(cfg, s, n);
      var d := DrainN(cfg, s, n - 1);
      var m := Misses(s.flowTable, q[..n - 1]);
      QueueFront(d.packetQueue, q, n, m);
      var p := d.packetQueue[0];
      ReplayKeepsMisses(cfg, s.flowTable, d);
      MissesSnoc(s.flowTable, q, n);
      var tail := if Stuck(s.flowTable, p) then [p] else [];
      assert (q[n..] + m) + tail == q[n..] + (m + tail);
    } else {
      assert q[0..] == q;
    }
  }

  /** The queue left after `n - 1` replays starts with the `n`-th packet taken. */
  lemma QueueFront(dq: seq<Packet>, q: seq<Packet>, n: nat, m: seq<Packet>)
    requires 0 < n <= |q| && dq == q[n - 1..] + m
    ensures dq != [] && dq[0] == q[n - 1] && dq[1..] == q[n..] + m
  {
    assert q[n - 1..] == [q[n - 1]] + q[n..];
  }

  /** Taking one more packet adds it to the misses exactly when it is stuck. */
  lemma MissesSnoc(table: seq<FlowEntry>, q: seq<Packet>, n: nat)
    requires 0 < n <= |q|
    ensures Misses(table, q[..n]) ==
      Misses(table, q[..n - 1]) + (if Stuck(table, q[n - 1]) then [q[n - 1]] else [])
  {
    assert q[..n][..n - 1] == q[..n - 1];
  }

  /**
   * After an ADD that installs its rule, the queue holds exactly the queued
   * packets, in order, that match no rule of the enlarged table.
   */
  lemma AddReplaysQueue(cfg: SwitchConfig, s: SwitchState, p: Packet)
    requires QueueOk(s) && WellFormed(p) && p.ptype == Add
    requires !(cfg.variant == A3 && RuleExists(s.flowTable, p.msg.a))
    ensures var r := SwitchStep(cfg, s, p).0;
      SameRules(s.flowTable + [p.msg.a], r.flowTable) &&
      r.packetQueue == Misses(s.flowTable + [p.msg.a], s.packetQueue)
  {
    var installed := s.(pktStats := Received(s.pktStats, Add), flowTable := s.flowTable + [p.msg.a]);
    DrainKeepsMisses(cfg, installed, |s.packetQueue|);
    assert s.packetQueue[..|s.packetQueue|] == s.packetQueue;
    assert s.packetQueue[|s.packetQueue|..] == [];
  }

  /**
   * An ADD leaves the rule installed. Version 3 installs a rule only when no
   * rule with the same fields exists; version 2 appends it every time.
   */
  lemma AddInstallsRule(cfg: SwitchConfig, s: SwitchState, p: Packet)
    requires QueueOk(s) && WellFormed(p) && p.ptype == Add
    ensures var r := SwitchStep(cfg, s, p).0;
      RuleExists(r.flowTable, p.msg.a) &&
      |r.flowTable| == |s.flowTable| + (if cfg.variant == A3 && RuleExists(s.flowTable, p.msg.a) then 0 else 1)
  {
    if !(cfg.variant == A3 && RuleExists(s.flowTable, p.msg.a)) {
      AddReplaysQueue(cfg, s, p);
      AppendedRuleExists(s.flowTable, p.msg.a);
      RuleExistsIgnoresCounts(s.flowTable + [p.msg.a], SwitchStep(cfg, s, p).0.flowTable, p.msg.a);
    }
  }

  /** In version 3 a repeated ADD changes nothing but the received count. */
  lemma RepeatedAddIsIgnored(cfg: SwitchConfig, s: SwitchState, p: Packet)
    requires cfg.variant == A3 && QueueOk(s) && WellFormed(p) && p.ptype == Add
    ensures var s1 := SwitchStep(cfg, s, p).0;
      var s2 := SwitchStep(cfg, s1, p).0;
      s2 == s1.(pktStats := Received(s1.pktStats, Add))
  {
    AddInstallsRule(cfg, s, p);
  }
}
