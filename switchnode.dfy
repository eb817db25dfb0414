/**
 * A switch of the SDN simulator: its flow table, its queue of packets
 * waiting for a rule, its set of pending queries and the packets it sends
 * (the switch side of `processPacket` and `processPacketQueue`,
 * a3/a3sdn.cpp and a2/a2sdn.cpp).
 *
 * The functions below give the effect of one packet on the switch's state;
 * the class `Switch` updates that state in place and is proved to agree.
 */
module SwitchNode {
  import opened Wrappers
  import opened Packets
  import opened FlowTable
  import opened Nodes

  /** Fixed at start-up: the program version, the switch's number and its neighbours (-1 for none). */
  datatype SwitchConfig = SwitchConfig(variant: Variant, switchNumber: int, port1Switch: int, port2Switch: int)

  datatype SwitchState = SwitchState(
    flowTable: seq<FlowEntry>,
    packetQueue: seq<Packet>,
    pendingQuerySet: set<(bool, int)>,
    pktStats: Stats,
    acknowledged: bool,
    outbox: seq<Send>)

  /** The kinds a switch receives or replays; the others are read by the controller only. */
  predicate SwitchHandles(t: PacketType) {
    t == Ack || t == Add || t == Relay || t == Admit || t == QueuedRelay || t == Exit || t == RelayIn || t == RelayOut
  }

  /** A packet waiting in the switch's queue. */
  predicate Waiting(p: Packet) {
    p.ptype == QueuedRelay && WellFormed(p)
  }

  predicate QueueOk(s: SwitchState) {
    forall i :: 0 <= i < |s.packetQueue| ==> Waiting(s.packetQueue[i])
  }

  /** The key of a pending query: whether the source address is in range, and the destination. */
  function PendingKey(qr: QueryRelayMessage): (bool, int) {
    (qr.srcIP <= MAXIP, qr.destIP)
  }

  /** The entry the switch's flow table starts with: deliver its own addresses on port 3. */
  function FirstEntry(ipLow: int, ipHigh: int): FlowEntry {
    FlowEntry(0, MAXIP, ipLow, ipHigh, Forward, 3, MINPRI, 0)
  }

  /**
   * Acting on a matched rule's port: relay to a neighbour (1, 2). Delivery on
   * port 3 only prints a message, so it leaves the state as it is, like a drop.
   */
  function ForwardByRule(cfg: SwitchConfig, s: SwitchState, p: Packet, outPort: int): (r: SwitchState)
    ensures r.flowTable == s.flowTable && r.packetQueue == s.packetQueue && r.pendingQuerySet == s.pendingQuerySet
    ensures outPort != 1 && outPort != 2 ==> r == s
    ensures outPort == 1 || outPort == 2 ==> |r.outbox| == |s.outbox| + 1 && r.outbox[|s.outbox|].pkt.ptype == Relay
  {
    if outPort == 1 then
      s.(outbox := s.outbox + [Send(cfg.port1Switch, p.(ptype := Relay))],
         pktStats := Transmitted(s.pktStats, RelayOut, 1))
    else if outPort == 2 then
      s.(outbox := s.outbox + [Send(cfg.port2Switch, p.(ptype := Relay))],
         pktStats := Transmitted(s.pktStats, RelayOut, 1))
    else s
  }

  function MatchOf(s: SwitchState, p: Packet): int
    requires p.msg.QRMessage?
  {
    LastMatch(s.flowTable, p.msg.qr.srcIP, p.msg.qr.destIP)
  }

  /**
   * A RELAY or ADMIT packet, once counted: follow the matching rule, or queue
   * the packet and ask the controller unless the same question is pending.
   */
  function AdmitStep(cfg: SwitchConfig, s: SwitchState, p: Packet): (r: SwitchState)
    requires p.msg.QRMessage?
    ensures r.packetQueue == s.packetQueue || r.packetQueue == s.packetQueue + [p.(ptype := QueuedRelay)]
  {
    var k := MatchOf(s, p);
    if k < 0 then
      var queued := s.(packetQueue := s.packetQueue + [p.(ptype := QueuedRelay)]);
      var key := PendingKey(p.msg.qr);
      if key !in s.pendingQuerySet then
        queued.(pendingQuerySet := s.pendingQuerySet + {key},
                outbox := s.outbox + [Send(0, p.(ptype := Query))],
                pktStats := Transmitted(s.pktStats, Query, 1))
      else queued
    else
      ForwardByRule(cfg, s.(flowTable := Hit(s.flowTable, k)), p, s.flowTable[k].actionVal)
  }

  /** A QUEUEDRELAY packet: back to the queue unchanged on a miss; otherwise its query is settled and it is forwarded. */
  function ReplayStep(cfg: SwitchConfig, s: SwitchState, p: Packet): (r: (SwitchState, bool))
    requires p.msg.QRMessage?
    ensures r.1 ==> r.0.packetQueue == s.packetQueue && PendingKey(p.msg.qr) !in r.0.pendingQuerySet
  {
    var k := MatchOf(s, p);
    if k < 0 then (s.(packetQueue := s.packetQueue + [p]), false)
    else
      var settled := s.(flowTable := Hit(s.flowTable, k),
                        pendingQuerySet := s.pendingQuerySet - {PendingKey(p.msg.qr)});
      (ForwardByRule(cfg, settled, p, s.flowTable[k].actionVal), true)
  }

  function Pop(s: SwitchState): SwitchState
    requires s.packetQueue != []
  {
    s.(packetQueue := s.packetQueue[1..])
  }

  /** The state after `processPacketQueue` has taken `n` packets from the front and replayed each. */
  function DrainN(cfg: SwitchConfig, s: SwitchState, n: nat): (r: SwitchState)
    requires QueueOk(s) && n <= |s.packetQueue|
    ensures QueueOk(r) && |r.packetQueue| >= |s.packetQueue| - n
    decreases n
  {
    if n == 0 then s
    else
      var d := DrainN(cfg, s, n - 1);
      assert Waiting(d.packetQueue[0]);
      ReplayStep(cfg, Pop(d), d.packetQueue[0]).0
  }

  /** `processPacket` on a switch: the new state and the result. */
  function SwitchStep(cfg: SwitchConfig, s: SwitchState, p: Packet): (r: (SwitchState, Outcome))
    requires QueueOk(s) && WellFormed(p) && SwitchHandles(p.ptype)
    ensures QueueOk(r.0)
  {
    match p.ptype
    case Ack => (s.(pktStats := Received(s.pktStats, Ack), acknowledged := true), Status(true))
    case Add =>
      var counted := s.(pktStats := Received(s.pktStats, Add));
      if cfg.variant == A3 && RuleExists(s.flowTable, p.msg.a) then (counted, Status(true))
      else
        var installed := counted.(flowTable := s.flowTable + [p.msg.a]);
        (DrainN(cfg, installed, |installed.packetQueue|), Status(true))
    case Relay => (AdmitStep(cfg, s.(pktStats := Received(s.pktStats, RelayIn)), p), Status(true))
    case Admit => (AdmitStep(cfg, s.(pktStats := Received(s.pktStats, Admit)), p), Status(true))
    case QueuedRelay =>
      var (t, hit) := ReplayStep(cfg, s, p);
      (t, Status(hit))
    case Exit => (s.(pktStats := Received(s.pktStats, Exit)), Exited)
    case _ => (s, Status(false))
  }

  /** The state after `n` replays is the replay of the packet at the front after `n - 1`. */
  lemma DrainStep(cfg: SwitchConfig, s: SwitchState, n: nat)
    requires QueueOk(s) && 0 < n <= |s.packetQueue|
    ensures var d := DrainN(cfg, s, n - 1);
      d.packetQueue != [] && Waiting(d.packetQueue[0]) &&
      DrainN(cfg, s, n) == ReplayStep(cfg, Pop(d), d.packetQueue[0]).0
  {
    var d := DrainN(cfg, s, n - 1);
    assert Waiting(d.packetQueue[0]);
  }

  class Switch {
    const cfg: SwitchConfig
    var flowTable: seq<FlowEntry>
    var packetQueue: seq<Packet>
    var pendingQuerySet: set<(bool, int)>
    var pktStats: Stats
    var acknowledged: bool
    var outbox: seq<Send>

    function State(): SwitchState
      reads this
    {
      SwitchState(flowTable, packetQueue, pendingQuerySet, pktStats, acknowledged, outbox)
    }

    predicate Valid()
      reads this
    {
      QueueOk(State())
    }

    /** A switch at start-up: one rule delivering its own address range. */
    constructor (cfg: SwitchConfig, ipLow: int, ipHigh: int)
      ensures Valid() && this.cfg == cfg
      ensures State() == SwitchState([FirstEntry(ipLow, ipHigh)], [], {}, NoStats, false, [])
    {
      this.cfg := cfg;
      flowTable := [FirstEntry(ipLow, ipHigh)];
      packetQueue := [];
      pendingQuerySet := {};
      pktStats := NoStats;
      acknowledged := false;
      outbox := [];
    }

    method SendPacket(receiver: int, p: Packet) returns (status: bool)
      modifies this`outbox
      ensures outbox == old(outbox) + [Send(receiver, p)] && status
    {
      outbox := outbox + [Send(receiver, p)];
      status := true;
    }

    /** `processRelayPacket`: match a packet and count the hit on the chosen rule. */
    method ProcessRelayPacket(qr: QueryRelayMessage) returns (found: bool, outPort: int)
      modifies this`flowTable
      ensures var k := LastMatch(old(flowTable), qr.srcIP, qr.destIP);
        found == (k >= 0) &&
        (found ==> flowTable == Hit(old(flowTable), k) && outPort == old(flowTable)[k].actionVal) &&
        (!found ==> flowTable == old(flowTable) && outPort == 0)
    {
      var foundIndex := FindRule(flowTable, qr.srcIP, qr.destIP);
      if foundIndex > -1 {
        flowTable := flowTable[foundIndex := flowTable[foundIndex].(pktCount := flowTable[foundIndex].pktCount + 1)];
        outPort := flowTable[foundIndex].actionVal;
        found := true;
        return;
      }
      outPort := 0;
      found := false;
    }

    method FollowRule(p: Packet, outPort: int)
      modifies this`outbox, this`pktStats
      ensures State() == ForwardByRule(cfg, old(State()), p, outPort)
    {
      if outPort == 1 {
        var status := SendPacket(cfg.port1Switch, p.(ptype := Relay));
        pktStats := Transmitted(pktStats, RelayOut, 1);
      } else if outPort == 2 {
        var status := SendPacket(cfg.port2Switch, p.(ptype := Relay));
        pktStats := Transmitted(pktStats, RelayOut, 1);
      }
    }

    /** The handling shared by RELAY and ADMIT after the packet is counted. */
    method RelayOrAdmit(p: Packet)
      requires Valid() && WellFormed(p) && p.msg.QRMessage?
      modifies this
      ensures Valid() && State() == AdmitStep(cfg, old(State()), p)
    {
      var found, outPort := ProcessRelayPacket(p.msg.qr);
      if !found {
        packetQueue := packetQueue + [p.(ptype := QueuedRelay)];
        var key := PendingKey(p.msg.qr);
        if key !in pendingQuerySet {
          pendingQuerySet := pendingQuerySet + {key};
          var status := SendPacket(0, p.(ptype := Query));
          pktStats := Transmitted(pktStats, Query, 1);
        }
        return;
      }
      FollowRule(p, outPort);
    }

    /** `processPacket` on a switch. */
    method ProcessPacket(p: Packet) returns (r: Outcome)
      requires Valid() && WellFormed(p) && SwitchHandles(p.ptype)
      modifies this
      ensures Valid() && (State(), r) == SwitchStep(cfg, old(State()), p)
      decreases if p.ptype == QueuedRelay then 0 else 3
    {
      match p.ptype {
        case Ack =>
          pktStats := Received(pktStats, Ack);
          acknowledged := true;
          r := Status(true);
        case Add =>
          pktStats := Received(pktStats, Add);
          if cfg.variant == A3 && RuleExists(flowTable, p.msg.a) {
            // the rule is already installed
          } else {
            flowTable := flowTable + [p.msg.a];
            ProcessPacketQueue();
          }
          r := Status(true);
        case Relay =>
          pktStats := Received(pktStats, RelayIn);
          RelayOrAdmit(p);
          r := Status(true);
        case Admit =>
          pktStats := Received(pktStats, Admit);
          RelayOrAdmit(p);
          r := Status(true);
        case QueuedRelay =>
          var found, outPort := ProcessRelayPacket(p.msg.qr);
          if !found {
            packetQueue := packetQueue + [p];
            r := Status(false);
            return;
          }
          pendingQuerySet := pendingQuerySet - {PendingKey(p.msg.qr)};
          FollowRule(p, outPort);
          r := Status(true);
        case Exit =>
          pktStats := Received(pktStats, Exit);
          r := Exited;
        case _ =>
          r := Status(false);
      }
    }

    /** `processPacketQueue`: replay exactly the packets queued on entry. */
    method ProcessPacketQueue()
      requires Valid()
      modifies this
      ensures Valid() && State() == DrainN(cfg, old(State()), |old(packetQueue)|)
      decreases 2
    {
      var count := |packetQueue|;
      ghost var start := State();
      for i := 0 to count
        invariant Valid() && State() == DrainN(cfg, start, i)
      {
        DrainStep(cfg, start, i + 1);
        ReplayFront();
        assert State() == DrainN(cfg, start, i + 1);
      }
    }

    /** One turn of `processPacketQueue`: take the packet at the front and process it again. */
    method ReplayFront()
      requires Valid() && packetQueue != []
      modifies this
      ensures Valid() && State() == ReplayStep(cfg, Pop(old(State())), old(packetQueue[0])).0
      decreases 1
    {
      var inPacket := packetQueue[0];
      packetQueue := packetQueue[1..];
      var status := ProcessPacket(inPacket);
    }
  }
}
