/**
 * The controller of the SDN simulator: the chain of switches that have
 * joined, the queries held back until every switch has joined, and the
 * packets it sends (the controller side of `processPacket`, with
 * `switchNumberNotInUse`, `addSwitch`, `removeSwitch` and
 * `processPacketQueue`, a3/a3sdn.cpp and a2/a2sdn.cpp).
 */
module ControllerNode {
  import opened Wrappers
  import opened Packets
  import opened Nodes
  import opened Topology
  import opened QueryResolver

  /** Fixed at start-up: the program version and how many switches the network expects. */
  datatype ControllerConfig = ControllerConfig(variant: Variant, numSwitches: int)

  datatype ControllerState = ControllerState(
    switches: seq<OpenMessage>,
    packetQueue: seq<Packet>,
    pktStats: Stats,
    skewWarning: bool,
    outbox: seq<Send>)

  /** The kinds a controller receives or replays; the others are read by switches only. */
  predicate ControllerHandles(t: PacketType) {
    t == Open || t == Query || t == QueuedQuery || t == Exit || t == RelayIn || t == RelayOut
  }

  /** A query held back, remembering which switch asked. */
  predicate Waiting(p: Packet) {
    p.ptype == QueuedQuery && WellFormed(p) && p.msg.qr.sendingSwitchNumber.Some?
  }

  predicate QueueOk(s: ControllerState) {
    forall i :: 0 <= i < |s.packetQueue| ==> Waiting(s.packetQueue[i])
  }

  /** An EXIT packet for every switch of the chain, in chain order. */
  function ExitsTo(t: seq<OpenMessage>): (r: seq<Send>)
    ensures |r| == |t|
    ensures forall i :: 0 <= i < |t| ==> r[i] == Send(t[i].switchNumber, Signal(Exit))
    decreases |t|
  {
    if t == [] then [] else [Send(t[0].switchNumber, Signal(Exit))] + ExitsTo(t[1..])
  }

  /** Send `sender` the rule the controller computes for its query. */
  function Answer(cfg: ControllerConfig, s: ControllerState, qr: QueryRelayMessage, sender: int): ControllerState {
    s.(outbox := s.outbox + [Send(sender, ProcessQueryPacket(cfg.variant, s.switches, qr, sender))],
       pktStats := Transmitted(s.pktStats, Add, 1))
  }

  function Pop(s: ControllerState): ControllerState
    requires s.packetQueue != []
  {
    s.(packetQueue := s.packetQueue[1..])
  }

  /** The state after `processPacketQueue` has answered the first `n` held-back queries. */
  function DrainN(cfg: ControllerConfig, s: ControllerState, n: nat): (r: ControllerState)
    requires QueueOk(s) && n <= |s.packetQueue|
    ensures QueueOk(r) && r.packetQueue == s.packetQueue[n..]
    decreases n
  {
    if n == 0 then s
    else
      var d := DrainN(cfg, s, n - 1);
      var p := d.packetQueue[0];
      assert Waiting(p);
      Answer(cfg, Pop(d), p.msg.qr, p.msg.qr.sendingSwitchNumber.value)
  }

  /** Refuse a switch: send it EXIT. */
  function Refuse(s: ControllerState, n: int): ControllerState {
    s.(outbox := s.outbox + [Send(n, Signal(Exit))], pktStats := Transmitted(s.pktStats, Exit, 1))
  }

  /**
   * What `addSwitch` does: the newcomer takes its place in the chain, or,
   * when it cannot be placed, every switch of the chain and the newcomer get
   * EXIT. Held queries and the skew flag are left alone.
   */
  function Added(s: ControllerState, o: OpenMessage): (r: (ControllerState, Outcome))
    ensures r.0.packetQueue == s.packetQueue && r.0.skewWarning == s.skewWarning
  {
    match Place(s.switches, o)
    case ReadPastEnd => (s, Undefined)
    case Placement(t, ok) =>
      if ok then (s.(switches := t), Status(true))
      else
        (s.(switches := t,
            outbox := s.outbox + ExitsTo(t) + [Send(o.switchNumber, Signal(Exit))],
            pktStats := Transmitted(s.pktStats, Exit, |t| + 1)),
         Exited)
  }

  /**
   * A switch `n` that has been placed: ACK it and, when the chain is now
   * complete, record whether it is skewed and answer every held query.
   */
  function Welcome(cfg: ControllerConfig, s: ControllerState, n: int): (r: ControllerState)
    requires QueueOk(s)
    ensures QueueOk(r)
    ensures |s.switches| == cfg.numSwitches ==> r.packetQueue == []
    ensures |s.switches| != cfg.numSwitches ==> r.packetQueue == s.packetQueue && r.skewWarning == s.skewWarning
  {
    var acked := s.(outbox := s.outbox + [Send(n, Signal(Ack))], pktStats := Transmitted(s.pktStats, Ack, 1));
    if |s.switches| == cfg.numSwitches then
      var checked := acked.(skewWarning := !VerifyNetwork(s.switches));
      DrainN(cfg, checked, |checked.packetQueue|)
    else acked
  }

  /** An OPEN from a switch whose number is free and for which there is room. */
  function Join(cfg: ControllerConfig, s: ControllerState, o: OpenMessage): (r: (ControllerState, Outcome))
    requires QueueOk(s)
    ensures QueueOk(r.0)
    ensures r.1 == Status(true) || r.1 == Exited || r.1 == Undefined
    ensures r.1 != Status(true) ==> r.0.packetQueue == s.packetQueue
  {
    var (a, r) := Added(s, o);
    if r == Status(true) then (Welcome(cfg, a, o.switchNumber), r) else (a, r)
  }

  /** An OPEN packet: counted, then refused when its number is taken or the network is full, else joined. */
  function OpenStep(cfg: ControllerConfig, s: ControllerState, o: OpenMessage): (r: (ControllerState, Outcome))
    requires QueueOk(s)
    ensures QueueOk(r.0)
    ensures InUse(s.switches, o.switchNumber) || |s.switches| >= cfg.numSwitches ==>
      r.0.switches == s.switches && r.0.packetQueue == s.packetQueue
  {
    var counted := s.(pktStats := Received(s.pktStats, Open));
    var n := o.switchNumber;
    if InUse(s.switches, n) then (Refuse(counted, n), Status(cfg.variant == A2))
    else if |s.switches| < cfg.numSwitches then Join(cfg, counted, o)
    else (Refuse(counted, n), Status(false))
  }

  /** `processPacket` on the controller, for a packet from switch `sender`. */
  function ControllerStep(cfg: ControllerConfig, s: ControllerState, p: Packet, sender: int): (r: (ControllerState, Outcome))
    requires QueueOk(s) && WellFormed(p) && ControllerHandles(p.ptype)
    ensures QueueOk(r.0)
  {
    match p.ptype
    case Open => OpenStep(cfg, s, p.msg.o)
    case Query =>
      var counted := s.(pktStats := Received(s.pktStats, Query));
      if |s.switches| < cfg.numSwitches then
        var held := Packet(QueuedQuery, QRMessage(p.msg.qr.(sendingSwitchNumber := Some(sender))));
        (counted.(packetQueue := s.packetQueue + [held]), Status(cfg.variant == A3))
      else (Answer(cfg, counted, p.msg.qr, sender), Status(true))
    case QueuedQuery => (Answer(cfg, s, p.msg.qr, sender), Status(true))
    case Exit => (s.(pktStats := Received(s.pktStats, Exit)), Exited)
    case _ => (s, Status(false))
  }

  class Controller {
    const cfg: ControllerConfig
    var switches: seq<OpenMessage>
    var packetQueue: seq<Packet>
    var pktStats: Stats
    var skewWarning: bool
    var outbox: seq<Send>

    function State(): ControllerState
      reads this
    {
      ControllerState(switches, packetQueue, pktStats, skewWarning, outbox)
    }

    predicate Valid()
      reads this
    {
      QueueOk(State())
    }

    constructor (cfg: ControllerConfig)
      ensures Valid() && this.cfg == cfg
      ensures State() == ControllerState([], [], NoStats, false, [])
    {
      this.cfg := cfg;
      switches := [];
      packetQueue := [];
      pktStats := NoStats;
      skewWarning := false;
      outbox := [];
    }

    method SendPacket(receiver: int, p: Packet) returns (status: bool)
      modifies this`outbox
      ensures outbox == old(outbox) + [Send(receiver, p)] && status
    {
      outbox := outbox + [Send(receiver, p)];
      status := true;
    }

    /** `switchNumberNotInUse`: a number already in the chain is refused with EXIT. */
    method SwitchNumberNotInUse(swNumber: int) returns (validNumber: bool)
      modifies this`outbox, this`pktStats
      ensures validNumber == !InUse(switches, swNumber)
      ensures validNumber ==> outbox == old(outbox) && pktStats == old(pktStats)
      ensures !validNumber ==> (outbox, pktStats) == (Refuse(old(State()), swNumber).outbox, Refuse(old(State()), swNumber).pktStats)
    {
      validNumber := true;
      var i := 0;
      while i < |switches|
        invariant 0 <= i <= |switches|
        invariant forall j :: 0 <= j < i ==> switches[j].switchNumber != swNumber
      {
        if switches[i].switchNumber == swNumber {
          validNumber := false;
          var status := SendPacket(switches[i].switchNumber, Signal(Exit));
          pktStats := Transmitted(pktStats, Exit, 1);
          break;
        }
        i := i + 1;
      }
    }

    /** `addSwitch`: place the newcomer; on failure shut the whole network down. */
    method AddSwitch(o: OpenMessage) returns (r: Outcome)
      requires Valid()
      modifies this`switches, this`outbox, this`pktStats
      ensures Valid() && (State(), r) == Added(old(State()), o)
    {
      var placed := PlaceSwitch(switches, o);
      if placed.ReadPastEnd? {
        return Undefined;
      }
      switches := placed.table;
      if placed.success {
        return Status(true);
      }
      ShutDown(o.switchNumber);
      r := Exited;
    }

    /** The failure path of `addSwitch`: EXIT to every switch of the chain, in chain order, then to the newcomer `n`. */
    method ShutDown(n: int)
      modifies this`outbox, this`pktStats
      ensures outbox == old(outbox) + ExitsTo(switches) + [Send(n, Signal(Exit))]
      ensures pktStats == Transmitted(old(pktStats), Exit, |switches| + 1)
    {
      for i := 0 to |switches|
        invariant outbox == old(outbox) + ExitsTo(switches[..i])
        invariant i == 0 ==> pktStats == old(pktStats)
        invariant i > 0 ==> pktStats == Transmitted(old(pktStats), Exit, i)
      {
        var status := SendPacket(switches[i].switchNumber, Signal(Exit));
        if i > 0 {
          TransmittedTwice(old(pktStats), Exit, i, 1);
        }
        pktStats := Transmitted(pktStats, Exit, 1);
        ExitsToSnoc(switches, i);
      }
      assert switches[..|switches|] == switches;
      var status := SendPacket(n, Signal(Exit));
      if |switches| > 0 {
        TransmittedTwice(old(pktStats), Exit, |switches|, 1);
      }
      pktStats := Transmitted(pktStats, Exit, 1);
    }

    /** `processPacket` on the controller. */
    method ProcessPacket(p: Packet, sender: int) returns (r: Outcome)
      requires Valid() && WellFormed(p) && ControllerHandles(p.ptype)
      modifies this
      ensures Valid() && (State(), r) == ControllerStep(cfg, old(State()), p, sender)
      decreases if p.ptype == QueuedQuery then 0 else 5
    {
      match p.ptype {
        case Open =>
          r := ProcessOpen(p.msg.o);
        case Query =>
          pktStats := Received(pktStats, Query);
          if |switches| < cfg.numSwitches {
            var held := Packet(QueuedQuery, QRMessage(p.msg.qr.(sendingSwitchNumber := Some(sender))));
            packetQueue := packetQueue + [held];
            r := Status(cfg.variant == A3);
            return;
          }
          AnswerQuery(p.msg.qr, sender);
          r := Status(true);
        case QueuedQuery =>
          AnswerQuery(p.msg.qr, sender);
          r := Status(true);
        case Exit =>
          pktStats := Received(pktStats, Exit);
          r := Exited;
        case _ =>
          r := Status(false);
      }
    }

    /** The OPEN case of `processPacket`: refuse the switch, or add it and, once the network is complete, answer the held queries. */
    method ProcessOpen(o: OpenMessage) returns (r: Outcome)
      requires Valid()
      modifies this
      ensures Valid() && (State(), r) == OpenStep(cfg, old(State()), o)
      decreases 4
    {
      pktStats := Received(pktStats, Open);
      var n := o.switchNumber;
      var free := SwitchNumberNotInUse(n);
      if !free {
        r := Status(cfg.variant == A2);
        return;
      }
      if |switches| >= cfg.numSwitches {
        var status := SendPacket(n, Signal(Exit));
        pktStats := Transmitted(pktStats, Exit, 1);
        r := Status(false);
        return;
      }
      r := AddSwitch(o);
      if r != Status(true) {
        return;
      }
      AcceptSwitch(n);
    }

    /** A placed switch is acknowledged; the one that completes the network releases the held queries. */
    method AcceptSwitch(n: int)
      requires Valid()
      modifies this
      ensures Valid() && State() == Welcome(cfg, old(State()), n)
      decreases 3
    {
      var status := SendPacket(n, Signal(Ack));
      pktStats := Transmitted(pktStats, Ack, 1);
      if |switches| == cfg.numSwitches {
        skewWarning := !VerifyNetwork(switches);
        ProcessPacketQueue();
      }
    }

    /** Answer a query with the rule `processQueryPacket` computes. */
    method AnswerQuery(qr: QueryRelayMessage, sender: int)
      modifies this`outbox, this`pktStats
      ensures State() == Answer(cfg, old(State()), qr, sender)
    {
      var outPacket := ProcessQueryPacket(cfg.variant, switches, qr, sender);
      var status := SendPacket(sender, outPacket);
      pktStats := Transmitted(pktStats, Add, 1);
    }

    /** `processPacketQueue`: answer every held-back query, each to the switch that asked. */
    method ProcessPacketQueue()
      requires Valid()
      modifies this
      ensures Valid() && State() == DrainN(cfg, old(State()), |old(packetQueue)|)
      decreases 2
    {
      var count := |packetQueue|;
      ghost var start := State();
      for i := 0 to count
        invariant Valid() && State() == DrainN(cfg, start, i)
      {
        AnswerFront();
      }
    }

    /** One turn of `processPacketQueue`: take the query at the front and answer it to the switch that asked. */
    method AnswerFront()
      requires Valid() && packetQueue != []
      modifies this
      ensures Valid()
      ensures var p := old(packetQueue[0]);
        State() == Answer(cfg, Pop(old(State())), p.msg.qr, p.msg.qr.sendingSwitchNumber.value)
      decreases 1
    {
      var inPacket := packetQueue[0];
      packetQueue := packetQueue[1..];
      var status := ProcessPacket(inPacket, inPacket.msg.qr.sendingSwitchNumber.value);
    }

    /**
     * `removeSwitch`: close the gap the lost switch leaves in the two
     * socket tables, then drop its record from the chain.
     */
    method RemoveSwitch(numConnectedSwitches: int, contSockets: array<int>, socketSwitchNumbers: array<int>, index: int)
      requires 0 <= index < numConnectedSwitches <= contSockets.Length && numConnectedSwitches <= socketSwitchNumbers.Length
      requires contSockets != socketSwitchNumbers
      modifies this`switches, contSockets, socketSwitchNumbers
      ensures switches == EraseNumber(old(switches), old(socketSwitchNumbers[index]))
      ensures contSockets[..] == old(contSockets[..index]) + old(contSockets[index + 1..numConnectedSwitches]) + old(contSockets[numConnectedSwitches - 1..])
      ensures socketSwitchNumbers[..] == old(socketSwitchNumbers[..index]) + old(socketSwitchNumbers[index + 1..numConnectedSwitches]) + old(socketSwitchNumbers[numConnectedSwitches - 1..])
    {
      var switchNumber := socketSwitchNumbers[index];
      CloseGap(contSockets, index, numConnectedSwitches);
      CloseGap(socketSwitchNumbers, index, numConnectedSwitches);
      var k := 0;
      while k < |switches| && switches[k].switchNumber != switchNumber
        invariant 0 <= k <= |switches| && switches == old(switches)
        invariant forall j :: 0 <= j < k ==> switches[j].switchNumber != switchNumber
      {
        k := k + 1;
      }
      IndexOfNumberUnique(switches, switchNumber, k);
      if k < |switches| {
        switches := switches[..k] + switches[k + 1..];
      }
    }
  }

  /**
   * The shift of `removeSwitch`: the entries after `index`, up to `n`, move
   * one place down; the last of them stays where it was as well.
   */
  method CloseGap(a: array<int>, index: int, n: int)
    requires 0 <= index < n <= a.Length
    modifies a
    ensures a[..] == old(a[..index]) + old(a[index + 1..n]) + old(a[n - 1..])
  {
    for i := index to n - 1
      invariant forall j :: 0 <= j < a.Length ==> a[j] == if index <= j < i then old(a[j + 1]) else old(a[j])
    {
      a[i] := a[i + 1];
    }
  }

  lemma {:induction false} ExitsToAppend(a: seq<OpenMessage>, b: seq<OpenMessage>)
    ensures ExitsTo(a + b) == ExitsTo(a) + ExitsTo(b)
    decreases |a|
  {
    if a != [] {
      assert (a + b)[1..] == a[1..] + b;
      ExitsToAppend(a[1..], b);
    } else {
      assert a + b == b;
    }
  }

  lemma ExitsToSnoc(t: seq<OpenMessage>, i: nat)
    requires i < |t|
    ensures ExitsTo(t[..i + 1]) == ExitsTo(t[..i]) + [Send(t[i].switchNumber, Signal(Exit))]
  {
    assert t[..i + 1] == t[..i] + [t[i]];
    ExitsToAppend(t[..i], [t[i]]);
  }

  lemma IndexOfNumberUnique(table: seq<OpenMessage>, n: int, k: nat)
    requires k <= |table|
    requires k < |table| ==> table[k].switchNumber == n
    requires forall j :: 0 <= j < k ==> table[j].switchNumber != n
    ensures k == IndexOfNumber(table, n)
  {
  }
}
