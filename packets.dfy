/**
 * Packets exchanged between the controller and the switches of the SDN
 * simulator (a3/packets.h, a3/packets.cpp, a3/constants.h).
 */
module Packets {
  import opened Wrappers
  import opened Decimal

  const MAX_NSW := 7
  const MAXIP := 1000
  const MINPRI := 4
  const NETPORT := 21
  const FILEPORT := 22

  /** The two versions of the simulator: FIFO-based (a2) and socket-based (a3). */
  datatype Variant = A2 | A3

  datatype Action = Drop | Forward

  datatype PacketType =
    Open | Ack | Query | Add | Relay | Admit | RelayIn | RelayOut | QueuedQuery | QueuedRelay | Exit

  /** The enumerator's value in `enum packetType`. */
  function Ordinal(t: PacketType): (n: nat)
    ensures n < 11
  {
    match t
    case Open => 0 case Ack => 1 case Query => 2 case Add => 3 case Relay => 4 case Admit => 5
    case RelayIn => 6 case RelayOut => 7 case QueuedQuery => 8 case QueuedRelay => 9 case Exit => 10
  }

  /** The packet kind with a given enumerator value. */
  function KindOfOrdinal(n: nat): (t: PacketType)
    requires n < 11
    ensures Ordinal(t) == n
  {
    [Open, Ack, Query, Add, Relay, Admit, RelayIn, RelayOut, QueuedQuery, QueuedRelay, Exit][n]
  }

  /** There are exactly eleven kinds, numbered 0 to 10 in declaration order. */
  lemma OrdinalBijective(t: PacketType)
    ensures KindOfOrdinal(Ordinal(t)) == t
  {
  }

  const PACKETNAME: seq<string> :=
    ["OPEN", "ACK", "QUERY", "ADDRULE", "RELAY", "ADMIT", "RELAYIN", "RELAYOUT",
     "QUEUEDQUERY", "QUEUEDRELAY", "EXIT"]

  const ACTIONNAME: seq<string> := ["DROP", "FORWARD"]

  function PacketName(t: PacketType): string {
    PACKETNAME[Ordinal(t)]
  }

  /** Every kind has its own display name; ADD is shown as "ADDRULE". */
  lemma PacketNamesDistinct(t1: PacketType, t2: PacketType)
    requires PacketName(t1) == PacketName(t2)
    ensures t1 == t2
    ensures PacketName(Add) == "ADDRULE"
  {
    assert Ordinal(t1) == Ordinal(t2) by {
      var i, j := Ordinal(t1), Ordinal(t2);
      assert forall a, b :: 0 <= a < b < 11 ==> PACKETNAME[a] != PACKETNAME[b];
    }
    OrdinalBijective(t1);
    OrdinalBijective(t2);
  }

  function ActionName(a: Action): string {
    ACTIONNAME[if a == Drop then 0 else 1]
  }

  datatype FlowEntry = FlowEntry(
    srcIPLo: int, srcIPHi: int, destIPLo: int, destIPHi: int,
    actionType: Action, actionVal: int, pri: int, pktCount: int)

  datatype OpenMessage = OpenMessage(
    switchNumber: int, port1Switch: int, port2Switch: int, ipLow: int, ipHigh: int)

  /** `sendingSwitchNumber` is `None` where the source leaves it unset. */
  datatype QueryRelayMessage = QueryRelayMessage(
    sendingSwitchNumber: Option<int>, srcIP: int, destIP: int)

  /** The union `message`; `NoMessage` stands for a payload nobody reads (ACK, EXIT). */
  datatype Message =
    | NoMessage
    | OMessage(o: OpenMessage)
    | QRMessage(qr: QueryRelayMessage)
    | AMessage(a: FlowEntry)

  datatype Packet = Packet(ptype: PacketType, msg: Message)

  /** Which member of the union a payload is. */
  datatype Shape = NoPayload | OpenPayload | QueryRelayPayload | FlowPayload

  function ShapeOf(m: Message): Shape {
    match m
    case NoMessage => NoPayload
    case OMessage(_) => OpenPayload
    case QRMessage(_) => QueryRelayPayload
    case AMessage(_) => FlowPayload
  }

  /** The payload each kind carries, as documented next to the packet declarations. */
  function CarriedShape(t: PacketType): Shape {
    match t
    case Ack | Exit => NoPayload
    case Open => OpenPayload
    case Add => FlowPayload
    case Query | Relay | Admit | RelayIn | RelayOut | QueuedQuery | QueuedRelay => QueryRelayPayload
  }

  predicate WellFormed(p: Packet) {
    ShapeOf(p.msg) == CarriedShape(p.ptype)
  }

  /** The union member `printPacketMessage` reads for a kind. */
  function ShownPayload(t: PacketType): Shape {
    if t != Ack && t != Exit then
      if t == Add then FlowPayload
      else if t == Open then OpenPayload
      else QueryRelayPayload
    else NoPayload
  }

  /** Printing a well-formed packet reads exactly the union member it carries. */
  lemma ShownPayloadIsCarried(p: Packet)
    requires WellFormed(p)
    ensures ShownPayload(p.ptype) == ShapeOf(p.msg)
  {
  }

  function CreateAMessagePacket(t: PacketType, srcIPLo: int, srcIPHi: int, destIPLo: int, destIPHi: int,
                                actionType: Action, actionVal: int, pri: int, pktCount: int): (p: Packet)
    ensures p.ptype == t && p.msg.AMessage?
    ensures p.msg.a.srcIPLo == srcIPLo && p.msg.a.srcIPHi == srcIPHi
    ensures p.msg.a.destIPLo == destIPLo && p.msg.a.destIPHi == destIPHi
    ensures p.msg.a.actionType == actionType && p.msg.a.actionVal == actionVal
    ensures p.msg.a.pri == pri && p.msg.a.pktCount == pktCount
    ensures WellFormed(p) <==> t == Add
  {
    Packet(t, AMessage(FlowEntry(srcIPLo, srcIPHi, destIPLo, destIPHi, actionType, actionVal, pri, pktCount)))
  }

  function CreateQRMessagePacket(t: PacketType, srcIP: int, destIP: int): (p: Packet)
    ensures p.ptype == t && p.msg.QRMessage?
    ensures p.msg.qr.srcIP == srcIP && p.msg.qr.destIP == destIP
    ensures p.msg.qr.sendingSwitchNumber.None?
    ensures WellFormed(p) <==> t !in {Open, Ack, Add, Exit}
  {
    Packet(t, QRMessage(QueryRelayMessage(None, srcIP, destIP)))
  }

  function CreateOMessagePacket(t: PacketType, switchNumber: int, port1Switch: int, port2Switch: int,
                                ipLow: int, ipHigh: int): (p: Packet)
    ensures p.ptype == t && p.msg.OMessage?
    ensures p.msg.o.switchNumber == switchNumber
    ensures p.msg.o.port1Switch == port1Switch && p.msg.o.port2Switch == port2Switch
    ensures p.msg.o.ipLow == ipLow && p.msg.o.ipHigh == ipHigh
    ensures WellFormed(p) <==> t == Open
  {
    Packet(t, OMessage(OpenMessage(switchNumber, port1Switch, port2Switch, ipLow, ipHigh)))
  }

  /** A packet with no payload (ACK and EXIT are built this way). */
  function Signal(t: PacketType): Packet {
    Packet(t, NoMessage)
  }

  /** How a trace names the endpoint a packet came from. */
  function SourceLabel(source: int): (s: string)
    ensures source == 0 ==> s == "cont"
    ensures source == FILEPORT ==> s == "file"
    ensures source != 0 && source != FILEPORT ==> s == "sw" + IntToString(source)
  {
    if source == 0 then "cont"
    else if source == FILEPORT then "file"
    else "sw" + IntToString(source)
  }

  /** How a trace names the endpoint a packet goes to. */
  function DestinationLabel(destination: int): (s: string)
    ensures destination == 0 ==> s == "cont"
    ensures destination == NETPORT ==> s == "net"
    ensures destination != 0 && destination != NETPORT ==> s == "sw" + IntToString(destination)
  {
    if destination == 0 then "cont"
    else if destination == NETPORT then "net"
    else "sw" + IntToString(destination)
  }

  /** Different sources never share a label. */
  lemma SourceLabelInjective(a: int, b: int)
    requires SourceLabel(a) == SourceLabel(b)
    ensures a == b
  {
    assert SourceLabel(a)[0] == 's' <==> a != 0 && a != FILEPORT;
    assert SourceLabel(b)[0] == 's' <==> b != 0 && b != FILEPORT;
    if a != 0 && a != FILEPORT {
      assert IntToString(a) == SourceLabel(a)[2..];
      assert IntToString(b) == SourceLabel(b)[2..];
      IntToStringInjective(a, b);
    }
  }

  /** Different destinations never share a label. */
  lemma DestinationLabelInjective(a: int, b: int)
    requires DestinationLabel(a) == DestinationLabel(b)
    ensures a == b
  {
    assert DestinationLabel(a)[0] == 's' <==> a != 0 && a != NETPORT;
    assert DestinationLabel(b)[0] == 's' <==> b != 0 && b != NETPORT;
    if a != 0 && a != NETPORT {
      assert IntToString(a) == DestinationLabel(a)[2..];
      assert IntToString(b) == DestinationLabel(b)[2..];
      IntToStringInjective(a, b);
    }
  }
}
