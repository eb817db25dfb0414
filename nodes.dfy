/**
 * What the controller and the switches share: the outbox that stands for
 * `sendPacket`, the packet counters `pktStats`, and the result of handling
 * one packet (a3/a3sdn.cpp, a2/a2sdn.cpp).
 */
module Nodes {
  import opened Packets

  /** One call of `sendPacket`: the packet and the endpoint it goes to. */
  datatype Send = Send(receiver: int, pkt: Packet)

  /** The result of handling a packet: the returned status, or the end of the process. */
  datatype Outcome =
    | Status(ok: bool)
    | Exited     // the process called exit(0)
    | Undefined  // the source reads past the end of a vector

  /** `map::operator[]` reads an absent counter as 0. */
  function Count(m: map<PacketType, int>, t: PacketType): int {
    if t in m then m[t] else 0
  }

  /** `m[t] += n`. */
  function AddCount(m: map<PacketType, int>, t: PacketType, n: int): (r: map<PacketType, int>)
    ensures Count(r, t) == Count(m, t) + n
    ensures forall u :: u != t ==> Count(r, u) == Count(m, u)
  {
    m[t := Count(m, t) + n]
  }

  datatype Stats = Stats(received: map<PacketType, int>, transmitted: map<PacketType, int>)

  const NoStats := Stats(map[], map[])

  function Received(st: Stats, t: PacketType): Stats {
    st.(received := AddCount(st.received, t, 1))
  }

  function Transmitted(st: Stats, t: PacketType, n: int): Stats {
    st.(transmitted := AddCount(st.transmitted, t, n))
  }

  /** Two additions to the same counter amount to one addition of their sum. */
  lemma TransmittedTwice(st: Stats, t: PacketType, a: int, b: int)
    ensures Transmitted(Transmitted(st, t, a), t, b) == Transmitted(st, t, a + b)
  {
    var m := st.transmitted;
    assert AddCount(AddCount(m, t, a), t, b) == m[t := Count(m, t) + a + b];
  }
}
