/** What expressions mean, byte by byte of the frame. */
module Frames {
  import opened Bytes
  import opened Wrappers
  import opened Vm
  import opened Filter

  lemma FieldOfOne(p: Packet, offset: nat, a: Byte)
    ensures Field(p, offset, 1, a) == if offset + 1 > |p| then Abort else Decide(OctetsAt(p, offset, [a]))
  {
    LoadBytes(p, offset);
    if offset + 1 <= |p| {
      assert p[offset..offset + 1] == [p[offset]];
    }
  }

  lemma FieldOfTwo(p: Packet, offset: nat, a: Byte, b: Byte)
    ensures Field(p, offset, 2, Half(a, b)) == if offset + 2 > |p| then Abort else Decide(OctetsAt(p, offset, [a, b]))
  {
    LoadBytes(p, offset);
    if offset + 2 <= |p| {
      assert p[offset..offset + 2] == [p[offset], p[offset + 1]];
    }
  }

  /** The frame has these bytes for an EtherType. */
  predicate TypeIs(p: Packet, a: Byte, b: Byte) {
    |p| >= 14 && p[12] == a && p[13] == b
  }

  predicate ByteIs(p: Packet, offset: nat, a: Byte) {
    |p| > offset && p[offset] == a
  }

  lemma TypeBytes(p: Packet)
    ensures EtherType(p).Some? <==> |p| >= 14
    ensures EtherType(p) == Some(ETHERTYPE_IPV4) <==> TypeIs(p, 0x08, 0x00)
    ensures EtherType(p) == Some(ETHERTYPE_ARP) <==> TypeIs(p, 0x08, 0x06)
    ensures EtherType(p) == Some(ETHERTYPE_IPV6) <==> TypeIs(p, 0x86, 0xDD)
  {
    LoadBytes(p, 12);
  }

  /** The transport protocol: byte 23 over IPv4; over IPv6 byte 20, or byte 54 behind a Fragment header. */
  predicate Transports(p: Packet, number: Byte) {
    || (TypeIs(p, 0x08, 0x00) && ByteIs(p, 23, number))
    || (TypeIs(p, 0x86, 0xDD) && (ByteIs(p, 20, number) || (ByteIs(p, 20, 44) && ByteIs(p, 54, number))))
  }

  lemma TransportBytes(p: Packet, number: Byte)
    ensures EvalTransport(number, p) == True <==> Transports(p, number)
  {
    TypeBytes(p);
    LoadBytes(p, 20);
    LoadBytes(p, 23);
    LoadBytes(p, 54);
  }

  /** What each of the six keywords says of the bytes. */
  predicate ProtocolIn(p: Packet, name: Protocol) {
    match name
    case Ip => TypeIs(p, 0x08, 0x00)
    case Arp => TypeIs(p, 0x08, 0x06)
    case Ip6 => TypeIs(p, 0x86, 0xDD)
    case Icmp => TypeIs(p, 0x08, 0x00) && ByteIs(p, 23, 1)
    case Tcp => Transports(p, 6)
    case Udp => Transports(p, 17)
  }

  lemma ProtocolBytes(name: Protocol, p: Packet)
    ensures Eval(Proto(name), p) == True <==> ProtocolIn(p, name)
  {
    TypeBytes(p);
    LoadBytes(p, 23);
    TransportBytes(p, 6);
    TransportBytes(p, 17);
  }

  /** The two bytes are the source port at `offset`, the destination port behind it, or either. */
  predicate PortAt(p: Packet, offset: nat, a: Byte, b: Byte, direction: Option<Direction>) {
    match direction
    case Some(Src) => OctetsAt(p, offset, [a, b])
    case Some(Dst) => OctetsAt(p, offset + 2, [a, b])
    case None => OctetsAt(p, offset, [a, b]) || OctetsAt(p, offset + 2, [a, b])
  }

  /** TCP or UDP right behind an IPv6 header, with the port. */
  predicate PortOver6(p: Packet, a: Byte, b: Byte, direction: Option<Direction>) {
    (ByteIs(p, 20, 6) || ByteIs(p, 20, 17)) && PortAt(p, 54, a, b, direction)
  }

  /** TCP or UDP in a first fragment, with the port behind a header of as many words as byte 14 says. */
  predicate PortOver4(p: Packet, a: Byte, b: Byte, direction: Option<Direction>) {
    && (ByteIs(p, 23, 6) || ByteIs(p, 23, 17))
    && p[20] % 32 == 0 && p[21] == 0
    && PortAt(p, 14 + 4 * (p[14] % 16), a, b, direction)
  }

  lemma PickBytes(p: Packet, offset: nat, a: Byte, b: Byte, direction: Option<Direction>)
    ensures Pick(direction, Field(p, offset, 2, Half(a, b)), Field(p, offset + 2, 2, Half(a, b))) == True <==>
            PortAt(p, offset, a, b, direction)
  {
    FieldOfTwo(p, offset, a, b);
    FieldOfTwo(p, offset + 2, a, b);
  }

  lemma Port6Bytes(a: Byte, b: Byte, direction: Option<Direction>, p: Packet)
    ensures EvalPort6(Half(a, b), direction, p) == True <==> PortOver6(p, a, b, direction)
  {
    LoadBytes(p, 20);
    PickBytes(p, 54, a, b, direction);
  }

  lemma FirstFragmentBytes(p: Packet)
    requires |p| >= 22
    ensures Load(p, 20, 2).value % 0x2000 == 0 <==> p[20] % 32 == 0 && p[21] == 0
  {
    LoadBytes(p, 20);
    var high: nat, low: nat := p[20], p[21];
    assert Half(high, low) == 0x2000 * (high / 32) + (0x100 * (high % 32) + low);
    Divides(Half(high, low), 0x2000, high / 32, 0x100 * (high % 32) + low);
  }

  lemma Port4Bytes(a: Byte, b: Byte, direction: Option<Direction>, p: Packet)
    ensures EvalPort4(Half(a, b), direction, p) == True <==> PortOver4(p, a, b, direction)
  {
    LoadBytes(p, 23);
    if |p| > 23 {
      FirstFragmentBytes(p);
      PickBytes(p, HeaderBytes(p) + 14, a, b, direction);
    }
  }

  /** `port`: IPv6 frames by the one, and every other frame that has an EtherType by the other. */
  predicate PortIn(p: Packet, a: Byte, b: Byte, direction: Option<Direction>) {
    |p| >= 14 && if p[12] == 0x86 && p[13] == 0xDD then PortOver6(p, a, b, direction) else PortOver4(p, a, b, direction)
  }

  lemma PortBytes(a: Byte, b: Byte, direction: Option<Direction>, p: Packet)
    ensures Eval(Port(Half(a, b), direction), p) == True <==> PortIn(p, a, b, direction)
  {
    TypeBytes(p);
    Port6Bytes(a, b, direction, p);
    Port4Bytes(a, b, direction, p);
  }
}
