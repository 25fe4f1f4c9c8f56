/**
 The BadVPN udpgw frame format of internal/agent/ssh_udpgw.go. Sizes and
 connection numbers are little endian, ports are big endian; bytes are numbers
 below 256 and a flag is a digit of the flags byte.
 */
module UdpGateway {
  import opened Wrappers

  type byte = x: int | 0 <= x < 256
  type uint16 = x: int | 0 <= x < 0x1_0000

  const MAX_FRAME: nat := 65535

  datatype Address = V4(bytes: seq<byte>) | V6(bytes: seq<byte>)

  predicate WellSized(a: Address) {
    if a.V4? then |a.bytes| == 4 else |a.bytes| == 16
  }

  /** No address at all is the zero AddrPort. */
  datatype Destination = Invalid | Destination(address: Address, port: uint16)

  datatype Frame = Frame(flags: byte, connection: uint16, destination: Destination, payload: seq<byte>)

  datatype Reading = Framed(frame: Frame, rest: seq<byte>) | Short | Malformed

  // Flag bits 0 and 3
  predicate IsKeepalive(flags: byte) {
    flags % 2 == 1
  }

  predicate IsIPv6(flags: byte) {
    flags / 8 % 2 == 1
  }

  function WithIPv6(flags: byte, on: bool): byte {
    if IsIPv6(flags) == on then flags else if on then flags + 8 else flags - 8
  }

  predicate IsMapped(a: Address) {
    a.V6? && |a.bytes| == 16 && a.bytes[..12] == [0, 0, 0, 0, 0, 0, 0, 0, 0, 0, 255, 255]
  }

  /** Addr.Unmap: an IPv4 address carried inside IPv6 is IPv4. */
  function Unmap(a: Address): Address {
    if IsMapped(a) then V4(a.bytes[12..]) else a
  }

  function LittleEndian(n: uint16): seq<byte> {
    [n % 256, n / 256]
  }

  function BigEndian(n: uint16): seq<byte> {
    [n / 256, n % 256]
  }

  function Join(low: byte, high: byte): uint16 {
    low as int + 256 * (high as int)
  }

  /** readBadVPNFrame on a stream that holds `stream` and then ends. */
  function ReadFrame(stream: seq<byte>): Reading {
    if |stream| < 2 then Short
    else
      var size: int := Join(stream[0], stream[1]);
      if size < 3 || size > MAX_FRAME then Malformed
      else if |stream| < 2 + size then Short
      else ReadPacket(stream[2..2 + size], stream[2 + size..])
  }

  function ReadPacket(packet: seq<byte>, rest: seq<byte>): Reading
    requires |packet| >= 3
  {
    var flags, connection := packet[0], Join(packet[1], packet[2]);
    if IsKeepalive(flags) then Framed(Frame(flags, connection, Invalid, []), rest)
    else
      var n := if IsIPv6(flags) then 16 else 4;
      if |packet| < 3 + n + 2 then Malformed
      else
        var address := if n == 4 then V4(packet[3..7]) else V6(packet[3..19]);
        var port := Join(packet[4 + n], packet[3 + n]);
        if port == 0 then Malformed
        else Framed(Frame(flags, connection, Destination(Unmap(address), port), packet[5 + n..]), rest)
  }

  /** marshalBadVPNFrame. */
  function Marshal(f: Frame): Option<seq<byte>> {
    if f.destination.Invalid? || f.destination.port == 0 then None
    else
      var address := Unmap(f.destination.address);
      var size := 3 + |address.bytes| + 2 + |f.payload|;
      if size > MAX_FRAME then None
      else Some(LittleEndian(size) + [WithIPv6(f.flags, address.V6?)] + LittleEndian(f.connection)
                + address.bytes + BigEndian(f.destination.port) + f.payload)
  }

  predicate WellFormed(f: Frame) {
    f.destination.Destination? ==> WellSized(f.destination.address)
  }

  /** What the far side sees: the address unmapped, the IPv6 flag to match. */
  function Normal(f: Frame): Frame
    requires f.destination.Destination?
  {
    var address := Unmap(f.destination.address);
    f.(flags := WithIPv6(f.flags, address.V6?), destination := f.destination.(address := address))
  }

  lemma FlagsAreIndependent(flags: byte, on: bool)
    ensures IsIPv6(WithIPv6(flags, on)) == on && IsKeepalive(WithIPv6(flags, on)) == IsKeepalive(flags)
  {
  }

  /** Reading undoes marshalling, whatever follows on the stream. */
  lemma MarshalThenRead(f: Frame, rest: seq<byte>)
    requires WellFormed(f) && Marshal(f).Some? && !IsKeepalive(f.flags)
    ensures |Marshal(f).value| > 0 && ReadFrame(Marshal(f).value + rest) == Framed(Normal(f), rest)
  {
    var g := Normal(f);
    var a, n := g.destination.address, |g.destination.address.bytes|;
    var packet := [g.flags] + LittleEndian(f.connection) + a.bytes + BigEndian(f.destination.port) + f.payload;
    var size := |packet|;
    var stream := Marshal(f).value + rest;
    FlagsAreIndependent(f.flags, a.V6?);
    assert stream == LittleEndian(size) + packet + rest;
    assert stream[2..2 + size] == packet && stream[2 + size..] == rest;
    PacketReadsBack(g, packet, rest);
  }

  /**
   A frame byte by byte: its size and connection number low byte first, the flags
   with only the IPv6 digit replaced, the address, the port high byte first, and
   the payload. It exists exactly if there is a destination with a port and it
   fits the size.
   */
  lemma FrameBytes(f: Frame)
    requires WellFormed(f)
    ensures Marshal(f).Some? <==>
              && f.destination.Destination? && f.destination.port != 0
              && |Unmap(f.destination.address).bytes| + |f.payload| <= 65530
    ensures Marshal(f).Some? ==>
              var p, address := Marshal(f).value, Unmap(f.destination.address);
              var n, size := |address.bytes|, |p| - 2;
              && n == (if address.V6? then 16 else 4) && |p| == 7 + n + |f.payload|
              && p[0] == size % 256 && p[1] == size / 256
              && p[2] == f.flags - 8 * (f.flags / 8 % 2) + (if address.V6? then 8 else 0)
              && p[3] == f.connection % 256 && p[4] == f.connection / 256
              && p[5..5 + n] == address.bytes
              && p[5 + n] == f.destination.port / 256 && p[6 + n] == f.destination.port % 256
              && p[7 + n..] == f.payload
  {
    hide Unmap;
    if f.destination.Destination? {
      UnmapKinds(f.destination.address);
      if Marshal(f).Some? {
        var p, address := Marshal(f).value, Unmap(f.destination.address);
        var n := |address.bytes|;
        assert p[5..5 + n] == address.bytes && p[7 + n..] == f.payload;
      }
    }
  }

  /**
   What a stream holds: nothing whole while its two size bytes or the bytes they
   announce are missing, a malformed frame if the size is below three, and
   otherwise a packet of that size.
   */
  lemma ReadOutcome(stream: seq<byte>)
    ensures |stream| < 2 ==> ReadFrame(stream).Short?
    ensures |stream| >= 2 ==>
              var size: int := stream[0] as int + 256 * (stream[1] as int);
              if size < 3 then ReadFrame(stream).Malformed?
              else if |stream| < 2 + size then ReadFrame(stream).Short?
              else ReadFrame(stream) == ReadPacket(stream[2..2 + size], stream[2 + size..])
  {
    hide ReadPacket;
  }

  /**
   A packet byte by byte. It is malformed if address and port do not fit or the
   port is zero; a keepalive needs neither, and whatever it carries is ignored.
   */
  lemma PacketOutcome(packet: seq<byte>, rest: seq<byte>)
    requires |packet| >= 3
    ensures var r, n := ReadPacket(packet, rest), if packet[0] / 8 % 2 == 1 then 16 else 4;
            if packet[0] % 2 == 0 && (|packet| < 5 + n || (packet[3 + n] == 0 && packet[4 + n] == 0)) then
              r.Malformed?
            else
              && r.Framed? && r.rest == rest && r.frame.flags == packet[0]
              && r.frame.connection == packet[1] as int + 256 * (packet[2] as int)
              && if packet[0] % 2 == 1 then r.frame.destination.Invalid? && r.frame.payload == []
                 else
                   && r.frame.destination.Destination? && r.frame.payload == packet[5 + n..]
                   && r.frame.destination.port == 256 * (packet[3 + n] as int) + packet[4 + n] as int
                   && r.frame.destination.address == Unmap(if n == 4 then V4(packet[3..7]) else V6(packet[3..19]))
  {
    hide Unmap;
  }

  lemma PacketReadsBack(g: Frame, packet: seq<byte>, rest: seq<byte>)
    requires g.destination.Destination? && WellSized(g.destination.address) && g.destination.port != 0
    requires !IsMapped(g.destination.address) && IsIPv6(g.flags) == g.destination.address.V6? && !IsKeepalive(g.flags)
    requires packet == [g.flags] + LittleEndian(g.connection) + g.destination.address.bytes
                       + BigEndian(g.destination.port) + g.payload
    ensures ReadPacket(packet, rest) == Framed(g, rest)
  {
    var a := g.destination.address;
    var n := |a.bytes|;
    assert packet[3..3 + n] == a.bytes;
    assert packet[5 + n..] == g.payload;
    assert packet[3 + n] == g.destination.port / 256 && packet[4 + n] == g.destination.port % 256;
    assert packet[1] == g.connection % 256 && packet[2] == g.connection / 256;
  }

  // ---------------------------------------------------------------------------
  // Whole streams
  // ---------------------------------------------------------------------------

  ghost predicate Sendable(frames: seq<Frame>) {
    forall i :: 0 <= i < |frames| ==> WellFormed(frames[i]) && Marshal(frames[i]).Some? && !IsKeepalive(frames[i].flags)
  }

  function MarshalAll(frames: seq<Frame>): seq<byte>
    requires forall i :: 0 <= i < |frames| ==> Marshal(frames[i]).Some?
  {
    if frames == [] then [] else Marshal(frames[0]).value + MarshalAll(frames[1..])
  }

  /** All frames up to the first one that is missing or malformed. */
  function ReadAll(stream: seq<byte>): seq<Frame>
    decreases |stream|
  {
    var r := ReadFrame(stream);
    if r.Framed? && |r.rest| < |stream| then [r.frame] + ReadAll(r.rest) else []
  }

  lemma {:induction false} StreamRoundTrip(frames: seq<Frame>)
    requires Sendable(frames)
    ensures ReadAll(MarshalAll(frames)) == seq(|frames|, i requires 0 <= i < |frames| => Normal(frames[i]))
  {
    hide ReadFrame, Marshal, Normal;
    if frames != [] {
      StreamRoundTrip(frames[1..]);
      MarshalThenRead(frames[0], MarshalAll(frames[1..]));
    }
  }

  /** A packet that was read, with its address as it came on the wire. */
  lemma PacketTakenApart(packet: seq<byte>, rest: seq<byte>) returns (wire: Address)
    requires |packet| >= 3 && ReadPacket(packet, rest).Framed? && !IsKeepalive(packet[0])
    ensures var f := ReadPacket(packet, rest).frame;
            && f.destination.Destination? && f.flags == packet[0] && f.destination.port != 0
            && wire.V6? == IsIPv6(f.flags) && WellSized(wire) && f.destination.address == Unmap(wire)
            && packet == [f.flags] + LittleEndian(f.connection) + wire.bytes + BigEndian(f.destination.port) + f.payload
            && ReadPacket(packet, rest).rest == rest
  {
    var f := ReadPacket(packet, rest).frame;
    var n := if IsIPv6(packet[0]) then 16 else 4;
    wire := if n == 4 then V4(packet[3..7]) else V6(packet[3..19]);
    assert LittleEndian(f.connection) == [packet[1], packet[2]];
    assert BigEndian(f.destination.port) == [packet[3 + n], packet[4 + n]];
    assert packet == packet[..3] + packet[3..3 + n] + packet[3 + n..5 + n] + packet[5 + n..];
  }

  /**
   Marshalling what was read gives back the very bytes, exactly if the frame did
   not carry an IPv4 address in IPv6 form.
   */
  lemma ReadThenMarshalIff(stream: seq<byte>)
    requires ReadFrame(stream).Framed? && !IsKeepalive(ReadFrame(stream).frame.flags)
    ensures var r := ReadFrame(stream);
            && |r.rest| <= |stream| && Marshal(r.frame).Some?
            && (Marshal(r.frame).value + r.rest == stream <==> IsIPv6(r.frame.flags) == r.frame.destination.address.V6?)
  {
    hide ReadPacket, IsIPv6, IsMapped;
    var size: int := Join(stream[0], stream[1]);
    var packet, rest := stream[2..2 + size], stream[2 + size..];
    assert packet[0] == ReadFrame(stream).frame.flags by { FlagsAreFirst(packet, rest); }
    var wire := PacketTakenApart(packet, rest);
    var f := ReadFrame(stream).frame;
    FlagsAreIndependent(f.flags, f.destination.address.V6?);
    assert LittleEndian(size) == [stream[0], stream[1]];
    assert stream == LittleEndian(size) + packet + rest;
    UnmapKinds(wire);
    if f.destination.address.V6? == wire.V6? {
      assert Marshal(f).value == LittleEndian(size) + packet;
    } else {
      assert |Marshal(f).value + rest| != |stream|;
    }
  }

  lemma FlagsAreFirst(packet: seq<byte>, rest: seq<byte>)
    requires |packet| >= 3 && ReadPacket(packet, rest).Framed?
    ensures ReadPacket(packet, rest).frame.flags == packet[0] && ReadPacket(packet, rest).rest == rest
  {
  }

  lemma UnmapKinds(a: Address)
    requires WellSized(a)
    ensures WellSized(Unmap(a)) && (Unmap(a).V6? == a.V6? <==> Unmap(a) == a)
    ensures !IsMapped(Unmap(a))
  {
  }

  /** The encoder as written: a buffer filled by offset. */
  method MarshalFrame(f: Frame) returns (packet: array?<byte>)
    requires WellFormed(f)
    ensures packet == null <==> Marshal(f).None?
    ensures packet != null ==> fresh(packet) && packet[..] == Marshal(f).value
  {
    hide Unmap, WithIPv6;
    if f.destination.Invalid? || f.destination.port == 0 {
      return null;
    }
    var address := Unmap(f.destination.address);
    UnmapKinds(f.destination.address);
    var n, flags := 4, WithIPv6(f.flags, false);
    if address.V6? {
      n, flags := 16, WithIPv6(f.flags, true);
    }
    var size := 3 + n + 2 + |f.payload|;
    if size > MAX_FRAME {
      return null;
    }
    packet := new byte[2 + size](_ => 0);
    Put(packet, 0, LittleEndian(size));
    Put(packet, 2, [flags]);
    Put(packet, 3, LittleEndian(f.connection));
    Put(packet, 5, address.bytes);
    Put(packet, 5 + n, BigEndian(f.destination.port));
    Put(packet, 7 + n, f.payload);
    assert packet[..] == packet[..2 + size];
  }

  /** copy(packet[offset:], bytes), seen from the left end of the buffer. */
  method Put(packet: array<byte>, offset: nat, bytes: seq<byte>)
    requires offset + |bytes| <= packet.Length
    modifies packet
    ensures packet[..offset + |bytes|] == old(packet[..offset]) + bytes
  {
    for i := 0 to |bytes|
      invariant packet[..offset] == old(packet[..offset])
      invariant packet[offset..offset + i] == bytes[..i]
    {
      packet[offset + i] := bytes[i];
    }
    assert packet[..offset + |bytes|] == packet[..offset] + packet[offset..offset + |bytes|];
  }

  /** A stream that may take only part of what it is given, or fail. */
  class Sink {
    var taken: seq<byte>
    ghost var refusals: nat   // writes that failed or took nothing

    constructor ()
      ensures taken == []
    {
      taken, refusals := [], 0;
    }

    method Write(data: seq<byte>) returns (written: int, failed: bool)
      modifies this
      ensures 0 <= written <= |data| && taken == old(taken) + data[..written]
      ensures refusals == old(refusals) + if failed || written == 0 then 1 else 0
    {
      written, failed := *, *;
      if written < 0 || written > |data| {
        written := 0;
      }
      taken := taken + data[..written];
      if failed || written == 0 {
        refusals := refusals + 1;
      }
    }

    /** writeAll: all of the data in order, or an error after a prefix of it. */
    method WriteAll(data: seq<byte>) returns (ok: bool)
      modifies this
      ensures ok <==> refusals == old(refusals)
      ensures ok ==> taken == old(taken) + data
      ensures exists n :: 0 <= n <= |data| && taken == old(taken) + data[..n]
    {
      var rest := data;
      while |rest| > 0
        invariant |rest| <= |data| && rest == data[|data| - |rest|..]
        invariant taken == old(taken) + data[..|data| - |rest|] && refusals == old(refusals)
        decreases |rest|
      {
        var written, failed := Write(rest);
        ghost var n := |data| - |rest| + written;
        assert taken == old(taken) + data[..n];
        if failed {
          return false;
        }
        if written <= 0 {
          return false;
        }
        rest := rest[written..];
      }
      assert data[..|data|] == data;
      return true;
    }
  }
}
