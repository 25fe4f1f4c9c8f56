/**
 Datagrams over a stream (internal/agent/outbound_relay.go): a big-endian length
 before each datagram, and a reader that remembers a length it has already taken
 off the stream.
 */
module RelayFraming {
  import opened UdpGateway

  /** One datagram on the wire; an empty or oversized one is refused. */
  function Encode(d: seq<byte>): seq<byte>
    requires 0 < |d| <= MAX_FRAME
  {
    BigEndian(|d|) + d
  }

  ghost predicate Sendable(ds: seq<seq<byte>>) {
    forall i :: 0 <= i < |ds| ==> 0 < |ds[i]| <= MAX_FRAME
  }

  function EncodeAll(ds: seq<seq<byte>>): seq<byte>
    requires forall i :: 0 <= i < |ds| ==> 0 < |ds[i]| <= MAX_FRAME
  {
    if ds == [] then [] else Encode(ds[0]) + EncodeAll(ds[1..])
  }

  /** The complete datagrams of a stream. */
  function Parse(stream: seq<byte>): seq<seq<byte>>
    decreases |stream|
  {
    if |stream| < 2 then []
    else
      var size: int := Join(stream[1], stream[0]);
      if |stream| < 2 + size then [] else [stream[2..2 + size]] + Parse(stream[2 + size..])
  }

  /** The length goes first, its high byte before its low byte, and then the datagram. */
  lemma EncodedBytes(d: seq<byte>)
    requires 0 < |d| <= MAX_FRAME
    ensures |Encode(d)| == 2 + |d| && Encode(d)[0] == |d| / 256 && Encode(d)[1] == |d| % 256 && Encode(d)[2..] == d
  {
  }

  lemma FirstParses(d: seq<byte>, rest: seq<byte>)
    requires 0 < |d| <= MAX_FRAME
    ensures Parse(Encode(d) + rest) == [d] + Parse(rest)
  {
    var stream := BigEndian(|d|) + d + rest;
    assert stream[2..2 + |d|] == d && stream[2 + |d|..] == rest;
  }

  lemma {:induction false} EncodingsParse(ds: seq<seq<byte>>)
    requires Sendable(ds)
    ensures Parse(EncodeAll(ds)) == ds
  {
    if ds != [] {
      EncodingsParse(ds[1..]);
      FirstParses(ds[0], EncodeAll(ds[1..]));
    }
  }

  lemma {:induction false} EncodeAllAppends(ds: seq<seq<byte>>, d: seq<byte>)
    requires Sendable(ds) && 0 < |d| <= MAX_FRAME
    ensures Sendable(ds + [d]) && EncodeAll(ds + [d]) == EncodeAll(ds) + Encode(d)
  {
    if ds == [] {
      assert [] + [d] == [d];
    } else {
      EncodeAllAppends(ds[1..], d);
      assert (ds + [d])[1..] == ds[1..] + [d];
    }
  }

  lemma CutFrameIsNothing(d: seq<byte>, n: nat)
    requires 0 < |d| <= MAX_FRAME && n < 2 + |d|
    ensures Parse(Encode(d)[..n]) == []
  {
    var stream := Encode(d)[..n];
    assert |stream| >= 2 ==> stream[0] == BigEndian(|d|)[0] && stream[1] == BigEndian(|d|)[1];
  }

  /** A frame cut short parses as nothing; a whole one as its datagram. */
  lemma {:induction false} CutFrameParses(ds: seq<seq<byte>>, d: seq<byte>, n: nat)
    requires Sendable(ds) && 0 < |d| <= MAX_FRAME && n <= 2 + |d|
    ensures Parse(EncodeAll(ds) + Encode(d)[..n]) == if n == 2 + |d| then ds + [d] else ds
  {
    hide Parse, Encode;
    if n == 2 + |d| {
      EncodeAllAppends(ds, d);
      EncodingsParse(ds + [d]);
      assert Encode(d)[..n] == Encode(d) by { FrameSize(d); }
    } else if ds == [] {
      FrameSize(d);
      assert EncodeAll(ds) + Encode(d)[..n] == Encode(d)[..n];
      CutFrameIsNothing(d, n);
    } else {
      FrameSize(d);
      CutFrameParses(ds[1..], d, n);
      FirstParses(ds[0], EncodeAll(ds[1..]) + Encode(d)[..n]);
      assert EncodeAll(ds) + Encode(d)[..n] == Encode(ds[0]) + (EncodeAll(ds[1..]) + Encode(d)[..n]);
    }
  }

  lemma FrameSize(d: seq<byte>)
    requires 0 < |d| <= MAX_FRAME
    ensures |Encode(d)| == 2 + |d|
  {
  }

  /** The datagrams still to come once `remaining` has been taken off the stream. */
  function Rest(remaining: nat, stream: seq<byte>): seq<seq<byte>> {
    if remaining == 0 then Parse(stream)
    else if |stream| < remaining then []
    else [stream[..remaining]] + Parse(stream[remaining..])
  }

  /** Taking a length off the stream changes nothing about what is to come. */
  lemma LengthTaken(stream: seq<byte>)
    requires |stream| >= 2
    ensures var size: int := Join(stream[1], stream[0]);
            Parse(stream) == if size == 0 then [[]] + Parse(stream[2..]) else Rest(size, stream[2..])
  {
    var size: int := Join(stream[1], stream[0]);
    if |stream| >= 2 + size {
      assert stream[2..][..size] == stream[2..2 + size] && stream[2..][size..] == stream[2 + size..];
    }
  }

  datatype Received = Datagram(data: seq<byte>) | TooSmall | Broken

  class FramedReader {
    var stream: seq<byte>   // what the peer sent and has not been taken yet
    var remaining: nat      // length already taken off the stream, 0 if none

    /** The datagrams still to come, in order. */
    ghost function Waiting(): seq<seq<byte>>
      reads this
    {
      Rest(remaining, stream)
    }

    constructor (stream: seq<byte>)
      ensures Waiting() == Parse(stream)
    {
      this.stream, remaining := stream, 0;
    }

    /** Hands out the next datagram whole, or leaves it in place if the buffer is too small. */
    method Read(capacity: nat) returns (r: Received)
      modifies this
      ensures r.Datagram? ==> old(Waiting()) == [r.data] + Waiting()
      ensures r.TooSmall? ==> Waiting() == old(Waiting()) && (Waiting() != [] ==> |Waiting()[0]| > capacity)
      ensures r.Broken? ==> old(Waiting()) == Waiting() == []
    {
      if remaining == 0 {
        if |stream| < 2 {
          stream := [];
          return Broken;
        }
        var size: int := Join(stream[1], stream[0]);
        LengthTaken(stream);
        remaining, stream := size, stream[2..];
        if remaining == 0 {
          return Datagram([]);
        }
      }
      if capacity < remaining {
        return TooSmall;
      }
      if |stream| < remaining {
        stream, remaining := [], 0;
        return Broken;
      }
      r := Datagram(stream[..remaining]);
      stream, remaining := stream[remaining..], 0;
    }

    /** Whatever buffers are offered, the datagrams come out in order, none lost, none split. */
    method ReadMany(capacities: seq<nat>) returns (got: seq<seq<byte>>)
      modifies this
      ensures got + Waiting() == old(Waiting())
    {
      hide Rest;
      got := [];
      for i := 0 to |capacities|
        invariant got + Waiting() == old(Waiting())
      {
        var r := Read(capacities[i]);
        match r {
          case Datagram(data) => got := got + [data];
          case TooSmall =>
          case Broken => return;
        }
      }
    }
  }

  /** The sending side; a failed write leaves a prefix of the frame on the stream. */
  method WriteDatagram(sink: Sink, d: seq<byte>) returns (ok: bool)
    modifies sink
    ensures ok <==> 0 < |d| <= MAX_FRAME && sink.refusals == old(sink.refusals)
    ensures ok ==> sink.taken == old(sink.taken) + Encode(d)
    ensures |d| == 0 || |d| > MAX_FRAME ==> !ok && sink.taken == old(sink.taken)
    ensures 0 < |d| <= MAX_FRAME ==> exists n :: 0 <= n <= 2 + |d| && sink.taken == old(sink.taken) + Encode(d)[..n]
  {
    if |d| == 0 || |d| > MAX_FRAME {
      return false;
    }
    ok := sink.WriteAll(BigEndian(|d|));
    if !ok {
      ghost var n :| 0 <= n <= 2 && sink.taken == old(sink.taken) + BigEndian(|d|)[..n];
      assert BigEndian(|d|)[..n] == Encode(d)[..n];
      return;
    }
    ghost var before := sink.taken;
    ok := sink.WriteAll(d);
    ghost var n :| 0 <= n <= |d| && sink.taken == before + d[..n];
    assert sink.taken == old(sink.taken) + Encode(d)[..2 + n];
  }

  /**
   Everything written without error comes back with its boundaries. After a
   refused write the reader finds the same, or one datagram more if all of it
   had gone out.
   */
  method WriteMany(sink: Sink, ds: seq<seq<byte>>) returns (sent: seq<seq<byte>>, ok: bool)
    requires sink.taken == []
    modifies sink
    ensures ok ==> Parse(sink.taken) == sent
    ensures !ok ==> exists i :: && 0 <= i < |ds| && (Parse(sink.taken) == sent || Parse(sink.taken) == sent + [ds[i]])
                                && (Sendable(ds) ==> sent == ds[..i])
    ensures ok && Sendable(ds) ==> sent == ds
  {
    sent, ok := [], true;
    for i := 0 to |ds|
      invariant Sendable(sent) && sink.taken == EncodeAll(sent) && (Sendable(ds) ==> sent == ds[..i])
    {
      if 0 < |ds[i]| <= MAX_FRAME {
        ghost var before := sink.taken;
        ok := WriteDatagram(sink, ds[i]);
        if !ok {
          ghost var n :| 0 <= n <= 2 + |ds[i]| && sink.taken == before + Encode(ds[i])[..n];
          CutFrameParses(sent, ds[i], n);
          return;
        }
        EncodeAllAppends(sent, ds[i]);
        sent := sent + [ds[i]];
      }
    }
    EncodingsParse(sent);
  }
}
