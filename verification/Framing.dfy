/** Whole packet sequences through the buffers. */
module Framing {
  import opened Packets
  import opened Lines
  import opened Streams

  function PacketsOf(marks: seq<Mark>): seq<Packet>
  {
    seq(|marks|, i requires 0 <= i < |marks| => marks[i].p)
  }

  /** A run of `cse_write_packet`. */
  method PutPackets(s: Stream, ps: seq<Packet>)
    requires s.Valid()
    modifies s`socket, s`writeLength, s`marks, s.wire`sent, s.wire`calls, s.writeBuf
    ensures s.Sent(PackedAll(s.wire.system, old(s.Value()), ps))
    ensures s.socket >= 0 ==> s.Output() == old(s.Output()) + WrittenAll(ps)
    ensures |s.marks| == |old(s.marks)| + |ps| && old(s.marks) <= s.marks
    ensures PacketsOf(s.marks[|old(s.marks)|..]) == ps
  {
    hide Stream.Output, Stream.Buffered, Written, Packed, Fits;
    for i := 0 to |ps|
      invariant s.Valid() && s.Sent(PackedAll(s.wire.system, old(s.Value()), ps[..i]))
      invariant s.socket >= 0 ==> s.Output() == old(s.Output()) + WrittenAll(ps[..i])
      invariant |s.marks| == |old(s.marks)| + i && old(s.marks) <= s.marks
      invariant forall j :: 0 <= j < i ==> s.marks[|old(s.marks)| + j].p == ps[j]
    {
      s.WritePacket(ps[i]);
      assert ps[..i + 1][..i] == ps[..i];
    }
    assert ps[..|ps|] == ps;
  }

  method WritePackets(s: Stream, ps: seq<Packet>) returns (ok: bool)
    requires s.Valid()
    modifies s`socket, s`writeLength, s`marks, s.wire`sent, s.wire`calls, s.writeBuf
    ensures s.Valid() && old(s.wire.calls) <= s.wire.calls
    ensures ok ==> s.wire.sent == old(s.Output()) + WrittenAll(ps) && s.writeLength == 0
    ensures old(s.socket) >= 0 && Quiet(s.wire.system, old(s.wire.calls), s.wire.calls) ==> ok
  {
    PackedAllFacts(s.wire.system, s.Value(), ps);
    PutPackets(s, ps);
    if s.socket < 0 {
      return false;
    }
    var r := s.Flush();
    ok := r == 0;
  }

  /** One frame, read the way `send_data` reads frames it does not know. */
  method ReadPacket(s: Stream) returns (ok: bool, p: Packet)
    requires s.Valid() && s.writeLength == 0
    modifies s`socket, s`writeLength, s`readOffset, s`readLength, s`waits, s.wire, s.readBuf
    ensures s.Valid() && s.writeLength == 0 && old(s.wire.calls) <= s.wire.calls
    ensures ok == (s.socket >= 0) && (ok ==> s.socket == old(s.socket))
    ensures ok ==> |p.payload| < MAX_LENGTH && Unread(old(s.Value())) == Encode(p) + Unread(s.Value())
    ensures old(s.socket) >= 0 && Quiet(s.wire.system, old(s.wire.calls), s.wire.calls) && !ok ==>
              EndsEarly(Unread(old(s.Value())))
  {
    hide Stream.Output, Stream.Buffered, Length, Packets.Head, Lines.ReadHead, Take, Unread, Fits;
    ghost var y, l := s.wire.system, s.Value();
    ghost var u := Unread(l);
    var code, l3, len := s.ReadHead();
    ghost var h := Lines.ReadHead(y, l);
    HeadFacts(y, l);
    TakeFacts(y, h.l, len);
    var n, data := s.ReadAll(len);
    p := Packet(if code >= 0 then code else 0, data);
    ok := s.socket >= 0;
    if h.whole && |data| == len {
      HeadOfLength(u[0], u[1], u[2], u[3]);
      assert u == u[..4] + Unread(h.l);
      ghost var head := Packets.Head(u[0], len);
      assert head + (data + Unread(s.Value())) == (head + data) + Unread(s.Value());
    } else if h.whole {
      assert |u[4..]| == |u| - 4;
    }
  }

  lemma PacketIsThere(q: Packet, left: seq<byte>)
    requires |q.payload| < MAX_LENGTH
    ensures !EndsEarly(Encode(q) + left)
  {
    hide Length;
    LengthOfHead(q.code, |q.payload|);
    assert (Encode(q) + left)[..4] == Packets.Head(q.code, |q.payload|);
  }

  /** n frames, when the peer's bytes begin with the encoding of n packets. */
  method ReadPackets(s: Stream, n: nat, ghost ps: seq<Packet>, ghost rest: seq<byte>)
    returns (ok: bool, received: seq<Packet>)
    requires s.Valid() && s.writeLength == 0
    requires |ps| == n && AllFit(ps) && Unread(s.Value()) == EncodeAll(ps) + rest
    modifies s`socket, s`writeLength, s`readOffset, s`readLength, s`waits, s.wire, s.readBuf
    ensures old(s.wire.calls) <= s.wire.calls
    ensures ok ==> received == ps && s.Valid() && Unread(s.Value()) == rest
    ensures old(s.socket) >= 0 && Quiet(s.wire.system, old(s.wire.calls), s.wire.calls) ==> ok
  {
    hide Stream.Output, Stream.Buffered, Encode, Unread;
    received := [];
    assert ps[0..] == ps;
    while |received| < n
      invariant s.Valid() && s.writeLength == 0 && old(s.wire.calls) <= s.wire.calls && s.socket == old(s.socket)
      invariant |received| <= n && received == ps[..|received|]
      invariant Unread(s.Value()) == EncodeAll(ps[|received|..]) + rest
    {
      ghost var k := |received|;
      FirstPacket(ps, k, rest);
      PacketIsThere(ps[k], EncodeAll(ps[k + 1..]) + rest);
      var p;
      ok, p := ReadPacket(s);
      if !ok {
        return;
      }
      NextPacket(ps, k, rest, p, Unread(s.Value()));
      received := received + [p];
    }
    ok := true;
    assert ps[n..] == [];
    assert EncodeAll([]) + rest == rest;
  }

  lemma FirstPacket(ps: seq<Packet>, k: nat, rest: seq<byte>)
    requires k < |ps|
    ensures EncodeAll(ps[k..]) + rest == Encode(ps[k]) + (EncodeAll(ps[k + 1..]) + rest)
  {
    hide Encode;
    assert ps[k..][0] == ps[k] && ps[k..][1..] == ps[k + 1..];
  }

  lemma NextPacket(ps: seq<Packet>, k: nat, rest: seq<byte>, p: Packet, left: seq<byte>)
    requires k < |ps| && AllFit(ps) && |p.payload| < MAX_LENGTH
    requires EncodeAll(ps[k..]) + rest == Encode(p) + left
    ensures p == ps[k] && left == EncodeAll(ps[k + 1..]) + rest
  {
    FirstPacket(ps, k, rest);
    EncodeInjective(p, left, ps[k], EncodeAll(ps[k + 1..]) + rest);
  }

  /**
   * The framing round trip: packets whose payloads fit, written through one stream's buffer and
   * read through another's, arrive as the same sequence, however the bytes are cut into pieces;
   * and they do arrive unless the system refuses a call.
   */
  method Transfer(ps: seq<Packet>, socket: nat, out: Wire, back: Wire) returns (ok: bool, received: seq<Packet>)
    requires AllFit(ps) && out != back && out.sent == []
    modifies out, back
    ensures ok ==> received == ps
    ensures Quiet(out.system, old(out.calls), out.calls) && Quiet(back.system, old(back.calls), back.calls) ==> ok
  {
    var writer := new Stream(socket, out);
    received := [];
    ok := WritePackets(writer, ps);
    if !ok {
      return;
    }
    WrittenIsEncoded(ps);
    back.incoming := out.sent;
    var reader := new Stream(socket, back);
    assert EncodeAll(ps) == EncodeAll(ps) + [] && [] + EncodeAll(ps) == EncodeAll(ps);
    ok, received := ReadPackets(reader, |ps|, ps, []);
  }
}
