/** `write_request` as it runs: the head, the body blocks in stop-and-wait, the end, the answer. */
module Upload {
  import opened Packets
  import opened Lines
  import opened Streams
  import opened Answers
  import opened Serving
  import opened Response
  import opened Framing
  import opened Exchanges
  import opened Failures
  import opened RequestFailures
  import opened Reuse

  /** One data packet. */
  method PutBlock(s: Stream, blocks: seq<seq<byte>>, i: nat, ghost base: seq<byte>)
    requires s.Valid() && i < |blocks|
    modifies s`socket, s`writeLength, s`marks, s.wire`sent, s.wire`calls, s.writeBuf
    ensures s.Sent(Packed(s.wire.system, old(s.Value()), |blocks[i]|))
    ensures s.marks == old(s.marks) + [Mark(Packet(DATA, blocks[i]), |Unread(old(s.Value()))|, old(s.socket) >= 0)]
    ensures s.socket >= 0 && old(s.Output()) == base + WrittenAll(DataPackets(blocks[..i])) ==>
              s.Output() == base + WrittenAll(DataPackets(blocks[..i + 1]))
  {
    s.WritePacket(Packet(DATA, blocks[i]));
    var ps := DataPackets(blocks[..i + 1]);
    assert ps[..i] == DataPackets(blocks[..i]);
  }

  /** One iteration of the loop over the body: the wait, except before the first block, and the block. */
  method NextBlock(s: Stream, c: Client, blocks: seq<seq<byte>>, i: nat, ghost base: seq<byte>) returns (stopped: bool)
    requires s.Valid() && i < |blocks|
    modifies s`socket, s`writeLength, s`readOffset, s`readLength, s`waits, s`marks, s.wire, s.readBuf, s.writeBuf, c
    ensures var a := Advanced(s.wire.system, c.declines, old(s.Value()), old(c.Value()), blocks, i);
      && s.Valid() && s.Value() == a.l && c.Value() == a.k && stopped == a.stopped
      && (s.socket == old(s.socket) || s.socket == -1)
      && s.marks == old(s.marks) + if stopped then [] else [Mark(Packet(DATA, blocks[i]), a.unread, a.open)]
    ensures s.socket >= 0 && old(s.Output()) == base + WrittenAll(DataPackets(blocks[..i])) ==>
              s.Output() == base + WrittenAll(DataPackets(blocks[..if stopped then i else i + 1]))
  {
    hide Stream.Output, Stream.Buffered, Written, WrittenAll, DataPackets, Packed, Serve, Served, Fits, Unread;
    if i > 0 {
      var code, keepalive := SendData(s, c, ACK);
      if code < 0 || code == END || code == CLOSE {
        return true;
      }
    }
    PutBlock(s, blocks, i, base);
    stopped := false;
  }

  /** The body of a request. */
  method SendBlocks(s: Stream, c: Client, blocks: seq<seq<byte>>) returns (n: nat)
    requires s.Valid()
    modifies s`socket, s`writeLength, s`readOffset, s`readLength, s`waits, s`marks, s.wire, s.readBuf, s.writeBuf, c
    ensures var r := Sending(s.wire.system, c.declines, old(s.Value()), old(c.Value()), blocks, 0);
      && s.Valid() && s.Value() == r.l && c.Value() == r.k && n == r.n && s.marks == old(s.marks) + r.marks
      && (s.socket == old(s.socket) || s.socket == -1)
    ensures s.socket >= 0 ==> s.Output() == old(s.Output()) + WrittenAll(DataPackets(blocks[..n]))
  {
    hide Stream.Output, Stream.Value, Written, WrittenAll, DataPackets, Advanced, Fits;
    ghost var base, whole := s.Output(), Sending(s.wire.system, c.declines, s.Value(), c.Value(), blocks, 0);
    NothingWritten(base);
    n := 0;
    while n < |blocks|
      invariant s.Valid() && 0 <= n <= |blocks|
      invariant s.socket == old(s.socket) || s.socket == -1
      invariant var r := Sending(s.wire.system, c.declines, s.Value(), c.Value(), blocks, n);
        whole.l == r.l && whole.k == r.k && whole.n == r.n && old(s.marks) + whole.marks == s.marks + r.marks
      invariant s.socket >= 0 ==> s.Output() == base + WrittenAll(DataPackets(blocks[..n]))
    {
      ghost var marks, r := s.marks, Sending(s.wire.system, c.declines, s.Value(), c.Value(), blocks, n);
      SendingStep(s.wire.system, c.declines, s.Value(), c.Value(), blocks, n, marks);
      var stopped := NextBlock(s, c, blocks, n, base);
      if stopped {
        return;
      }
      n := n + 1;
    }
    assert s.marks + [] == s.marks;
  }

  /** An upload, seen from its next iteration. */
  lemma SendingStep(y: System, d: Declines, l: Line, k: Sink, blocks: seq<seq<byte>>, i: nat, marks: seq<Mark>)
    requires i < |blocks|
    ensures var a, r := Advanced(y, d, l, k, blocks, i), Sending(y, d, l, k, blocks, i);
            if a.stopped then r.n == i && r.l == a.l && r.k == a.k && r.marks == [] && marks + r.marks == marks + []
            else
              var q := Sending(y, d, a.l, a.k, blocks, i + 1);
              && r.n == q.n && r.l == q.l && r.k == q.k
              && r.marks == [Mark(Packet(DATA, blocks[i]), a.unread, a.open)] + q.marks
              && marks + r.marks == (marks + [Mark(Packet(DATA, blocks[i]), a.unread, a.open)]) + q.marks
  {
    hide Advanced;
  }

  lemma NothingWritten(base: seq<byte>)
    ensures forall blocks: seq<seq<byte>> :: base + WrittenAll(DataPackets(blocks[..0])) == base
  {
  }

  /**
   * `write_request`, against any servlet runner and whatever fails. Written are the head, a prefix
   * of the body blocks in order and the end packet. It does what `Request` says, and `Promised`
   * is what that promises. With `due` the bytes not yet received when the end packet was written:
   * if any of them was received since, everything the plugin wrote has been sent. An end frame cut
   * short in the last wait makes the stream be used again in the middle of it.
   */
  method WriteRequest(s: Stream, c: Client, head: seq<Packet>, blocks: seq<seq<byte>>)
    returns (reuse: bool, n: nat, ghost due: seq<byte>)
    requires s.Valid()
    modifies s`socket, s`writeLength, s`readOffset, s`readLength, s`waits, s`marks, s.wire, s.readBuf, s.writeBuf, c
    ensures s.Valid() && (s.socket == old(s.socket) || s.socket == -1) && n <= |blocks|
    ensures var r := Request(s.wire.system, c.declines, old(s.Value()), old(c.Value()), head, blocks);
      && s.Value() == r.l && c.Value() == r.k && reuse == r.reuse && n == r.n
      && Promised(s.wire.system, c.declines, old(s.Value()), old(c.Value()), |blocks|, r)
      && |s.marks| == |old(s.marks)| + |head| + n + 1 && old(s.marks) <= s.marks
      && s.marks[|old(s.marks)| + |head|..|s.marks| - 1] == r.marks
    ensures PacketsOf(s.marks[|old(s.marks)|..]) == head + DataPackets(blocks[..n]) + [Packet(END, [])]
    ensures s.socket >= 0 ==>
              s.Output() == old(s.Output()) + WrittenAll(head + DataPackets(blocks[..n]) + [Packet(END, [])])
    ensures s.wire.incoming != due ==> s.wire.sent == s.Output()
    ensures var m := LastWait(s.wire.system, c.declines, old(s.Value()), old(c.Value()), head, blocks);
            CutShort(s.wire.system, m) ==> reuse && s.socket >= 0 && s.wire.incoming == m.incoming
  {
    hide CutShort;
    hide Stream.Value, Stream.Output, Written, WrittenAll, Packed, PackedAll, Sending, Serve, Promised, Fits,
         DataPackets, Carry, Unread;
    RequestFacts(s.wire.system, c.declines, s.Value(), c.Value(), head, blocks);
    ghost var m0 := s.marks;
    PutPackets(s, head);
    ghost var m1 := s.marks;
    SendingBlocks(s.wire.system, c.declines, s.Value(), c.Value(), blocks, 0);
    n := SendBlocks(s, c, blocks);
    ghost var m2 := s.marks;
    CarriedBlocks(m1, m2, blocks, n);
    reuse, due := Finish(s, c);
    Written3(m0, m1, m2, s.marks, head, blocks[..n]);
  }

  /** The end packet and its answer. */
  method Finish(s: Stream, c: Client) returns (reuse: bool, ghost due: seq<byte>)
    requires s.Valid()
    modifies s`socket, s`writeLength, s`readOffset, s`readLength, s`waits, s`marks, s.wire, s.readBuf, s.writeBuf, c
    ensures var w := Serve(s.wire.system, c.declines, Packed(s.wire.system, old(s.Value()), 0), old(c.Value()), END);
      s.Valid() && s.Value() == w.l && c.Value() == w.k && reuse == (w.code == END)
    ensures s.socket == old(s.socket) || s.socket == -1
    ensures |s.marks| == |old(s.marks)| + 1 && old(s.marks) <= s.marks && s.marks[|old(s.marks)|].p == Packet(END, [])
    ensures s.socket >= 0 ==> s.Output() == old(s.Output()) + Written(Packet(END, []))
    ensures s.wire.incoming != due ==> s.wire.sent == s.Output()
    ensures var m := Packed(s.wire.system, old(s.Value()), 0);
            CutShort(s.wire.system, m) ==> reuse && s.socket >= 0 && s.wire.incoming == m.incoming
  {
    hide Stream.Buffered, Written, Packed, Serve, Fits, Told, Completed, CutShort;
    s.WritePacket(Packet(END, []));
    due := s.wire.incoming;
    var code, keepalive := SendData(s, c, END);
    reuse := code == END;
  }

  lemma CarriedBlocks(m1: seq<Mark>, m2: seq<Mark>, blocks: seq<seq<byte>>, n: nat)
    requires m1 <= m2 && Carry(m2[|m1|..], blocks, 0) && |m2| == |m1| + n
    ensures n <= |blocks| && |blocks[..n]| == n
    ensures forall j :: 0 <= j < n ==> m2[|m1| + j].p == Packet(DATA, blocks[..n][j])
  {
    var marks := m2[|m1|..];
    forall j | 0 <= j < n ensures m2[|m1| + j].p == Packet(DATA, blocks[..n][j]) {
      assert marks[j] == m2[|m1| + j] && marks[j].p == Packet(DATA, blocks[0 + j]);
    }
  }

  /** The marks of some blocks, one after the other. */
  ghost predicate Carry(marks: seq<Mark>, blocks: seq<seq<byte>>, i: nat)
  {
    i + |marks| <= |blocks| && forall j :: 0 <= j < |marks| ==> marks[j].p == Packet(DATA, blocks[i + j])
  }

  /** The marks of an upload are those of its blocks. */
  lemma {:induction false} SendingBlocks(y: System, d: Declines, l: Line, k: Sink, blocks: seq<seq<byte>>, i: nat)
    requires i <= |blocks|
    ensures Carry(Sending(y, d, l, k, blocks, i).marks, blocks, i)
    decreases |blocks| - i
  {
    hide Advanced, Carry, Sending;
    if i == |blocks| {
      SendingDone(y, d, l, k, blocks);
    } else {
      var a := Advanced(y, d, l, k, blocks, i);
      SendingStep(y, d, l, k, blocks, i, []);
      SendingBlocks(y, d, a.l, a.k, blocks, i + 1);
      OneCarried(Mark(Packet(DATA, blocks[i]), a.unread, a.open), Sending(y, d, a.l, a.k, blocks, i + 1).marks,
                 blocks, i);
    }
  }

  lemma SendingDone(y: System, d: Declines, l: Line, k: Sink, blocks: seq<seq<byte>>)
    ensures Carry(Sending(y, d, l, k, blocks, |blocks|).marks, blocks, |blocks|)
  {
  }

  lemma OneCarried(mark: Mark, marks: seq<Mark>, blocks: seq<seq<byte>>, i: nat)
    requires i < |blocks| && mark.p == Packet(DATA, blocks[i])
    ensures Carry([], blocks, i)
    ensures Carry(marks, blocks, i + 1) ==> Carry([mark] + marks, blocks, i)
  {
    var all := [mark] + marks;
    if Carry(marks, blocks, i + 1) {
      forall j | 0 <= j < |all| ensures all[j].p == Packet(DATA, blocks[i + j]) {
        if j > 0 {
          assert all[j] == marks[j - 1] && marks[j - 1].p == Packet(DATA, blocks[i + 1 + (j - 1)]);
        }
      }
    }
  }

  /** The packets of the three parts of a request. */
  lemma Written3(m0: seq<Mark>, m1: seq<Mark>, m2: seq<Mark>, m3: seq<Mark>, head: seq<Packet>, blocks: seq<seq<byte>>)
    requires m0 <= m1 <= m2 <= m3 && |m1| == |m0| + |head| && |m2| == |m1| + |blocks| && |m3| == |m2| + 1
    requires PacketsOf(m1[|m0|..]) == head && m3[|m2|].p == Packet(END, [])
    requires forall j :: 0 <= j < |blocks| ==> m2[|m1| + j].p == Packet(DATA, blocks[j])
    ensures PacketsOf(m3[|m0|..]) == head + DataPackets(blocks) + [Packet(END, [])]
    ensures m3[|m1|..|m2|] == m2[|m1|..]
    ensures WrittenAll(head + DataPackets(blocks) + [Packet(END, [])])
         == WrittenAll(head) + WrittenAll(DataPackets(blocks)) + Written(Packet(END, []))
  {
    hide Written, WrittenAll;
    WrittenParts(head, DataPackets(blocks), Packet(END, []));
    var a, b, e := m1[|m0|..], m2[|m1|..], [m3[|m2|]];
    assert PacketsOf(b) == DataPackets(blocks);
    hide DataPackets;
    Parts(m0, m1, m2, m3);
    PacketsAppend(a + b, e);
    PacketsAppend(a, b);
    assert PacketsOf(e) == [Packet(END, [])];
  }

  lemma Parts<T>(m0: seq<T>, m1: seq<T>, m2: seq<T>, m3: seq<T>)
    requires m0 <= m1 <= m2 <= m3 && |m3| == |m2| + 1
    ensures m3[|m0|..] == m1[|m0|..] + m2[|m1|..] + [m3[|m2|]]
    ensures m3[|m1|..|m2|] == m2[|m1|..]
  {
    assert m3 == m2 + [m3[|m2|]];
    assert m2 == m1 + m2[|m1|..];
  }

  lemma PacketsAppend(a: seq<Mark>, b: seq<Mark>)
    ensures PacketsOf(a + b) == PacketsOf(a) + PacketsOf(b)
  {
  }

  lemma WrittenParts(a: seq<Packet>, b: seq<Packet>, p: Packet)
    ensures WrittenAll(a + b + [p]) == WrittenAll(a) + WrittenAll(b) + Written(p)
  {
    WrittenAppend(a + b, [p]);
    WrittenAppend(a, b);
    assert [p][..0] == [];
    assert WrittenAll([p]) == WrittenAll([]) + Written(p);
  }

  /** A request from a new stream that asks for reuse with three bytes of the last frame still to come. */
  method ReuseMidFrame() returns (s: Stream, c: Client, reuse: bool)
    ensures reuse && s.socket >= 0 && s.wire.incoming == [0, 0, 0]
    ensures Sticky(s.wire.system) && Exchange(HIDDEN_ENDS, 2).Finished? && Exchange(HIDDEN_ENDS, 2).rest == []
  {
    hide Exchange, Promised, Request, LastWait, Breaks, Sticky, CutShort, Fits, StopAndWait;
    var wire := new Wire(HIDDEN_ENDS, Breaks(0));
    s := new Stream(3, wire);
    c := new Client(TAKES_ALL);
    ReusedMidFrame(s.Value());
    assert Unread(s.Value()) == HIDDEN_ENDS;
    var n;
    ghost var due;
    reuse, n, due := WriteRequest(s, c, [], Bytes(2));
  }

  /** A line from the socket alone. */
  ghost function Bare(wire: Wire): Line
    reads wire`incoming, wire`calls
  {
    Line([], wire.incoming, 0, wire.calls, true)
  }

  /** A request with a stream of its own, as `cse_open` and `cse_reuse` set it up. */
  method ServeRequest(socket: nat, wire: Wire, ask: Ask) returns (again: bool, body: seq<byte>)
    modifies wire
    ensures var r := Requesting(wire.system, old(Bare(wire)), ask);
            body == r.k.body && again == Recycles(r) && Bare(wire) == Recycled(r.l)
  {
    hide Promised, Request, LastWait, CutShort, StopAndWait, Stream.Output;
    var s := new Stream(socket, wire);
    var c := new Client(ask.declines);
    var reuse, n;
    ghost var due;
    reuse, n, due := WriteRequest(s, c, ask.head, ask.blocks);
    again, body := reuse && s.socket >= 0, c.body;
  }

  /** Requests one after the other on one socket: of each stream nothing is left to the next but the socket. */
  method ServeRequests(socket: nat, wire: Wire, asks: seq<Ask>) returns (bodies: seq<seq<byte>>)
    modifies wire
    ensures bodies == Clients(Run(wire.system, old(Bare(wire)), asks))
  {
    hide Run, Requesting;
    ghost var whole := Run(wire.system, Bare(wire), asks);
    bodies := [];
    var i, going := 0, true;
    while i < |asks| && going
      invariant 0 <= i <= |asks|
      invariant Clients(whole) == bodies + if going then Clients(Run(wire.system, Bare(wire), asks[i..])) else []
    {
      ghost var l, rest := Bare(wire), asks[i..];
      RunStep(wire.system, l, rest);
      var body;
      going, body := ServeRequest(socket, wire, asks[i]);
      ghost var r := Requesting(wire.system, l, asks[i]);
      ClientsFirst(r, Run(wire.system, Recycled(r.l), rest[1..]));
      assert rest[1..] == asks[i + 1..];
      bodies := bodies + [body];
      i := i + 1;
    }
    RunEnds(wire.system, Bare(wire));
  }
}
