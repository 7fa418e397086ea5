/**
 * When `send_data` keeps its two promises, exactly: that the client gets a part of the answer, and
 * that a code with an open socket means the frame boundary after it. Shown by the runs on which a
 * refused flush breaks them.
 */
module Failures {
  import opened Packets
  import opened Lines
  import opened Answers
  import opened Serving

  /** The client has got a part of the answer. */
  ghost predicate TellsPrefix(y: System, d: Declines, l: Line, k: Sink, ack: byte)
  {
    var a, t := Answered(Unread(l), ack), Serve(y, d, l, k, ack);
    a.Wild? || k.body <= t.k.body <= k.body + Delivered(a)
  }

  /** A code with an open socket means the whole answer, just past its last frame. */
  ghost predicate TellsBoundary(y: System, d: Declines, l: Line, k: Sink, ack: byte)
  {
    var a, t := Answered(Unread(l), ack), Serve(y, d, l, k, ack);
    a.Wild? || (t.code >= 0 && t.l.open ==>
      && a.Whole? && t.code == LastCode(a.items) && Unread(t.l) == a.rest && HandedOn(a.items, k, t))
  }

  // ---- A connection that stays broken ----

  /** A flush is due and everything is refused from now on. */
  ghost predicate Hopeless(y: System, l: Line)
  {
    l.open && l.unsent > 0 && forall j :: j >= l.calls ==> y.refuses(j)
  }

  /** A read of such a line gets no further than the buffer. */
  ghost predicate StillHopeless(y: System, l: Line, m: Line)
  {
    Hopeless(y, m) && m.incoming == l.incoming && m.unsent == l.unsent
  }

  lemma HopelessByte(y: System, l: Line)
    requires Hopeless(y, l)
    ensures StillHopeless(y, l, Byte(y, l).l)
    ensures l.buffered != [] ==> Byte(y, l).b == l.buffered[0]
  {
  }

  lemma {:induction false} HopelessTake(y: System, l: Line, n: nat)
    requires Hopeless(y, l)
    ensures StillHopeless(y, l, Take(y, l, n).l)
    decreases n
  {
    if n == 0 {
    } else {
      var p := Portion(y, l, n);
      if p.data != [] {
        HopelessTake(y, p.l, n - |p.data|);
      }
    }
  }

  lemma HopelessHead(y: System, l: Line)
    requires Hopeless(y, l) && l.buffered != []
    ensures var h := ReadHead(y, l); StillHopeless(y, l, h.l) && h.code == l.buffered[0]
  {
    hide Byte, Hopeless;
    var b0 := Byte(y, l);
    var b1 := Byte(y, b0.l);
    var b2 := Byte(y, b1.l);
    HopelessByte(y, l);
    HopelessByte(y, b0.l);
    HopelessByte(y, b1.l);
    HopelessByte(y, b2.l);
  }

  /** Of an end frame at least the first byte has been received, and nothing more will be. */
  ghost predicate CutShort(y: System, l: Line)
  {
    Hopeless(y, l) && l.buffered != [] && l.buffered[0] == END
  }

  /** Such a frame ends the answer with the socket open, whatever is missing of it. */
  lemma CutShortEnds(y: System, d: Declines, l: Line, k: Sink, ack: byte)
    ensures CutShort(y, l) ==>
              var t := Serve(y, d, l, k, ack);
              t.code == END && t.l.open && t.l.incoming == l.incoming && t.k == k
  {
    if CutShort(y, l) {
      hide ReadHead, Take, Hopeless;
      var h := ReadHead(y, l);
      HopelessHead(y, l);
      HopelessTake(y, h.l, h.len);
      HopelessIsOpen(y, h.l);
      HopelessIsOpen(y, Take(y, h.l, h.len).l);
    }
  }

  lemma HopelessIsOpen(y: System, l: Line)
    requires Hopeless(y, l)
    ensures l.open
  {
  }

  /** An end frame longer than k bytes. */
  function LongEnd(k: nat): seq<byte> { Encode(Packet(END, seq(if k > 3 then k - 3 else 0, _ => 0))) }

  lemma LongEndIsAnEnd(k: nat, ack: byte)
    requires k <= BUF_LENGTH && ack in {ACK, END}
    ensures |LongEnd(k)| > k && LongEnd(k)[0] == END
    ensures var p := Packet(END, seq(if k > 3 then k - 3 else 0, _ => 0));
            Answered(LongEnd(k), ack) == Whole([Plain(p)], [])
  {
    hide Answered, ReadItem;
    var p := Packet(END, seq(if k > 3 then k - 3 else 0, _ => 0));
    HeadFirst(END, |p.payload|);
    OneEnd(p, [], ack);
    assert LongEnd(k) + [] == LongEnd(k);
  }

  /** One end frame is a whole answer. */
  lemma OneEnd(p: Packet, rest: seq<byte>, ack: byte)
    requires p.code == END && |p.payload| <= BUF_LENGTH && ack in {ACK, END}
    ensures Answered(Encode(p) + rest, ack) == Whole([Plain(p)], rest)
  {
    hide Answered, ReadItem, Encode;
    var items := [Plain(p)];
    assert EncodeItems(items) == Encode(p) by {
      assert items[1..] == [] && EncodeItems([]) == [] && Encode(p) + [] == Encode(p);
    }
    assert Complete(items, ack);
    AnswerReadsBack(items, ack, rest);
  }

  // ---- One refused flush ----

  /** From now on nothing is refused. */
  ghost predicate Smooth(y: System, l: Line) { l.open && forall j :: j >= l.calls ==> !y.refuses(j) }

  /** The next call is refused, and none after it; something is unsent. */
  ghost predicate Slips(y: System, l: Line)
  {
    l.open && l.unsent > 0 && y.refuses(l.calls) && forall j :: j > l.calls ==> !y.refuses(j)
  }

  lemma PopByte(y: System, l: Line)
    requires l.buffered != []
    ensures Byte(y, l) == Bite(l.buffered[0], Pop(l))
  {
  }

  lemma SlipByte(y: System, l: Line)
    requires Slips(y, l) && l.buffered == []
    ensures Byte(y, l) == Bite(-1, l.(calls := l.calls + 1)) && Smooth(y, Byte(y, l).l)
  {
  }

  lemma SmoothByte(y: System, l: Line)
    requires Smooth(y, l) && Unread(l) != []
    ensures Byte(y, l).b == Unread(l)[0] && Unread(Byte(y, l).l) == Unread(l)[1..] && Smooth(y, Byte(y, l).l)
  {
  }

  /** A length of which one byte is lost to a refused flush: two of the bytes ahead are used up. */
  lemma SlippedLengths(y: System, l: Line)
    requires Slips(y, l) && |l.buffered| <= 2 && |Unread(l)| >= 3
    ensures var h := Lengths(y, l); Smooth(y, h.l) && Unread(h.l) == Unread(l)[2..]
  {
    hide Byte, Smooth;
    var u := Unread(l);
    var b1 := Byte(y, l);
    var b2 := Byte(y, b1.l);
    if |l.buffered| == 0 {
      SlipByte(y, l);
      assert Unread(b1.l) == u;
      SmoothByte(y, b1.l);
      SmoothByte(y, b2.l);
    } else {
      PopByte(y, l);
      assert Unread(b1.l) == u[1..];
      if |l.buffered| == 1 {
        SlipByte(y, b1.l);
        assert Unread(b2.l) == u[1..];
        SmoothByte(y, b2.l);
      } else {
        PopByte(y, b1.l);
        SlipByte(y, b2.l);
      }
    }
  }

  /** A whole head in the buffer. */
  lemma BufferedHead(y: System, l: Line)
    requires |l.buffered| >= 4
    ensures var h, b := ReadHead(y, l), l.buffered;
            && h.l == l.(buffered := b[4..]) && h.whole
            && h.code == b[0] && h.len == Length(b[1], b[2], b[3])
  {
    hide Byte;
    PopByte(y, l);
    PopByte(y, Pop(l));
    PopByte(y, Pop(Pop(l)));
    PopByte(y, Pop(Pop(Pop(l))));
    assert Pop(Pop(Pop(Pop(l)))) == l.(buffered := l.buffered[4..]);
  }

  lemma BufferedTake(y: System, l: Line, n: nat)
    requires n <= |l.buffered|
    ensures Take(y, l, n) == Bites(l.buffered[..n], l.(buffered := l.buffered[n..]))
  {
    if n > 0 {
      assert Portion(y, l, n).data == l.buffered[..n];
      assert l.buffered[..n] + [] == l.buffered[..n];
    }
  }

  /** A frame code the plugin does not know. */
  const OTHER: byte := 'U' as int

  /** An unknown frame in the buffer is passed over, without a call. */
  lemma BufferedStep(y: System, d: Declines, l: Line, k: Sink, payload: seq<byte>, rest: seq<byte>)
    requires l.open && l.buffered == Encode(Packet(OTHER, payload)) + rest && |payload| < MAX_LENGTH
    ensures Step(y, d, l, k) == Turn(OTHER, false, l.(buffered := rest), k, true)
  {
    hide ReadHead, Take, Packets.Head, Length;
    HeadOff(OTHER, payload, rest);
    assert l.buffered == Packets.Head(OTHER, |payload|) + (payload + rest);
    BufferedHead(y, l);
    var m := l.(buffered := l.buffered[4..]);
    BufferedTake(y, m, |payload|);
  }

  /** Nothing buffered: the turn gives up three bytes into the answer. */
  lemma SlippedStart(y: System, d: Declines, l: Line, k: Sink)
    requires Slips(y, l) && l.buffered == [] && |Unread(l)| >= 3
    ensures var t := Step(y, d, l, k);
            t.code == -1 && t.k == k && Smooth(y, t.l) && Unread(t.l) == Unread(l)[3..]
  {
    hide Byte;
    var u := Unread(l);
    SlipByte(y, l);
    var b := Byte(y, l);
    SmoothByte(y, b.l);
    var b1 := Byte(y, b.l);
    SmoothByte(y, b1.l);
    var b2 := Byte(y, b1.l);
    SmoothByte(y, b2.l);
    NoSwitch(y, d, ReadHead(y, l).len, ReadHead(y, l).l, k);
  }

  /** Some bytes of a head buffered, of a frame whose length is not looked at: the loop goes on one byte early. */
  lemma SlippedHead(y: System, d: Declines, l: Line, k: Sink)
    requires Slips(y, l) && 1 <= |l.buffered| <= 3 && l.buffered[0] == KEEPALIVE && |Unread(l)| >= 4
    ensures var t := Step(y, d, l, k);
            t.code == KEEPALIVE && t.k == k && Smooth(y, t.l) && Unread(t.l) == Unread(l)[3..]
  {
    hide Byte, Lengths;
    PopByte(y, l);
    var b := Byte(y, l);
    assert Unread(b.l) == Unread(l)[1..];
    SlippedLengths(y, b.l);
  }

  /** A head buffered and nothing of the payload: the payload is read as frames. */
  lemma SlippedPayload(y: System, d: Declines, l: Line, k: Sink)
    requires Slips(y, l) && |l.buffered| == 4 && l.buffered[0] == OTHER && l.buffered[3] > 0
    ensures var t := Step(y, d, l, k);
            t.code == OTHER && t.k == k && Smooth(y, t.l) && Unread(t.l) == l.incoming
  {
    hide ReadHead;
    BufferedHead(y, l);
    var m := l.(buffered := l.buffered[4..]);
    assert m.buffered == [];
    var n := Length(l.buffered[1], l.buffered[2], l.buffered[3]);
    assert Take(y, m, n) == Bites([], m.(calls := m.calls + 1));
  }

  // ---- Answers that a slip misreads ----

  /** A client that takes everything. */
  const TAKES_ALL: Declines := _ => false

  /** A client that has got nothing yet. */
  const NEW_CLIENT: Sink := Sink([], [], 0)

  /** Without a refusal, an answer is served as it is meant. */
  lemma SmoothServe(y: System, l: Line, k: Sink, ack: byte)
    requires Smooth(y, l) && ack != HEADER
    ensures var a, t := Answered(Unread(l), ack), Serve(y, TAKES_ALL, l, k, ack);
            && (a.Whole? ==> a.items != [] && t.code == LastCode(a.items) && Unread(t.l) == a.rest && Smooth(y, t.l))
            && (a.Broken? ==> t.k.body == k.body + Delivered(a))
  {
    hide Answered, Serve, Unread, Fits, AtRest, Dead, Sticky, Clear, Delivered;
    ServeFacts(y, TAKES_ALL, l, k, ack);
  }

  /** Bytes within a frame that read as frames themselves, from their start but not from their second byte. */
  ghost predicate Hidden(t: seq<byte>)
  {
    3 <= |t| < 256 && ReadItem(t[1..]) == Short([])
  }

  /** A head cut after three bytes, or a frame around the hidden bytes. */
  function Core(p: nat, t: seq<byte>): seq<byte>
    requires |t| < 256
  {
    if p == 0 then [OTHER, 0, 0] + t else if p == 4 then [OTHER, 0, 0, |t|] + t else [KEEPALIVE, 0, 0] + t
  }

  /** An answer that misleads a reader which slips with its first p bytes received. */
  function Trap(p: nat, t: seq<byte>): seq<byte>
    requires |t| < 256
  {
    if p <= 4 then Core(p, t) else Encode(Packet(OTHER, seq(p - 5, _ => 0))) + Core(1, t)
  }

  /** Read as it is meant, it has no end and nothing for the client. */
  lemma CoreMeans(p: nat, t: seq<byte>, ack: byte)
    requires p <= 4 && Hidden(t) && ack in {ACK, END} && (p == 0 ==> t[0] as int > |t|)
    ensures var a := Answered(Core(p, t), ack); a.Broken? && Delivered(a) == []
  {
    hide Answered, ReadItem;
    var u := Core(p, t);
    AnsweredIs(u, ack);
    if p == 0 {
      TextItem(u, OTHER);
      assert Body([]) == [];
    } else if p == 4 {
      TextItem(u, OTHER);
      var item := Plain(Packet(OTHER, t));
      assert u[4..] == t && t[..|t|] == t && t[|t|..] == [];
      assert ReadItem(u) == Got(item, []);
      AnsweredIs([], ack);
      ShortItem([]);
      OneBroken(item);
    } else {
      SignalItem(u);
      var item := Plain(Packet(KEEPALIVE, []));
      assert u[4..] == t[1..];
      AnsweredIs(t[1..], ack);
      OneBroken(item);
    }
  }

  lemma OneBroken(item: Item)
    requires BodyOf(item) == []
    ensures [] + [item] == [item] && Delivered(Join([item], Broken([], []))) == []
  {
    assert [item] + [] == [item] && [item][1..] == [];
    assert Body([item]) == BodyOf(item) + Body([]);
  }

  lemma TrapMeans(p: nat, t: seq<byte>, ack: byte)
    requires p <= BUF_LENGTH && Hidden(t) && ack in {ACK, END} && (p == 0 ==> t[0] as int > |t|)
    ensures var a := Answered(Trap(p, t), ack); a.Broken? && Delivered(a) == []
  {
    hide Answered, ReadItem;
    CoreMeans(if p <= 4 then p else 1, t, ack);
    if p > 4 {
      var item := Plain(Packet(OTHER, seq(p - 5, _ => 0)));
      assert EncodeItem(item) == Encode(item.p) by {
        assert Encode(item.p) + [] == Encode(item.p);
      }
      ItemReadsBack(item, Core(1, t));
      AnsweredIs(Trap(p, t), ack);
      assert [] + [item] == [item];
      JoinDelivered(item, Answered(Core(1, t), ack));
    }
  }

  /** A line that slips with the first p bytes of such an answer received. */
  function TrapLine(p: nat, t: seq<byte>, unsent: nat): Line
    requires |t| < 256
    requires p <= |Trap(p, t)|
  {
    Line(Trap(p, t)[..p], Trap(p, t)[p..], unsent, 0, true)
  }

  lemma TrapLength(p: nat, t: seq<byte>)
    requires 3 <= |t| < 256
    ensures |Trap(p, t)| >= p && |Trap(p, t)| >= 4
  {
  }

  /** Only the first call is refused. */
  const ONE_REFUSED: System := System(j => j == 0, m => false, j => 0)

  /** Everything is refused; the runner waits at the end of its answer. */
  const ALL_REFUSED: System := System(j => true, m => m == 0, j => 0)

  /** The slip: the loop goes on at the hidden bytes. */
  lemma SlippedCore(p: nat, t: seq<byte>, unsent: nat, k: Sink, ack: byte) returns (m: Line)
    requires 0 < p <= 4 && 3 <= |t| < 256 && unsent > 0 && ack in {ACK, END}
    ensures |Trap(p, t)| >= p && Smooth(ONE_REFUSED, m) && Unread(m) == t
    ensures SameServe(TrapLine(p, t, unsent), m, k, ack)
  {
    hide Step, Smooth;
    TrapLength(p, t);
    var l := TrapLine(p, t, unsent);
    assert Unread(l) == Trap(p, t);
    if p <= 3 {
      SlippedHead(ONE_REFUSED, TAKES_ALL, l, k);
    } else {
      SlippedPayload(ONE_REFUSED, TAKES_ALL, l, k);
    }
    m := Step(ONE_REFUSED, TAKES_ALL, l, k).l;
  }

  ghost predicate SameServe(l: Line, m: Line, k: Sink, ack: byte)
  {
    var r, q := Serve(ONE_REFUSED, TAKES_ALL, l, k, ack), Serve(ONE_REFUSED, TAKES_ALL, m, k, ack);
    r.code == q.code && r.l == q.l && r.k == q.k
  }

  lemma SlippedServe(p: nat, t: seq<byte>, unsent: nat, k: Sink, ack: byte) returns (m: Line)
    requires 0 < p <= BUF_LENGTH && 3 <= |t| < 256 && unsent > 0 && ack in {ACK, END}
    ensures |Trap(p, t)| >= p && Smooth(ONE_REFUSED, m) && Unread(m) == t
    ensures SameServe(TrapLine(p, t, unsent), m, k, ack)
  {
    hide Step, Smooth, Encode;
    TrapLength(p, t);
    if p <= 4 {
      m := SlippedCore(p, t, unsent, k, ack);
    } else {
      var payload := seq(p - 5, _ => 0);
      TrapParts(p, t, unsent);
      BufferedStep(ONE_REFUSED, TAKES_ALL, TrapLine(p, t, unsent), k, payload, [KEEPALIVE]);
      m := SlippedCore(1, t, unsent, k, ack);
    }
  }

  lemma TrapParts(p: nat, t: seq<byte>, unsent: nat)
    requires 4 < p && 3 <= |t| < 256
    ensures |Trap(p, t)| >= p && |Trap(1, t)| >= 1
    ensures var l := TrapLine(p, t, unsent);
            && l.buffered == Encode(Packet(OTHER, seq(p - 5, _ => 0))) + [KEEPALIVE]
            && l.(buffered := [KEEPALIVE]) == TrapLine(1, t, unsent)
  {
    var lead := Encode(Packet(OTHER, seq(p - 5, _ => 0)));
    assert |lead| == p - 1;
    hide Encode;
    assert Core(1, t) == [KEEPALIVE] + ([0, 0] + t);
    assert Trap(p, t) == (lead + [KEEPALIVE]) + ([0, 0] + t);
  }

  /** Hidden bytes that deliver something, and hidden bytes that end an answer twice over. */
  const HIDDEN_DATA: seq<byte> := [DATA, 0, 0, 1, 7]
  const HIDDEN_ENDS: seq<byte> := [END, 0, 0, 0, END, 0, 0, 0]

  lemma HiddenData(ack: byte)
    requires ack in {ACK, END}
    ensures Hidden(HIDDEN_DATA) && HIDDEN_DATA[0] as int > |HIDDEN_DATA|
    ensures var a := Answered(HIDDEN_DATA, ack); a.Broken? && Delivered(a) == [7]
  {
    hide Answered, ReadItem;
    var item := Plain(Packet(DATA, [7]));
    DataItem(HIDDEN_DATA);
    assert HIDDEN_DATA[4..] == [7] && [7][..1] == [7] && [7][1..] == [];
    assert ReadItem(HIDDEN_DATA) == Got(item, []);
    assert Body([]) == [];
    AnsweredIs(HIDDEN_DATA, ack);
    AnsweredIs([], ack);
    ShortItem([]);
    JoinDelivered(item, Broken([], []));
    assert [] + [item] == [item];
    assert HIDDEN_DATA[1..] == [0, 0, 1, 7];
    TextItem(HIDDEN_DATA[1..], 0);
  }

  lemma HiddenEnds(ack: byte)
    requires ack in {ACK, END}
    ensures Hidden(HIDDEN_ENDS) && HIDDEN_ENDS[0] as int > |HIDDEN_ENDS|
    ensures Answered(HIDDEN_ENDS, ack) == Whole([Plain(Packet(END, []))], [END, 0, 0, 0])
    ensures Answered([END, 0, 0, 0], ack) == Whole([Plain(Packet(END, []))], [])
  {
    hide Answered, ReadItem;
    OneEnd(Packet(END, []), [END, 0, 0, 0], ack);
    OneEnd(Packet(END, []), [], ack);
    assert Encode(Packet(END, [])) == [END, 0, 0, 0];
    assert HIDDEN_ENDS == Encode(Packet(END, [])) + [END, 0, 0, 0];
    assert [END, 0, 0, 0] == Encode(Packet(END, [])) + [];
    assert HIDDEN_ENDS[1..] == [0, 0, 0, END, 0, 0, 0];
    TextItem(HIDDEN_ENDS[1..], 0);
  }

  // ---- When `send_data` keeps its promises, exactly ----

  /** A line on which `send_data` starts, with so many bytes received and unread and so many unsent. */
  ghost predicate Starts(y: System, l: Line, pending: nat, unsent: nat, sticky: bool)
  {
    l.open && Fits(y, l) && |l.buffered| == pending && l.unsent == unsent && (sticky ==> Sticky(y))
  }

  /** Whatever the runner sends, and whatever fails. */
  ghost predicate AlwaysTellsPrefix(pending: nat, unsent: nat, sticky: bool, ack: byte)
  {
    forall y: System, d: Declines, l: Line, k: Sink ::
      Starts(y, l, pending, unsent, sticky) ==> TellsPrefix(y, d, l, k, ack)
  }

  ghost predicate AlwaysTellsBoundary(pending: nat, unsent: nat, sticky: bool, ack: byte)
  {
    forall y: System, d: Declines, l: Line, k: Sink ::
      Starts(y, l, pending, unsent, sticky) ==> TellsBoundary(y, d, l, k, ack)
  }

  /** The first promise fails exactly if something is buffered, something is unsent, and the connection may recover. */
  lemma TellsPrefixExactly(pending: nat, unsent: nat, sticky: bool, ack: byte)
    requires pending <= BUF_LENGTH && unsent <= BUF_LENGTH && ack in {ACK, END}
    ensures AlwaysTellsPrefix(pending, unsent, sticky, ack) <==> pending == 0 || unsent == 0 || sticky
  {
    hide TellsPrefix, Fits, Sticky, Trap;
    if pending == 0 || unsent == 0 || sticky {
      forall y: System, d: Declines, l: Line, k: Sink | Starts(y, l, pending, unsent, sticky)
        ensures TellsPrefix(y, d, l, k, ack)
      {
        KeepsPrefixHere(y, d, l, k, ack);
      }
    } else {
      var l := MisledPrefix(pending, unsent, ack);
      assert Starts(ONE_REFUSED, l, pending, unsent, sticky);
    }
  }

  lemma KeepsPrefixHere(y: System, d: Declines, l: Line, k: Sink, ack: byte)
    requires l.open && (Clear(l) || Sticky(y)) && ack != HEADER
    ensures TellsPrefix(y, d, l, k, ack)
  {
    hide Answered, Serve, Unread, Fits, AtRest, Dead, Sticky, Clear, Delivered;
    ServeFacts(y, d, l, k, ack);
  }

  lemma MisledPrefix(pending: nat, unsent: nat, ack: byte) returns (l: Line)
    requires 0 < pending <= BUF_LENGTH && 0 < unsent <= BUF_LENGTH && ack in {ACK, END}
    ensures l.open && Fits(ONE_REFUSED, l) && |l.buffered| == pending && l.unsent == unsent
    ensures !TellsPrefix(ONE_REFUSED, TAKES_ALL, l, NEW_CLIENT, ack) && Answered(Unread(l), ACK).Broken?
  {
    hide Answered, Serve, Trap, Delivered, Smooth;
    HiddenData(ack);
    TrapMeans(pending, HIDDEN_DATA, ack);
    TrapMeans(pending, HIDDEN_DATA, ACK);
    var m := SlippedServe(pending, HIDDEN_DATA, unsent, NEW_CLIENT, ack);
    SmoothServe(ONE_REFUSED, m, NEW_CLIENT, ack);
    l := TrapLine(pending, HIDDEN_DATA, unsent);
    assert Unread(l) == Trap(pending, HIDDEN_DATA);
    assert [] + [7] == [7];
  }

  /** The second fails exactly if something is buffered and something is unsent. */
  lemma TellsBoundaryExactly(pending: nat, unsent: nat, sticky: bool, ack: byte)
    requires pending <= BUF_LENGTH && unsent <= BUF_LENGTH && ack in {ACK, END}
    ensures AlwaysTellsBoundary(pending, unsent, sticky, ack) <==> pending == 0 || unsent == 0
  {
    hide TellsBoundary, Fits, Sticky, LongEnd;
    if pending == 0 || unsent == 0 {
      forall y: System, d: Declines, l: Line, k: Sink | Starts(y, l, pending, unsent, sticky)
        ensures TellsBoundary(y, d, l, k, ack)
      {
        KeepsBoundaryHere(y, d, l, k, ack);
      }
    } else {
      var l := MisledBoundary(pending, unsent, ack);
      assert Sticky(ALL_REFUSED) by {
        AllRefused();
      }
      assert Starts(ALL_REFUSED, l, pending, unsent, sticky);
      assert !TellsBoundary(ALL_REFUSED, TAKES_ALL, l, NEW_CLIENT, ack);
    }
  }

  lemma AllRefused()
    ensures Sticky(ALL_REFUSED)
  {
  }

  lemma KeepsBoundaryHere(y: System, d: Declines, l: Line, k: Sink, ack: byte)
    requires l.open && Clear(l) && ack != HEADER
    ensures TellsBoundary(y, d, l, k, ack)
  {
    hide Answered, Serve, Unread, Fits, AtRest, Dead, Sticky, Clear, Delivered, HandedOn;
    ServeFacts(y, d, l, k, ack);
  }

  /** One end frame and nothing after it. */
  ghost predicate EndsAtOnce(u: seq<byte>)
  {
    forall ack :: ack in {ACK, END} ==>
      var a := Answered(u, ack);
      a.Whole? && a.rest == [] && a.items != [] && LastCode(a.items) == END
  }

  lemma MisledBoundary(pending: nat, unsent: nat, ack: byte) returns (l: Line)
    requires 0 < pending <= BUF_LENGTH && 0 < unsent <= BUF_LENGTH && ack in {ACK, END}
    ensures l.open && Fits(ALL_REFUSED, l) && |l.buffered| == pending && l.unsent == unsent
    ensures !TellsBoundary(ALL_REFUSED, TAKES_ALL, l, NEW_CLIENT, ack) && EndsAtOnce(Unread(l))
    ensures var t := Serve(ALL_REFUSED, TAKES_ALL, l, NEW_CLIENT, ack);
            t.code == END && t.l.open && Unread(t.l) != []
  {
    hide Answered, Serve, LongEnd, HandedOn;
    var u := LongEnd(pending);
    LongEndIsAnEnd(pending, ack);
    LongEndIsAnEnd(pending, ACK);
    LongEndIsAnEnd(pending, END);
    l := Line(u[..pending], u[pending..], unsent, 0, true);
    assert Unread(l) == u;
    CutShortEnds(ALL_REFUSED, TAKES_ALL, l, NEW_CLIENT, ack);
  }
}
