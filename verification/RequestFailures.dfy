/**
 * When `write_request` keeps its two promises, exactly: that the client gets a part of what the
 * runner answers, and that a stream to be reused stands at the boundary after the last answer.
 */
module RequestFailures {
  import opened Wrappers
  import opened Packets
  import opened Lines
  import opened Answers
  import opened Serving
  import opened Exchanges
  import opened Failures

  /** The client has got a part of what the request is answered. */
  ghost predicate RequestTellsPrefix(y: System, d: Declines, l: Line, k: Sink, head: seq<Packet>,
                                     blocks: seq<seq<byte>>)
  {
    var x := Exchange(Unread(l), |blocks|);
    x.Unruly? || Within(k, x, Request(y, d, l, k, head, blocks).k)
  }

  /** A stream to be reused has been answered in full and stands just past the answer. */
  ghost predicate RequestTellsBoundary(y: System, d: Declines, l: Line, k: Sink, head: seq<Packet>,
                                       blocks: seq<seq<byte>>)
  {
    var x, r := Exchange(Unread(l), |blocks|), Request(y, d, l, k, head, blocks);
    x.Unruly? || (r.reuse && r.l.open ==> AllTold(k, x, r) && Reusable(x))
  }

  /** A line on which a request starts; paused: the runner sends nothing after an answer until it is sent more. */
  ghost predicate Begins(y: System, l: Line, pending: nat, sticky: bool, paused: bool)
  {
    && l.open && Fits(y, l) && |l.buffered| == pending
    && (sticky ==> Sticky(y)) && (paused ==> Prompt(y, Unread(l)))
  }

  /** Whatever is written, whatever the runner sends, and whatever fails. */
  ghost predicate RequestsTellPrefix(n: nat, pending: nat, sticky: bool, paused: bool)
  {
    forall y: System, d: Declines, l: Line, k: Sink, head: seq<Packet>, blocks: seq<seq<byte>> ::
      Begins(y, l, pending, sticky, paused) && |blocks| == n ==> RequestTellsPrefix(y, d, l, k, head, blocks)
  }

  ghost predicate RequestsTellBoundary(n: nat, pending: nat, sticky: bool, paused: bool)
  {
    forall y: System, d: Declines, l: Line, k: Sink, head: seq<Packet>, blocks: seq<seq<byte>> ::
      Begins(y, l, pending, sticky, paused) && |blocks| == n ==> RequestTellsBoundary(y, d, l, k, head, blocks)
  }

  // ---- How the requests below go ----

  /** Blocks of one byte each. */
  function Bytes(n: nat): seq<seq<byte>> { seq(n, _ => [0]) }

  /** A request without a wait between its blocks. */
  lemma NoWait(y: System, d: Declines, l: Line, k: Sink, n: nat)
    requires n <= 1 && l.unsent == 0
    ensures var r, w := Request(y, d, l, k, [], Bytes(n)), Serve(y, d, l.(unsent := 5 * n + 4), k, END);
            r.reuse == (w.code == END) && r.l == w.l && r.k == w.k
  {
    hide Serve;
    if n == 1 {
      assert Packed(y, l, 1) == l.(unsent := 5);
      assert Sending(y, d, l.(unsent := 5), k, Bytes(1), 1) == Sent(1, [], l.(unsent := 5), k);
    }
  }

  /** The first wait of an upload. */
  function FirstWait(y: System, d: Declines, l: Line, k: Sink): Turn { Serve(y, d, l.(unsent := 5), k, ACK) }

  /** An upload over after its first wait. */
  lemma OneWait(y: System, d: Declines, l: Line, k: Sink, n: nat)
    requires n > 1 && l.unsent == 0
    ensures var r, w := Request(y, d, l, k, [], Bytes(n)), FirstWait(y, d, l, k);
            w.code == -1 || w.code == END ==>
              var e := Serve(y, d, Packed(y, w.l, 0), w.k, END);
              r.reuse == (e.code == END) && r.l == e.l && r.k == e.k
  {
    hide Serve;
    var m := l.(unsent := 5);
    assert Packed(y, l, 1) == m;
    var w := FirstWait(y, d, l, k);
    if w.code == -1 || w.code == END {
      assert Sending(y, d, m, k, Bytes(n), 1) == Sent(1, [], w.l, w.k);
    }
  }

  /** What the client has got in the first wait it keeps. */
  lemma FirstWaitStays(y: System, d: Declines, l: Line, k: Sink, n: nat)
    requires n > 1 && l.unsent == 0
    ensures FirstWait(y, d, l, k).k.body <= Request(y, d, l, k, [], Bytes(n)).k.body
  {
    hide Serve, Uploaded, Packed;
    var m, blocks := l.(unsent := 5), Bytes(n);
    assert Packed(y, l, 1) == m by {
      FirstPacked(y, l);
    }
    var w := FirstWait(y, d, l, k);
    var s := Sending(y, d, l, k, blocks, 0);
    assert w.k.body <= s.k.body by {
      if w.code < 0 || w.code == END || w.code == CLOSE {
        assert Sending(y, d, m, k, blocks, 1) == Sent(1, [], w.l, w.k);
      } else {
        var m2 := Packed(y, w.l, 1);
        var over, past := SendingFacts(y, d, m2, w.k, blocks, 2);
        StillGiven(y, d, m2, w.k, Waits(n, 2), 1, Sending(y, d, m2, w.k, blocks, 2), over, past);
        assert Sending(y, d, m, k, blocks, 1).k == Sending(y, d, m2, w.k, blocks, 2).k;
      }
    }
    ServeFacts(y, d, Packed(y, s.l, 0), s.k, END);
  }

  lemma FirstPacked(y: System, l: Line)
    requires l.unsent == 0
    ensures Packed(y, l, 1) == l.(unsent := 5)
  {
  }

  lemma StillGiven(y: System, d: Declines, l: Line, k: Sink, n: nat, off: nat, r: Sent, over: bool,
                   past: seq<seq<Item>>)
    requires Uploaded(y, d, l, k, n, off, r, over, past)
    ensures k.body <= r.k.body
  {
  }

  /** An answer to the end packet, as a course. */
  lemma FinalOutcome(u: seq<byte>)
    ensures var a, x := Answered(u, END), Final(u);
            (a.Wild? <==> x.Unruly?) && (!a.Wild? ==> Outcome(x) == Delivered(a))
            && (a.Whole? ==> x == Finished([a.items], a.rest))
  {
    hide Answered, Body;
    var a := Answered(u, END);
    NoBodies(a.items);
    if a.Whole? {
      assert Body(a.items) + [] == Body(a.items);
    } else if a.Broken? {
      assert [] + (Body(a.items) + a.part) == Body(a.items) + a.part;
    }
  }

  /** A runner whose first answer never ends pauses, and so does one that stops after the answer that ends all. */
  lemma FewAnswers(y: System, u: seq<byte>)
    ensures Answered(u, ACK).Broken? ==> Prompt(y, u)
    ensures EndsAtOnce(u) && y.stops(0) ==> Prompt(y, u)
  {
    hide Answered;
    if EndsAtOnce(u) {
      assert Answered(u, ACK).Whole?;
    }
    assert forall k: nat :: k > 0 && !GoesOn(Answered(u, ACK)) ==> After(u, k).None?;
  }

  // ---- The client's part ----

  /** With n blocks, the client gets a part of the answers for certain exactly if the connection stays broken,
      or nothing is buffered and there is no block to wait for. */
  lemma RequestTellsPrefixExactly(n: nat, pending: nat, sticky: bool, paused: bool)
    requires pending <= BUF_LENGTH
    ensures RequestsTellPrefix(n, pending, sticky, paused) <==> sticky || (n <= 1 && pending == 0)
  {
    hide RequestTellsPrefix, Begins;
    if sticky || (n <= 1 && pending == 0) {
      forall y: System, d: Declines, l: Line, k: Sink, head: seq<Packet>, blocks: seq<seq<byte>>
        | Begins(y, l, pending, sticky, paused) && |blocks| == n
        ensures RequestTellsPrefix(y, d, l, k, head, blocks)
      {
        PrefixHere(y, d, l, k, head, blocks, pending, sticky, paused);
      }
    } else {
      var l;
      if n <= 1 {
        l := RequestMisled(n, pending, paused);
      } else {
        l := UploadMisled(n, pending, paused);
      }
      assert !RequestTellsPrefix(ONE_REFUSED, TAKES_ALL, l, NEW_CLIENT, [], Bytes(n));
    }
  }

  lemma PrefixHere(y: System, d: Declines, l: Line, k: Sink, head: seq<Packet>, blocks: seq<seq<byte>>,
                   pending: nat, sticky: bool, paused: bool)
    requires Begins(y, l, pending, sticky, paused) && (sticky || (|blocks| <= 1 && pending == 0))
    ensures RequestTellsPrefix(y, d, l, k, head, blocks)
  {
    hide Request, Exchange, Fits, Prompt, Sticky, Within, AtRest, Careful, AllTold, Drained;
    RequestFacts(y, d, l, k, head, blocks);
  }

  /** One refused flush in the wait for the only answer. */
  lemma RequestMisled(n: nat, pending: nat, paused: bool) returns (l: Line)
    requires n <= 1 && 0 < pending <= BUF_LENGTH
    ensures Begins(ONE_REFUSED, l, pending, false, paused)
    ensures !RequestTellsPrefix(ONE_REFUSED, TAKES_ALL, l, NEW_CLIENT, [], Bytes(n))
  {
    hide Answered, Serve, Delivered, Request, Final, Outcome, Prompt;
    var m := MisledPrefix(pending, 5 * n + 4, END);
    l := m.(unsent := 0);
    assert Unread(l) == Unread(m);
    FewAnswers(ONE_REFUSED, Unread(l));
    FinalOutcome(Unread(l));
    NoMoreBlocks(Unread(l), n);
    NoWait(ONE_REFUSED, TAKES_ALL, l, NEW_CLIENT, n);
    assert m == l.(unsent := 5 * n + 4);
  }

  /** One refused flush in the wait for the first answer. */
  lemma UploadMisled(n: nat, pending: nat, paused: bool) returns (l: Line)
    requires n > 1 && pending <= BUF_LENGTH
    ensures Begins(ONE_REFUSED, l, pending, false, paused)
    ensures !RequestTellsPrefix(ONE_REFUSED, TAKES_ALL, l, NEW_CLIENT, [], Bytes(n))
  {
    hide Answered, Serve, Delivered, Request, Final, Prompt, Trap;
    HiddenData(ACK);
    var k := NEW_CLIENT;
    var u := Trap(pending, HIDDEN_DATA);
    TrapLength(pending, HIDDEN_DATA);
    TrapMeans(pending, HIDDEN_DATA, ACK);
    l := TrapLine(pending, HIDDEN_DATA, 0);
    assert Unread(l) == u;
    FewAnswers(ONE_REFUSED, u);
    BrokenStalls(u, n);
    if pending == 0 {
      DataAfterSlip(l, k, n);
    } else {
      var m := SlippedServe(pending, HIDDEN_DATA, 5, k, ACK);
      SmoothServe(ONE_REFUSED, m, k, ACK);
      FirstWaitStays(ONE_REFUSED, TAKES_ALL, l, k, n);
      assert l.(unsent := 5) == TrapLine(pending, HIDDEN_DATA, 5);
    }
    assert [] + [7] == [7];
  }

  /** An answer that does not end, before a block. */
  lemma BrokenStalls(u: seq<byte>, n: nat)
    requires n > 1 && Answered(u, ACK).Broken?
    ensures Exchange(u, n).Stalled? && Outcome(Exchange(u, n)) == Delivered(Answered(u, ACK))
  {
    hide Answered, Body;
    var a := Answered(u, ACK);
    assert [] + (Body(a.items) + a.part) == Body(a.items) + a.part;
  }

  /** The first wait gives up three bytes into the answer, and the second finds the hidden bytes. */
  lemma SecondWait(t: seq<byte>, l: Line, k: Sink, n: nat) returns (m: Line)
    requires n > 1 && 3 <= |t| < 256 && l == TrapLine(0, t, 0)
    ensures Smooth(ONE_REFUSED, m) && Unread(m) == t
    ensures var r, e := Request(ONE_REFUSED, TAKES_ALL, l, k, [], Bytes(n)), Serve(ONE_REFUSED, TAKES_ALL, m, k, END);
            r.reuse == (e.code == END) && r.l == e.l && r.k == e.k
  {
    hide Step, Request, Packed;
    var m0 := l.(unsent := 5);
    assert Unread(m0) == Trap(0, t);
    SlippedStart(ONE_REFUSED, TAKES_ALL, m0, k);
    var w := Step(ONE_REFUSED, TAKES_ALL, m0, k);
    assert FirstWait(ONE_REFUSED, TAKES_ALL, l, k) == w;
    OneWait(ONE_REFUSED, TAKES_ALL, l, k, n);
    m := Packed(ONE_REFUSED, w.l, 0);
    StillSmooth(ONE_REFUSED, w.l);
  }

  lemma StillSmooth(y: System, l: Line)
    requires Smooth(y, l)
    ensures Smooth(y, Packed(y, l, 0)) && Unread(Packed(y, l, 0)) == Unread(l)
  {
    hide Packed;
    PackedFacts(y, l, 0);
  }

  lemma DataAfterSlip(l: Line, k: Sink, n: nat)
    requires n > 1 && l == TrapLine(0, HIDDEN_DATA, 0)
    ensures Request(ONE_REFUSED, TAKES_ALL, l, k, [], Bytes(n)).k.body == k.body + [7]
  {
    hide Request, Serve, Answered, Delivered;
    var m := SecondWait(HIDDEN_DATA, l, k, n);
    HiddenData(END);
    SmoothServe(ONE_REFUSED, m, k, END);
  }

  // ---- The frame boundary ----

  /**
   * With n blocks, a stream to be reused stands at the boundary for certain exactly if nothing is
   * buffered where there is no block to wait for, and else if the connection stays broken and the
   * runner pauses after its answers.
   */
  lemma RequestTellsBoundaryExactly(n: nat, pending: nat, sticky: bool, paused: bool)
    requires pending <= BUF_LENGTH
    ensures RequestsTellBoundary(n, pending, sticky, paused) <==> if n <= 1 then pending == 0 else sticky && paused
  {
    hide RequestTellsBoundary, Begins;
    if if n <= 1 then pending == 0 else sticky && paused {
      forall y: System, d: Declines, l: Line, k: Sink, head: seq<Packet>, blocks: seq<seq<byte>>
        | Begins(y, l, pending, sticky, paused) && |blocks| == n
        ensures RequestTellsBoundary(y, d, l, k, head, blocks)
      {
        BoundaryHere(y, d, l, k, head, blocks, pending, sticky, paused);
      }
    } else {
      var y, l;
      if n <= 1 {
        l := RequestMidFrame(n, pending, sticky, paused);
        y := ALL_REFUSED;
      } else if !sticky {
        l := UploadSlips(n, pending, paused);
        y := ONE_REFUSED;
      } else {
        l := UploadMidFrame(n, pending);
        y := Breaks(pending);
      }
      assert !RequestTellsBoundary(y, TAKES_ALL, l, NEW_CLIENT, [], Bytes(n));
    }
  }

  lemma BoundaryHere(y: System, d: Declines, l: Line, k: Sink, head: seq<Packet>, blocks: seq<seq<byte>>,
                     pending: nat, sticky: bool, paused: bool)
    requires Begins(y, l, pending, sticky, paused)
    requires if |blocks| <= 1 then pending == 0 else sticky && paused
    ensures RequestTellsBoundary(y, d, l, k, head, blocks)
  {
    hide Request, Exchange, Fits, Prompt, Sticky, Within, AtRest, Careful, AllTold, Drained, Reusable;
    RequestFacts(y, d, l, k, head, blocks);
  }

  /** Everything is refused, and the end frame is partly received. */
  lemma RequestMidFrame(n: nat, pending: nat, sticky: bool, paused: bool) returns (l: Line)
    requires n <= 1 && 0 < pending <= BUF_LENGTH
    ensures Begins(ALL_REFUSED, l, pending, sticky, paused)
    ensures !RequestTellsBoundary(ALL_REFUSED, TAKES_ALL, l, NEW_CLIENT, [], Bytes(n))
  {
    hide Answered, Serve, Delivered, Request, Final, Outcome, Prompt, Sticky, Reusable;
    var m := MisledBoundary(pending, 5 * n + 4, END);
    l := m.(unsent := 0);
    var u := Unread(m);
    assert Unread(l) == u;
    AllRefused();
    FewAnswers(ALL_REFUSED, u);
    FinalOutcome(u);
    NoMoreBlocks(u, n);
    assert Answered(u, END).Whole? && Answered(u, END).rest == [];
    NoWait(ALL_REFUSED, TAKES_ALL, l, NEW_CLIENT, n);
    assert m == l.(unsent := 5 * n + 4);
  }

  /** One refused flush in the wait for the first answer: what is read as its end is none. */
  lemma UploadSlips(n: nat, pending: nat, paused: bool) returns (l: Line)
    requires n > 1 && pending <= BUF_LENGTH
    ensures Begins(ONE_REFUSED, l, pending, false, paused)
    ensures !RequestTellsBoundary(ONE_REFUSED, TAKES_ALL, l, NEW_CLIENT, [], Bytes(n))
  {
    hide Answered, Serve, Delivered, Request, Final, Prompt, Trap, Smooth;
    HiddenEnds(ACK);
    var u := Trap(pending, HIDDEN_ENDS);
    TrapLength(pending, HIDDEN_ENDS);
    TrapMeans(pending, HIDDEN_ENDS, ACK);
    l := TrapLine(pending, HIDDEN_ENDS, 0);
    assert Unread(l) == u;
    FewAnswers(ONE_REFUSED, u);
    BrokenStalls(u, n);
    EndAfterSlip(l, n, pending);
  }

  /** The request asks for reuse all the same. */
  lemma EndAfterSlip(l: Line, n: nat, pending: nat)
    requires n > 1 && pending <= BUF_LENGTH && |Trap(pending, HIDDEN_ENDS)| >= pending
    requires l == TrapLine(pending, HIDDEN_ENDS, 0)
    ensures var r := Request(ONE_REFUSED, TAKES_ALL, l, NEW_CLIENT, [], Bytes(n)); r.reuse && r.l.open
  {
    hide Answered, Serve, Delivered, Request, Trap, Smooth;
    HiddenEnds(ACK);
    HiddenEnds(END);
    if pending == 0 {
      var m := SecondWait(HIDDEN_ENDS, l, NEW_CLIENT, n);
      SmoothServe(ONE_REFUSED, m, NEW_CLIENT, END);
      SmoothIsOpen(ONE_REFUSED, Serve(ONE_REFUSED, TAKES_ALL, m, NEW_CLIENT, END).l);
    } else {
      var m := SlippedServe(pending, HIDDEN_ENDS, 5, NEW_CLIENT, ACK);
      SmoothServe(ONE_REFUSED, m, NEW_CLIENT, ACK);
      assert l.(unsent := 5) == TrapLine(pending, HIDDEN_ENDS, 5);
      var w := FirstWait(ONE_REFUSED, TAKES_ALL, l, NEW_CLIENT);
      OneWait(ONE_REFUSED, TAKES_ALL, l, NEW_CLIENT, n);
      StillSmooth(ONE_REFUSED, w.l);
      hide FirstWait;
      SmoothServe(ONE_REFUSED, Packed(ONE_REFUSED, w.l, 0), w.k, END);
      SmoothIsOpen(ONE_REFUSED, Serve(ONE_REFUSED, TAKES_ALL, Packed(ONE_REFUSED, w.l, 0), w.k, END).l);
    }
  }

  lemma SmoothIsOpen(y: System, l: Line)
    requires Smooth(y, l)
    ensures l.open
  {
  }

  // ---- An upload whose runner does not pause, on a connection that breaks after its first receive ----

  /** How much of the first end frame has been received when the first wait comes to it. */
  function Had(p: nat): nat { if p <= 3 then p else 0 }

  /** One flush and one receive go well; the receive yields the first end frame and the first byte of the second. */
  function Breaks(p: nat): System { System(j => j >= 2, m => false, j => 4 - Had(p)) }

  /** Two end frames, after one that is passed over and fills the buffer if more is to be received than a head. */
  function Ends2(p: nat): seq<byte> { (if p <= 3 then [] else Encode(Packet(OTHER, seq(p - 4, _ => 0)))) + HIDDEN_ENDS }

  /** The line while the head of the first end frame is read, i bytes into it. */
  function Reading(p: nat, i: nat): Line
    requires i <= 5
  {
    if i <= Had(p) then Line(HIDDEN_ENDS[i..Had(p)], HIDDEN_ENDS[Had(p)..], 5, 0, true)
    else Line(HIDDEN_ENDS[i..5], HIDDEN_ENDS[5..], 0, 2, true)
  }

  lemma ReadingByte(p: nat, i: nat)
    requires i < 4
    ensures Byte(Breaks(p), Reading(p, i)) == Bite(HIDDEN_ENDS[i], Reading(p, i + 1))
  {
    var l := Reading(p, i);
    if i == Had(p) {
      ReadingMore(p);
    } else {
      hide Fill;
      PopByte(Breaks(p), l);
    }
  }

  /** The one receive. */
  lemma ReadingMore(p: nat)
    ensures Fill(Breaks(p), Reading(p, Had(p)))
         == Tried(true, Line(HIDDEN_ENDS[Had(p)..5], HIDDEN_ENDS[5..], 0, 2, true))
  {
    var i, l := Had(p), Reading(p, Had(p));
    var m := l.(calls := 1, unsent := 0);
    assert Flush(Breaks(p), l) == Tried(true, m);
    assert Piece(Breaks(p), m) == 5 - i;
    assert HIDDEN_ENDS[i..][..5 - i] == HIDDEN_ENDS[i..5] && HIDDEN_ENDS[i..][5 - i..] == HIDDEN_ENDS[5..];
  }

  /** The first end frame is read, and the first byte of the second has come with it. */
  lemma ReadingEnd(p: nat, k: Sink)
    ensures Serve(Breaks(p), TAKES_ALL, Reading(p, 0), k, ACK)
         == Turn(END, false, Line([END], [0, 0, 0], 0, 2, true), k, true)
  {
    hide Byte, Reading;
    ReadingByte(p, 0);
    ReadingByte(p, 1);
    ReadingByte(p, 2);
    ReadingByte(p, 3);
    assert Reading(p, 4) == Line([END], [0, 0, 0], 0, 2, true) by {
      ReadingDone(p);
    }
  }

  lemma ReadingDone(p: nat)
    ensures Reading(p, 4) == Line([END], [0, 0, 0], 0, 2, true)
  {
  }

  /** The line an upload starts on. */
  function Unpaused(p: nat): Line
    requires p <= |Ends2(p)|
  {
    Line(Ends2(p)[..p], Ends2(p)[p..], 0, 0, true)
  }

  lemma UnpausedParts(p: nat)
    ensures p <= |Ends2(p)|
    ensures p > 3 ==> Ends2(p)[..p] == Encode(Packet(OTHER, seq(p - 4, _ => 0))) && Ends2(p)[p..] == HIDDEN_ENDS
  {
  }

  /** The first wait comes to the first end frame. */
  lemma FirstEnd(p: nat, k: Sink)
    requires p <= BUF_LENGTH
    ensures p <= |Ends2(p)|
    ensures var w := FirstWait(Breaks(p), TAKES_ALL, Unpaused(p), k);
            w.code == END && w.l == Line([END], [0, 0, 0], 0, 2, true) && w.k == k
  {
    hide Encode, Step;
    UnpausedParts(p);
    ReadingEnd(p, k);
    var l := Unpaused(p).(unsent := 5);
    if p <= 3 {
      assert l == Reading(p, 0);
    } else {
      var payload := seq(p - 4, _ => 0);
      assert Encode(Packet(OTHER, payload)) + [] == Encode(Packet(OTHER, payload));
      BufferedStep(Breaks(p), TAKES_ALL, l, k, payload, []);
      assert l.(buffered := []) == Reading(p, 0);
    }
  }

  lemma EndsUpload(a: Answer)
    requires a.Whole? && a.items != [] && LastCode(a.items) == END
    ensures !GoesOn(a)
  {
  }

  /** What the runner of two end frames is meant to be: one that ends the upload at once. */
  lemma TwoEnds(p: nat, n: nat)
    requires n > 1 && p <= BUF_LENGTH
    ensures var x := Exchange(Ends2(p), n); x.Finished? && x.rest == []
  {
    hide Answered, ReadItem, Encode, GoesOn;
    var u := Ends2(p);
    HiddenEnds(ACK);
    HiddenEnds(END);
    FinalOutcome([END, 0, 0, 0]);
    if p > 3 {
      var item := Plain(Packet(OTHER, seq(p - 4, _ => 0)));
      assert EncodeItem(item) == Encode(item.p) by {
        assert Encode(item.p) + [] == Encode(item.p);
      }
      ItemReadsBack(item, HIDDEN_ENDS);
      AnsweredIs(u, ACK);
      assert [] + [item] == [item];
    } else {
      assert u == HIDDEN_ENDS;
    }
    assert !GoesOn(Answered(u, ACK)) by {
      EndsUpload(Answered(u, ACK));
    }
  }

  lemma UploadMidFrame(n: nat, pending: nat) returns (l: Line)
    requires n > 1 && pending <= BUF_LENGTH
    ensures Begins(Breaks(pending), l, pending, true, false)
    ensures !RequestTellsBoundary(Breaks(pending), TAKES_ALL, l, NEW_CLIENT, [], Bytes(n))
  {
    hide Answered, Serve, Delivered, Request, Final, Prompt;
    l := MidFrameRequest(n, pending);
    TwoEnds(pending, n);
  }

  lemma MidFrameRequest(n: nat, pending: nat) returns (l: Line)
    requires n > 1 && pending <= BUF_LENGTH
    ensures pending <= |Ends2(pending)| && l == Unpaused(pending) && Unread(l) == Ends2(pending)
    ensures var r := Request(Breaks(pending), TAKES_ALL, l, NEW_CLIENT, [], Bytes(n));
            r.reuse && r.l.open && r.l.incoming == [0, 0, 0]
  {
    hide Answered, Serve, Request;
    var y := Breaks(pending);
    FirstEnd(pending, NEW_CLIENT);
    l := Unpaused(pending);
    var w := FirstWait(y, TAKES_ALL, l, NEW_CLIENT);
    OneWait(y, TAKES_ALL, l, NEW_CLIENT, n);
    var m := Line([END], [0, 0, 0], 4, 2, true);
    assert Packed(y, w.l, 0) == m;
    CutShortEnds(y, TAKES_ALL, m, w.k, END);
  }

  /** Two blocks to a runner that sends two end frames at once, on a connection that breaks after its first receive. */
  lemma ReusedMidFrame(l: Line)
    requires l == Line([], HIDDEN_ENDS, 0, 0, true)
    ensures Sticky(Breaks(0))
    ensures var r, x := Request(Breaks(0), TAKES_ALL, l, NEW_CLIENT, [], Bytes(2)), Exchange(Unread(l), 2);
            r.reuse && r.l.open && r.l.incoming == [0, 0, 0] && x.Finished? && x.rest == []
  {
    hide Request, Exchange, Serve;
    var m := MidFrameRequest(2, 0);
    assert Unpaused(0) == l;
    assert Unread(l) == Ends2(0);
    TwoEnds(0, 2);
  }
}
