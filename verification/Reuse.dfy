/**
 * Several requests on one socket. The pool keeps the socket and nothing else: what a stream has
 * received beyond the last answer is lost with it.
 */
module Reuse {
  import opened Packets
  import opened Lines
  import opened Answers
  import opened Serving
  import opened Exchanges
  import opened Failures
  import opened RequestFailures

  /** What a request is given: its head, its body, and a client. */
  datatype Ask = Ask(head: seq<Packet>, blocks: seq<seq<byte>>, declines: Declines)

  /** What the next request finds of a line: both buffers are emptied. */
  function Recycled(l: Line): Line { Line([], l.incoming, 0, l.calls, true) }

  predicate Recycles(r: Requested) { r.reuse && r.l.open }

  function Requesting(y: System, l: Line, ask: Ask): Requested
  {
    Request(y, ask.declines, l, NEW_CLIENT, ask.head, ask.blocks)
  }

  /** Requests one after the other, until one does not give its socket back. */
  function Run(y: System, l: Line, asks: seq<Ask>): (rs: seq<Requested>)
    ensures |rs| <= |asks| && (rs == [] <==> asks == [])
    decreases |asks|
  {
    hide Requesting;
    if asks == [] then []
    else
      var r := Requesting(y, l, asks[0]);
      [r] + if Recycles(r) then Run(y, Recycled(r.l), asks[1..]) else []
  }

  // ---- What the runner's bytes say of several requests ----

  /** The courses of requests with these numbers of blocks, until one is not to be followed by another. */
  function Courses(u: seq<byte>, ns: seq<nat>): (xs: seq<Course>)
    ensures |xs| <= |ns| && (xs == [] <==> ns == [])
    decreases |ns|
  {
    hide Exchange;
    if ns == [] then []
    else
      var x := Exchange(u, ns[0]);
      [x] + if Reusable(x) then Courses(x.rest, ns[1..]) else []
  }

  /** The runner sends nothing beyond an answer before it is sent more. */
  ghost predicate Pauses(y: System, u: seq<byte>, n: nat)
  {
    (n > 1 ==> Prompt(y, u)) && (Exchange(u, n).Finished? ==> y.stops(|Exchange(u, n).rest|))
  }

  ghost predicate PausesThroughout(y: System, u: seq<byte>, ns: seq<nat>)
    decreases |ns|
  {
    ns != [] ==>
      && Pauses(y, u, ns[0])
      && (Reusable(Exchange(u, ns[0])) ==> PausesThroughout(y, Exchange(u, ns[0]).rest, ns[1..]))
  }

  function Counts(asks: seq<Ask>): seq<nat> { seq(|asks|, i requires 0 <= i < |asks| => |asks[i].blocks|) }

  /** A broken connection stays broken, or there is no upload to be misled by it. */
  ghost predicate Steady(y: System, asks: seq<Ask>)
  {
    Sticky(y) || forall i :: 0 <= i < |asks| ==> |asks[i].blocks| <= 1
  }

  // ---- One request ----

  /** A stream to be reused has been answered in full, and the pool loses nothing by keeping its socket only. */
  ghost predicate HandsBack(x: Course, r: Requested)
  {
    x.Unruly? || (Recycles(r) ==> AllTold(NEW_CLIENT, x, r) && Reusable(x) && Recycled(r.l) == r.l)
  }

  /** What becomes of one request of a run. */
  ghost predicate Fared(x: Course, r: Requested)
  {
    (x.Unruly? || Within(NEW_CLIENT, x, r.k)) && HandsBack(x, r)
  }

  lemma OneFares(y: System, l: Line, ask: Ask)
    requires l.open && l.buffered == [] && l.unsent == 0
    requires Sticky(y) || |ask.blocks| <= 1
    requires Pauses(y, Unread(l), |ask.blocks|)
    ensures Fared(Exchange(Unread(l), |ask.blocks|), Requesting(y, l, ask))
  {
    hide Request, Exchange, Prompt, Sticky, Within, Outcome, Reusable, StopAndWait, Drained;
    RequestFacts(y, ask.declines, l, NEW_CLIENT, ask.head, ask.blocks);
  }

  // ---- All requests on the socket ----

  /** Every request fares as the runner's bytes say, up to one that is sent frames the buffers do not hold. */
  ghost predicate AllFare(xs: seq<Course>, rs: seq<Requested>)
  {
    && (forall j :: 0 <= j < |rs| && j < |xs| ==> Fared(xs[j], rs[j]))
    && (|rs| <= |xs| || (xs != [] && xs[|xs| - 1].Unruly?))
  }

  /** What the clients of a run have got. */
  function Clients(rs: seq<Requested>): seq<seq<byte>> { seq(|rs|, i requires 0 <= i < |rs| => rs[i].k.body) }

  /** The first request of a run, and the rest. */
  lemma RunStep(y: System, l: Line, asks: seq<Ask>)
    requires asks != []
    ensures Counts(asks)[1..] == Counts(asks[1..]) && Counts(asks)[0] == |asks[0].blocks|
    ensures var x, r := Exchange(Unread(l), |asks[0].blocks|), Requesting(y, l, asks[0]);
            && Run(y, l, asks) == [r] + (if Recycles(r) then Run(y, Recycled(r.l), asks[1..]) else [])
            && Courses(Unread(l), Counts(asks))
               == [x] + (if Reusable(x) then Courses(x.rest, Counts(asks[1..])) else [])
            && (PausesThroughout(y, Unread(l), Counts(asks)) ==>
                  && Pauses(y, Unread(l), |asks[0].blocks|)
                  && (Reusable(x) ==> PausesThroughout(y, x.rest, Counts(asks[1..]))))
  {
    hide Requesting, Exchange, Pauses;
    assert Counts(asks)[1..] == Counts(asks[1..]);
  }

  lemma ClientsFirst(r: Requested, rs: seq<Requested>)
    ensures Clients([r] + rs) == [r.k.body] + Clients(rs) && Clients([r] + []) == [r.k.body] && Clients([]) == []
  {
  }

  lemma RunEnds(y: System, l: Line)
    ensures Run(y, l, []) == []
  {
  }

  /**
   * On one socket, as long as the runner pauses after its answers, every request gets its own part
   * of the runner's bytes and no other, whatever fails.
   */
  lemma {:induction false} RunFares(y: System, l: Line, asks: seq<Ask>)
    requires l.open && l.buffered == [] && l.unsent == 0
    requires Steady(y, asks) && PausesThroughout(y, Unread(l), Counts(asks))
    ensures AllFare(Courses(Unread(l), Counts(asks)), Run(y, l, asks))
    decreases |asks|
  {
    if asks == [] {
    } else {
      hide Requesting, Exchange, Pauses, PausesThroughout, Within, Fared, Run, Courses, Reusable, AllFare;
      var x, r := Exchange(Unread(l), |asks[0].blocks|), Requesting(y, l, asks[0]);
      RunStep(y, l, asks);
      OneFares(y, l, asks[0]);
      if Recycles(r) && !x.Unruly? {
        FaredOn(x, r);
        assert Unread(Recycled(r.l)) == x.rest;
        RunFares(y, Recycled(r.l), asks[1..]);
        FirstFares(x, r, Courses(x.rest, Counts(asks[1..])), Run(y, Recycled(r.l), asks[1..]));
      } else {
        LastFares(x, r, if x.Finished? then Courses(x.rest, Counts(asks[1..])) else [],
                  Run(y, Recycled(r.l), asks[1..]));
      }
    }
  }

  lemma LastFares(x: Course, r: Requested, xs: seq<Course>, rs: seq<Requested>)
    requires Fared(x, r) && (!Recycles(r) || x.Unruly?)
    ensures AllFare([x] + if Reusable(x) then xs else [], [r] + if Recycles(r) then rs else [])
    ensures Reusable(x) ==> x.Finished?
  {
  }

  lemma FaredOn(x: Course, r: Requested)
    requires Fared(x, r) && Recycles(r) && !x.Unruly?
    ensures Reusable(x) && Unread(r.l) == x.rest && Recycled(r.l) == r.l
  {
  }

  lemma FirstFares(x: Course, r: Requested, xs: seq<Course>, rs: seq<Requested>)
    requires Fared(x, r) && AllFare(xs, rs)
    ensures AllFare([x] + xs, [r] + rs)
  {
    hide Fared;
    forall j | 0 <= j < |[r] + rs| && j < |[x] + xs| ensures Fared(([x] + xs)[j], ([r] + rs)[j]) {
      if j > 0 {
        assert ([x] + xs)[j] == xs[j - 1] && ([r] + rs)[j] == rs[j - 1];
      }
    }
  }

  // ---- When nothing fails ----

  /** No client declines anything. */
  ghost predicate TakeAll(asks: seq<Ask>)
  {
    forall i :: 0 <= i < |asks| ==> forall j: nat :: !asks[i].declines(j)
  }

  /** A request in full. */
  ghost predicate Full(x: Course, r: Requested)
  {
    x.Unruly? ||
    if x.Finished? then AllTold(NEW_CLIENT, x, r) && Recycles(r) == Reusable(x)
    else !r.l.open && Drained(NEW_CLIENT, x, r.k)
  }

  ghost predicate AllFull(xs: seq<Course>, rs: seq<Requested>)
  {
    && (forall j :: 0 <= j < |rs| && j < |xs| ==> Full(xs[j], rs[j]))
    && (|rs| == |xs| || (xs != [] && xs[|xs| - 1].Unruly?))
  }

  /** And each request of the runner's is served, in full. */
  lemma {:induction false} RunIsFull(y: System, l: Line, asks: seq<Ask>)
    requires Smooth(y, l) && l.buffered == [] && l.unsent == 0
    requires TakeAll(asks) && PausesThroughout(y, Unread(l), Counts(asks))
    ensures AllFull(Courses(Unread(l), Counts(asks)), Run(y, l, asks))
    decreases |asks|
  {
    if asks == [] {
    } else {
      hide Requesting, Exchange, Pauses, PausesThroughout, Within, Full, Smooth, Run, Courses, AllFull, Counts,
           Reusable;
      var x, r := Exchange(Unread(l), |asks[0].blocks|), Requesting(y, l, asks[0]);
      RunStep(y, l, asks);
      OneIsFull(y, l, asks[0]);
      if Reusable(x) {
        FullEnds(x, r);
        assert Unread(Recycled(r.l)) == x.rest;
        RunIsFull(y, Recycled(r.l), asks[1..]);
        FirstIsFull(x, r, Courses(x.rest, Counts(asks[1..])), Run(y, Recycled(r.l), asks[1..]));
      } else {
        LastIsFull(x, r, Run(y, Recycled(r.l), asks[1..]));
      }
    }
  }

  lemma OneIsFull(y: System, l: Line, ask: Ask)
    requires Smooth(y, l) && l.buffered == [] && l.unsent == 0
    requires forall j: nat :: !ask.declines(j)
    requires Pauses(y, Unread(l), |ask.blocks|)
    ensures var x, r := Exchange(Unread(l), |ask.blocks|), Requesting(y, l, ask);
            Full(x, r) && (Reusable(x) ==> Recycled(r.l) == r.l && Unread(r.l) == x.rest && Smooth(y, r.l))
  {
    hide Request, Exchange, Prompt, Sticky, Within, Outcome, StopAndWait, Drained;
    RequestFacts(y, ask.declines, l, NEW_CLIENT, ask.head, ask.blocks);
  }

  lemma FirstIsFull(x: Course, r: Requested, xs: seq<Course>, rs: seq<Requested>)
    requires Full(x, r) && AllFull(xs, rs)
    ensures AllFull([x] + xs, [r] + rs)
  {
    hide Full;
    forall j | 0 <= j < |[r] + rs| && j < |[x] + xs| ensures Full(([x] + xs)[j], ([r] + rs)[j]) {
      if j > 0 {
        assert ([x] + xs)[j] == xs[j - 1] && ([r] + rs)[j] == rs[j - 1];
      }
    }
  }

  lemma FullEnds(x: Course, r: Requested)
    requires Full(x, r) && Reusable(x)
    ensures Recycles(r)
  {
  }

  lemma LastIsFull(x: Course, r: Requested, rs: seq<Requested>)
    requires Full(x, r) && !Reusable(x)
    ensures AllFull([x] + [], [r] + if Recycles(r) then rs else [])
  {
  }

  // ---- Runners that keep the protocol ----

  /** The answers of several requests, one after the other on the wire. */
  function EncodeDialogues(ds: seq<seq<seq<Item>>>): seq<byte>
  {
    if ds == [] then [] else EncodeAnswers(ds[0]) + EncodeDialogues(ds[1..])
  }

  /** A runner that keeps the protocol for each request, and lets its socket be used again after each. */
  ghost predicate Dialogues(ds: seq<seq<seq<Item>>>, ns: seq<nat>)
  {
    |ds| == |ns| && forall i :: 0 <= i < |ds| ==> Dialogue(ds[i], ns[i]) && EndsWithEnd(ds[i])
  }

  predicate EndsWithEnd(answers: seq<seq<Item>>)
  {
    answers != [] && answers[|answers| - 1] != [] && LastCode(answers[|answers| - 1]) == END
  }

  /** These courses, with these answers. */
  ghost predicate FinishedWith(xs: seq<Course>, ds: seq<seq<seq<Item>>>)
  {
    |xs| == |ds| && forall i :: 0 <= i < |ds| ==> xs[i].Finished? && xs[i].answers == ds[i]
  }

  /** Its bytes are taken for exactly these answers, request by request. */
  lemma {:induction false} DialoguesFinish(ds: seq<seq<seq<Item>>>, ns: seq<nat>, rest: seq<byte>)
    requires Dialogues(ds, ns)
    ensures FinishedWith(Courses(EncodeDialogues(ds) + rest, ns), ds)
    decreases |ds|
  {
    if ds == [] {
    } else {
      hide Dialogues, FinishedWith, Courses, EncodeDialogues;
      var more := EncodeDialogues(ds[1..]) + rest;
      FirstDialogue(ds, ns, rest);
      DialoguesFinish(ds[1..], ns[1..], rest);
      FirstFinished(Finished(ds[0], more), Courses(more, ns[1..]), ds);
    }
  }

  lemma FirstDialogue(ds: seq<seq<seq<Item>>>, ns: seq<nat>, rest: seq<byte>)
    requires Dialogues(ds, ns) && ds != []
    ensures ns != [] && Dialogues(ds[1..], ns[1..])
    ensures var more := EncodeDialogues(ds[1..]) + rest;
            Courses(EncodeDialogues(ds) + rest, ns) == [Finished(ds[0], more)] + Courses(more, ns[1..])
  {
    hide Dialogue, Exchange, EncodeAnswers, EndsWithEnd, Courses;
    var more := EncodeDialogues(ds[1..]) + rest;
    assert EncodeDialogues(ds) + rest == EncodeAnswers(ds[0]) + more;
    assert Dialogue(ds[0], ns[0]) && EndsWithEnd(ds[0]);
    DialogueFinishes(ds[0], ns[0], more);
    OneCourse(EncodeDialogues(ds) + rest, ns, ds[0], more);
  }

  lemma FirstFinished(x: Course, xs: seq<Course>, ds: seq<seq<seq<Item>>>)
    requires ds != [] && x.Finished? && x.answers == ds[0] && FinishedWith(xs, ds[1..])
    ensures FinishedWith([x] + xs, ds)
  {
    forall i | 0 <= i < |ds| ensures ([x] + xs)[i].Finished? && ([x] + xs)[i].answers == ds[i] {
      assert i > 0 ==> ([x] + xs)[i] == xs[i - 1] && ds[i] == ds[1..][i - 1];
    }
  }

  lemma OneCourse(u: seq<byte>, ns: seq<nat>, answers: seq<seq<Item>>, rest: seq<byte>)
    requires ns != [] && Exchange(u, ns[0]) == Finished(answers, rest) && EndsWithEnd(answers)
    ensures Courses(u, ns) == [Finished(answers, rest)] + Courses(rest, ns[1..])
  {
    hide Exchange;
  }

  /** So on one socket every client gets the body of its own answers, and the socket is given back each time. */
  lemma EveryRequestServed(y: System, l: Line, asks: seq<Ask>, ds: seq<seq<seq<Item>>>, rest: seq<byte>)
    requires Smooth(y, l) && l.buffered == [] && l.unsent == 0 && l.incoming == EncodeDialogues(ds) + rest
    requires Dialogues(ds, Counts(asks))
    requires TakeAll(asks) && PausesThroughout(y, l.incoming, Counts(asks))
    ensures var rs := Run(y, l, asks);
            |rs| == |asks| && forall i :: 0 <= i < |rs| ==> rs[i].k.body == Bodies(ds[i]) && Recycles(rs[i])
  {
    hide Dialogue, Exchange, EncodeAnswers, Run, Courses, Bodies, PausesThroughout;
    assert Unread(l) == l.incoming;
    DialoguesFinish(ds, Counts(asks), rest);
    RunIsFull(y, l, asks);
    var xs, rs := Courses(l.incoming, Counts(asks)), Run(y, l, asks);
    forall i | 0 <= i < |rs| ensures rs[i].k.body == Bodies(ds[i]) && Recycles(rs[i]) {
      assert Full(xs[i], rs[i]);
      assert Dialogue(ds[i], Counts(asks)[i]) && EndsWithEnd(ds[i]);
      assert Bodies(ds[i]) + [] == Bodies(ds[i]) && [] + Bodies(ds[i]) == Bodies(ds[i]);
    }
  }

  /** And whatever fails, no client gets anything of another's answers. */
  lemma NoAnswerGoesAstray(y: System, l: Line, asks: seq<Ask>, ds: seq<seq<seq<Item>>>, rest: seq<byte>)
    requires l.open && l.buffered == [] && l.unsent == 0 && l.incoming == EncodeDialogues(ds) + rest
    requires Dialogues(ds, Counts(asks))
    requires Steady(y, asks) && PausesThroughout(y, l.incoming, Counts(asks))
    ensures forall i :: 0 <= i < |Run(y, l, asks)| ==> Run(y, l, asks)[i].k.body <= Bodies(ds[i])
  {
    hide Dialogue, Exchange, EncodeAnswers, Run, Courses, Bodies, PausesThroughout;
    assert Unread(l) == l.incoming;
    DialoguesFinish(ds, Counts(asks), rest);
    RunFares(y, l, asks);
    var xs, rs := Courses(l.incoming, Counts(asks)), Run(y, l, asks);
    forall i | 0 <= i < |rs| ensures rs[i].k.body <= Bodies(ds[i]) {
      assert Fared(xs[i], rs[i]);
      assert Bodies(ds[i]) + [] == Bodies(ds[i]) && [] + Bodies(ds[i]) == Bodies(ds[i]);
    }
  }

  // ---- The pause is needed ----

  /** A request on an emptied stream gives its socket back at the boundary, whatever is written and whatever fails. */
  ghost predicate RequestsHandBack(n: nat, paused: bool)
  {
    forall y: System, l: Line, ask: Ask ::
      Fresh(y, l, n) && |ask.blocks| == n && (paused ==> Pauses(y, Unread(l), n)) ==>
        HandsBack(Exchange(Unread(l), n), Requesting(y, l, ask))
  }

  ghost predicate Fresh(y: System, l: Line, n: nat)
  {
    l.open && l.buffered == [] && l.unsent == 0 && (Sticky(y) || n <= 1)
  }

  /** The socket is at the boundary for certain exactly if the runner pauses, the last time after its last answer. */
  lemma HandsBackExactly(n: nat, paused: bool)
    ensures RequestsHandBack(n, paused) <==> paused
  {
    hide HandsBack, Pauses, Requesting, Exchange, Hasty, Sticky;
    if paused {
      forall y: System, l: Line, ask: Ask | Fresh(y, l, n) && |ask.blocks| == n && Pauses(y, Unread(l), n)
        ensures HandsBack(Exchange(Unread(l), n), Requesting(y, l, ask))
      {
        OneFares(y, l, ask);
      }
    } else {
      var l, ask := Line([], Hasty(n), 0, 0, true), Ask([], Bytes(n), TAKES_ALL);
      NotHandedBack(n);
      assert Fresh(RUSHES, l, n) by {
        Rushes();
      }
    }
  }

  lemma NotHandedBack(n: nat)
    ensures var l := Line([], Hasty(n), 0, 0, true);
            !HandsBack(Exchange(Unread(l), n), Requesting(RUSHES, l, Ask([], Bytes(n), TAKES_ALL)))
  {
    hide Requesting, Exchange, Outcome;
    LostWithTheStream(n);
    var l := Line([], Hasty(n), 0, 0, true);
    assert Unread(l) == Hasty(n);
  }

  /** Nothing fails, and every receive yields all that the buffer holds. */
  const RUSHES: System := System(j => false, m => false, j => BUF_LENGTH - 1)

  lemma Rushes()
    ensures Sticky(RUSHES)
  {
  }

  /** As many end frames as the request waits for, and one more. */
  function Hasty(n: nat): seq<byte> { if n <= 1 then HIDDEN_ENDS else [END, 0, 0, 0] + HIDDEN_ENDS }

  /** A wait that receives everything there is. */
  lemma AllReceived(l: Line, k: Sink, ack: byte)
    requires l.open && l.buffered == [] && l.unsent > 0 && 0 < |l.incoming| <= BUF_LENGTH
    ensures var m := l.(buffered := l.incoming, incoming := [], unsent := 0, calls := l.calls + 2);
            Serve(RUSHES, TAKES_ALL, l, k, ack) == Serve(RUSHES, TAKES_ALL, m, k, ack)
  {
    hide Switch;
    var m := l.(buffered := l.incoming, incoming := [], unsent := 0, calls := l.calls + 2);
    assert Fill(RUSHES, l) == Tried(true, m);
    assert Byte(RUSHES, l) == Byte(RUSHES, m);
    hide Byte;
    assert ReadHead(RUSHES, l) == ReadHead(RUSHES, m);
    hide ReadHead;
    assert Step(RUSHES, TAKES_ALL, l, k) == Step(RUSHES, TAKES_ALL, m, k);
  }

  /** An end frame already received. */
  lemma EndReceived(l: Line, k: Sink, ack: byte, rest: seq<byte>)
    requires l.open && l.buffered == [END, 0, 0, 0] + rest
    ensures Serve(RUSHES, TAKES_ALL, l, k, ack) == Turn(END, false, l.(buffered := rest), k, true)
  {
    hide Step, Serve;
    EndTurn(l, k);
    OneTurn(l, k, ack);
    assert l.buffered[4..] == rest;
  }

  lemma OneTurn(l: Line, k: Sink, ack: byte)
    requires Step(RUSHES, TAKES_ALL, l, k).code == END
    ensures Serve(RUSHES, TAKES_ALL, l, k, ack) == Step(RUSHES, TAKES_ALL, l, k)
  {
  }

  lemma EndTurn(l: Line, k: Sink)
    requires l.open && |l.buffered| >= 4 && l.buffered[0] == END
    requires Length(l.buffered[1], l.buffered[2], l.buffered[3]) == 0
    ensures Step(RUSHES, TAKES_ALL, l, k) == Turn(END, false, l.(buffered := l.buffered[4..]), k, true)
  {
    hide ReadHead, Copy, ReadString;
    BufferedHead(RUSHES, l);
    BufferedTake(RUSHES, ReadHead(RUSHES, l).l, 0);
  }

  /** What came with the last answer is lost with the stream: the socket is beyond the boundary. */
  lemma LostWithTheStream(n: nat)
    ensures var l := Line([], Hasty(n), 0, 0, true);
            var x, r := Exchange(Hasty(n), n), Requesting(RUSHES, l, Ask([], Bytes(n), TAKES_ALL));
            && AllTold(NEW_CLIENT, x, r) && Recycles(r)
            && x.rest == [END, 0, 0, 0] && Recycled(r.l).incoming == []
  {
    hide Serve, Exchange, Request, Final, Outcome;
    var l := Line([], Hasty(n), 0, 0, true);
    HastyExchange(n);
    var last := Line(HIDDEN_ENDS, [], if n <= 1 then 0 else 4, 2, true);
    assert HIDDEN_ENDS == [END, 0, 0, 0] + [END, 0, 0, 0];
    EndReceived(last, NEW_CLIENT, END, [END, 0, 0, 0]);
    if n <= 1 {
      AllReceived(l.(unsent := 5 * n + 4), NEW_CLIENT, END);
      NoWait(RUSHES, TAKES_ALL, l, NEW_CLIENT, n);
    } else {
      AllReceived(l.(unsent := 5), NEW_CLIENT, ACK);
      EndReceived(Line(Hasty(n), [], 0, 2, true), NEW_CLIENT, ACK, HIDDEN_ENDS);
      OneWait(RUSHES, TAKES_ALL, l, NEW_CLIENT, n);
    }
  }

  /** What these bytes are meant to be. */
  lemma HastyExchange(n: nat)
    ensures var x := Exchange(Hasty(n), n); x.Finished? && x.rest == [END, 0, 0, 0] && Outcome(x) == []
  {
    hide Answered, Encode, GoesOn;
    var e := Packet(END, []);
    HiddenEnds(END);
    FinalOutcome(HIDDEN_ENDS);
    NoItems(0);
    OneEmpty(e);
    if n > 1 {
      HiddenEnds(ACK);
      OneEnd(e, HIDDEN_ENDS, ACK);
      assert Encode(e) == [END, 0, 0, 0] by {
        EndFrame();
      }
      var a := Answered(Hasty(n), ACK);
      EndsUpload(a);
      NoBodies(a.items);
      BodiesAppend([a.items], [a.items]);
    }
  }

  lemma EndFrame()
    ensures Encode(Packet(END, [])) == [END, 0, 0, 0]
  {
  }

  lemma OneEmpty(p: Packet)
    requires p.code != DATA
    ensures Body([Plain(p)]) == []
  {
    assert [Plain(p)][1..] == [];
  }
}
