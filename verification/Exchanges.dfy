/**
 * `write_request` as a function on the line and the client, and what it promises: the head, the
 * body blocks in stop-and-wait, the end, and the answer.
 */
module Exchanges {
  import opened Wrappers
  import opened Packets
  import opened Lines
  import opened Answers
  import opened Serving

  function DataPackets(blocks: seq<seq<byte>>): seq<Packet>
  {
    seq(|blocks|, i requires 0 <= i < |blocks| => Packet(DATA, blocks[i]))
  }

  // ---- A request in terms of the runner's bytes ----

  /** An answer after which the next block goes out: it ends with an acknowledgement, or with code 0. */
  predicate GoesOn(a: Answer)
  {
    a.Whole? && a.items != [] && LastCode(a.items) != END && LastCode(a.items) != CLOSE
  }

  /** The bytes ahead once k answers have let the upload go on. */
  function After(u: seq<byte>, k: nat): Option<seq<byte>>
    decreases k
  {
    if k == 0 then Some(u)
    else if GoesOn(Answered(u, ACK)) then After(Answered(u, ACK).rest, k - 1)
    else None
  }

  /** The frames of those answers. */
  function Frames(u: seq<byte>, k: nat): seq<Item>
    decreases k
  {
    if k == 0 || !GoesOn(Answered(u, ACK)) then []
    else Answered(u, ACK).items + Frames(Answered(u, ACK).rest, k - 1)
  }

  /** How many frames acknowledge a block; the code lets a frame with code 0 pass as well. */
  function Acks(items: seq<Item>): nat
  {
    if items == [] then 0
    else Acks(items[..|items| - 1])
         + if items[|items| - 1].Plain? && items[|items| - 1].p.code in {ACK, 0} then 1 else 0
  }

  /** Written when exactly j answers had been read, and each had let it go out. */
  ghost predicate InTurn(u: seq<byte>, mark: Mark, j: nat)
  {
    mark.open ==> After(u, j).Some? && mark.unread == |After(u, j).value|
  }

  /** Every block was written in its turn, as long as the stream was open. */
  ghost predicate StopAndWait(u: seq<byte>, marks: seq<Mark>)
  {
    forall j :: 0 <= j < |marks| ==> InTurn(u, marks[j], j)
  }

  /** How a whole request goes. */
  datatype Course =
    | Finished(answers: seq<seq<Item>>, rest: seq<byte>)
    | Stalled(answers: seq<seq<Item>>, part: seq<byte>)
    | Unruly(answers: seq<seq<Item>>)

  function Further(past: seq<seq<Item>>, x: Course): Course { x.(answers := past + x.answers) }

  /** The answer to the end packet. */
  function Final(u: seq<byte>): Course
  {
    match Answered(u, END)
    case Whole(items, rest) => Finished([items], rest)
    case Broken(items, part) => Stalled([], Body(items) + part)
    case Wild(_) => Unruly([])
  }

  /** A request with n blocks: an answer before every block but the first, until one ends the upload. */
  function Exchange(u: seq<byte>, n: nat): Course
    decreases n
  {
    if n <= 1 then Final(u) else
      match Answered(u, ACK)
      case Whole(items, rest) =>
        Further([items], if GoesOn(Whole(items, rest)) then Exchange(rest, n - 1) else Final(rest))
      case Broken(items, part) => Stalled([], Body(items) + part)
      case Wild(_) => Unruly([])
  }

  function Bodies(answers: seq<seq<Item>>): seq<byte>
  {
    if answers == [] then [] else Body(answers[0]) + Bodies(answers[1..])
  }

  /** What the client gets of it. */
  function Outcome(x: Course): seq<byte>
  {
    Bodies(x.answers) + if x.Stalled? then x.part else []
  }

  // ---- Runners that keep the protocol ----

  /** The answers one request gets, one after the other on the wire. */
  function EncodeAnswers(answers: seq<seq<Item>>): seq<byte>
  {
    if answers == [] then [] else EncodeItems(answers[0]) + EncodeAnswers(answers[1..])
  }

  /**
   * A runner that keeps the protocol for n blocks: one complete answer before every block but
   * the first, until one of them ends the exchange, and one complete answer to the end packet.
   */
  ghost predicate Dialogue(answers: seq<seq<Item>>, n: nat)
    decreases n
  {
    && answers != []
    && if n <= 1 then |answers| == 1 && Complete(answers[0], END)
       else
         && Complete(answers[0], ACK)
         && if LastCode(answers[0]) == END || LastCode(answers[0]) == CLOSE
            then |answers| == 2 && Complete(answers[1], END)
            else Dialogue(answers[1..], n - 1)
  }

  /** Such a dialogue ends with a complete answer to the end packet. */
  lemma {:induction false} LastComplete(answers: seq<seq<Item>>, n: nat)
    requires Dialogue(answers, n)
    ensures answers != [] && Complete(answers[|answers| - 1], END)
    decreases n
  {
    hide WellFormed, Stops;
    if n > 1 && LastCode(answers[0]) != END && LastCode(answers[0]) != CLOSE {
      LastComplete(answers[1..], n - 1);
    }
  }

  /** A request to such a runner finishes with exactly its answers, whatever follows them. */
  lemma {:induction false} DialogueFinishes(answers: seq<seq<Item>>, n: nat, rest: seq<byte>)
    requires Dialogue(answers, n)
    ensures Exchange(EncodeAnswers(answers) + rest, n) == Finished(answers, rest)
    decreases n
  {
    hide Complete, Answered, EncodeItems;
    var more := EncodeAnswers(answers[1..]) + rest;
    assert EncodeAnswers(answers) + rest == EncodeItems(answers[0]) + more;
    AnswerReadsBack(answers[0], if n <= 1 then END else ACK, more);
    if n <= 1 {
      assert EncodeAnswers([]) + rest == rest;
      assert answers == [answers[0]];
    } else if LastCode(answers[0]) == END || LastCode(answers[0]) == CLOSE {
      AnswerReadsBack(answers[1], END, rest);
      assert answers[1..] == [answers[1]] && EncodeAnswers(answers[1..]) == EncodeItems(answers[1]) + EncodeAnswers([]);
      assert more == EncodeItems(answers[1]) + rest;
      assert answers == [answers[0]] + [answers[1]];
      CompleteIsThere(answers[0], ACK);
    } else {
      DialogueFinishes(answers[1..], n - 1, rest);
      assert answers == [answers[0]] + answers[1..];
      CompleteIsThere(answers[0], ACK);
    }
  }

  lemma CompleteIsThere(items: seq<Item>, ack: byte)
    requires Complete(items, ack)
    ensures items != []
  {
  }

  // ---- Steps of a request ----

  lemma {:induction false} AfterNext(u: seq<byte>, k: nat)
    requires After(u, k).Some? && GoesOn(Answered(After(u, k).value, ACK))
    ensures After(u, k + 1) == Some(Answered(After(u, k).value, ACK).rest)
    decreases k
  {
    hide Answered;
    if k == 0 {
      assert After(Answered(u, ACK).rest, 0) == Some(Answered(u, ACK).rest);
    } else {
      AfterNext(Answered(u, ACK).rest, k - 1);
    }
  }

  lemma {:induction false} AfterShrinks(u: seq<byte>, k: nat)
    requires After(u, k + 1).Some?
    ensures After(u, k).Some? && |After(u, k + 1).value| < |After(u, k).value|
    decreases k
  {
    hide Answered;
    var a := Answered(u, ACK);
    if k == 0 {
      assert After(a.rest, 0) == Some(a.rest);
    } else {
      AfterShrinks(a.rest, k - 1);
    }
  }

  /** In stop-and-wait, part of the runner's answers is read between any two blocks. */
  lemma EachBlockWaits(u: seq<byte>, marks: seq<Mark>, j: nat)
    requires StopAndWait(u, marks) && j + 1 < |marks| && marks[j].open && marks[j + 1].open
    ensures marks[j + 1].unread < marks[j].unread
  {
    hide After;
    assert InTurn(u, marks[j], j) && InTurn(u, marks[j + 1], j + 1);
    AfterShrinks(u, j);
  }

  lemma {:induction false} AcksAppend(a: seq<Item>, b: seq<Item>)
    ensures Acks(a + b) == Acks(a) + Acks(b)
    decreases |b|
  {
    if b == [] {
      assert a + b == a;
    } else {
      assert (a + b)[..|a + b| - 1] == a + b[..|b| - 1];
      AcksAppend(a, b[..|b| - 1]);
    }
  }

  lemma {:induction false} NoAcks(items: seq<Item>)
    requires forall k :: 0 <= k < |items| ==> !Stops(items[k], ACK)
    ensures Acks(items) == 0
  {
    if items == [] {
    } else {
      assert !Stops(items[|items| - 1], ACK);
      NoAcks(items[..|items| - 1]);
    }
  }

  /** An answer that lets the upload go on holds one acknowledgement. */
  lemma OneAck(u: seq<byte>)
    requires GoesOn(Answered(u, ACK))
    ensures Acks(Answered(u, ACK).items) == 1
  {
    hide Answered;
    var items := Answered(u, ACK).items;
    AnswerStops(u, ACK);
    assert Stops(items[|items| - 1], ACK);
    var before := items[..|items| - 1];
    assert forall k :: 0 <= k < |before| ==> before[k] == items[k] && !Stops(before[k], ACK);
    NoAcks(before);
  }

  /** As many acknowledgements as answers have been read: never more blocks than that, plus one. */
  lemma {:induction false} BlocksNeverOutrunAcks(u: seq<byte>, k: nat)
    requires After(u, k).Some?
    ensures Acks(Frames(u, k)) == k
    decreases k
  {
    hide Answered, Acks;
    if k == 0 {
      assert Acks([]) == 0 by {
        NoAcks([]);
      }
    } else {
      OneAck(u);
      AcksAppend(Answered(u, ACK).items, Frames(Answered(u, ACK).rest, k - 1));
      BlocksNeverOutrunAcks(Answered(u, ACK).rest, k - 1);
    }
  }

  lemma {:induction false} BodiesAppend(a: seq<seq<Item>>, b: seq<seq<Item>>)
    ensures Bodies(a + b) == Bodies(a) + Bodies(b)
    decreases |a|
  {
    hide Body;
    if a == [] {
      assert a + b == b;
    } else {
      assert (a + b)[1..] == a[1..] + b;
      BodiesAppend(a[1..], b);
    }
  }

  /** One more answer of a request of n blocks, and what it adds to what the client gets. */
  lemma OneAnswer(past: seq<seq<Item>>, v: seq<byte>, n: nat)
    ensures var x := Further(past, Exchange(v, n));
            var a := Answered(v, if n <= 1 then END else ACK);
            && (!a.Wild? ==> Bodies(past) <= Bodies(past) + Delivered(a) <= Outcome(x))
            && (a.Broken? ==> x.Stalled? && Outcome(x) == Bodies(past) + Delivered(a))
            && (a.Wild? ==> x.Unruly?)
            && (a.Whole? ==> Bodies(past + [a.items]) == Bodies(past) + Delivered(a))
            && (a.Whole? && n <= 1 ==> x == Finished(past + [a.items], a.rest))
            && (a.Whole? && n > 1 ==>
                  x == Further(past + [a.items], if GoesOn(a) then Exchange(a.rest, n - 1) else Final(a.rest)))
  {
    hide Answered, Body, GoesOn;
    var a := Answered(v, if n <= 1 then END else ACK);
    var x := Exchange(v, n);
    assert past + [] == past;
    if a.Whole? {
      var rest := if n <= 1 then Finished([], a.rest) else if GoesOn(a) then Exchange(a.rest, n - 1) else Final(a.rest);
      assert [a.items] + [] == [a.items];
      assert past + ([a.items] + rest.answers) == (past + [a.items]) + rest.answers;
      BodiesAppend(past, [a.items]);
      assert [a.items][1..] == [];
      BodiesAppend(past + [a.items], rest.answers);
    }
  }

  // ---- The request as a function on the line ----

  /** The body: how many blocks were written, when, and where that leaves the line and the client. */
  datatype Sent = Sent(n: nat, marks: seq<Mark>, l: Line, k: Sink)

  /** One block: whether it was written, when, and where that leaves the line and the client. */
  datatype Advance = Advance(stopped: bool, unread: nat, open: bool, l: Line, k: Sink)

  /** Before every block but the first, the answer to the previous one. */
  function Advanced(y: System, d: Declines, l: Line, k: Sink, blocks: seq<seq<byte>>, i: nat): (a: Advance)
    requires i < |blocks|
    ensures k.writes <= a.k.writes
  {
    var w := if i == 0 then Turn(0, false, l, k, true) else Serve(y, d, l, k, ACK);
    if w.code < 0 || w.code == END || w.code == CLOSE then Advance(true, 0, false, w.l, w.k)
    else Advance(false, |Unread(w.l)|, w.l.open, Packed(y, w.l, |blocks[i]|), w.k)
  }

  function Sending(y: System, d: Declines, l: Line, k: Sink, blocks: seq<seq<byte>>, i: nat): (r: Sent)
    requires i <= |blocks|
    ensures r.n == i + |r.marks| <= |blocks| && k.writes <= r.k.writes
    decreases |blocks| - i
  {
    if i == |blocks| then Sent(i, [], l, k)
    else
      var a := Advanced(y, d, l, k, blocks, i);
      if a.stopped then Sent(i, [], a.l, a.k)
      else
        var r := Sending(y, d, a.l, a.k, blocks, i + 1);
        r.(marks := [Mark(Packet(DATA, blocks[i]), a.unread, a.open)] + r.marks)
  }

  /** The line on which `write_request` waits for the answer to the end packet. */
  function LastWait(y: System, d: Declines, l: Line, k: Sink, head: seq<Packet>, blocks: seq<seq<byte>>): Line
  {
    Packed(y, Sending(y, d, PackedAll(y, l, head), k, blocks, 0).l, 0)
  }

  datatype Requested = Requested(reuse: bool, n: nat, marks: seq<Mark>, l: Line, k: Sink)

  /** `write_request` */
  function Request(y: System, d: Declines, l: Line, k: Sink, head: seq<Packet>, blocks: seq<seq<byte>>): Requested
  {
    var s := Sending(y, d, PackedAll(y, l, head), k, blocks, 0);
    var w := Serve(y, d, Packed(y, s.l, 0), s.k, END);
    Requested(w.code == END, s.n, s.marks, w.l, w.k)
  }

  /** The runner pauses after every answer until it is sent more. */
  ghost predicate Prompt(y: System, u: seq<byte>)
  {
    forall k: nat :: After(u, k).Some? && Answered(After(u, k).value, ACK).Whole? ==>
      y.stops(|Answered(After(u, k).value, ACK).rest|)
  }

  /** How many answers may still come, with i blocks of n written. */
  function Waits(n: nat, i: nat): nat
    requires i <= n
  {
    if i == 0 then n else n - i + 1
  }

  /** The client has a part of what it is to get. */
  ghost predicate Within(k: Sink, x: Course, r: Sink) { k.body <= r.body <= k.body + Outcome(x) }

  /** The client has all that a stalled request gives it. */
  ghost predicate Drained(k: Sink, x: Course, r: Sink) { x.Stalled? && r.body == k.body + Outcome(x) }

  /** Only the answer to the end packet is still to come. */
  ghost predicate Over(k: Sink, x: Course, past: seq<seq<Item>>, l: Line, r: Sink)
  {
    l.open && x == Further(past, Final(Unread(l))) && r.body == k.body + Bodies(past)
  }

  lemma PromptOn(y: System, u: seq<byte>)
    requires Prompt(y, u) && Answered(u, ACK).Whole?
    ensures y.stops(|Answered(u, ACK).rest|)
    ensures GoesOn(Answered(u, ACK)) ==> Prompt(y, Answered(u, ACK).rest)
  {
    hide Answered;
    var rest := Answered(u, ACK).rest;
    assert After(u, 0) == Some(u);
    if GoesOn(Answered(u, ACK)) {
      forall k: nat | After(rest, k).Some? && Answered(After(rest, k).value, ACK).Whole?
        ensures y.stops(|Answered(After(rest, k).value, ACK).rest|)
      {
        assert After(u, k + 1) == After(rest, k);
      }
    }
  }

  /** Marks from the second block on, seen from the first. */
  lemma MarksOn(u: seq<byte>, marks: seq<Mark>, off: nat)
    requires GoesOn(Answered(u, ACK))
    requires forall j :: 0 <= j < |marks| ==> InTurn(Answered(u, ACK).rest, marks[j], j + off)
    ensures forall j :: 0 <= j < |marks| ==> InTurn(u, marks[j], j + 1 + off)
  {
    hide Answered;
    forall j | 0 <= j < |marks| ensures InTurn(u, marks[j], j + 1 + off) {
      assert InTurn(Answered(u, ACK).rest, marks[j], j + off);
      assert After(u, j + 1 + off) == After(Answered(u, ACK).rest, j + off);
    }
  }

  /** The runs of an upload about which something is certain at its end. */
  ghost predicate Certain(y: System, l: Line, to: nat, n: nat)
  {
    Quiet(y, l.calls, to) || Sticky(y) || n <= 1
  }

  /** The runs in which every wait stands at the start of an answer. */
  ghost predicate Careful(y: System, l: Line, to: nat, n: nat)
  {
    Quiet(y, l.calls, to) || n <= 1 || (l.buffered == [] && Prompt(y, Unread(l)))
  }

  /** Only marks of a closed line. */
  ghost predicate AllClosed(marks: seq<Mark>)
  {
    forall j :: 0 <= j < |marks| ==> !marks[j].open
  }

  /** What the body of a request promises when n answers may still come; over: all but the last are in. */
  ghost predicate Uploaded(y: System, d: Declines, l: Line, k: Sink, n: nat, off: nat, r: Sent, over: bool,
                           past: seq<seq<Item>>)
  {
    var u, x := Unread(l), Exchange(Unread(l), n);
    && l.calls <= r.l.calls && k.writes <= r.k.writes && k.body <= r.k.body
    && (r.l.open ==> l.open) && (Fits(y, l) ==> Fits(y, r.l))
    && (Dead(y, l) ==> Dead(y, r.l) && r.k.body == k.body) && (over ==> r.l.open) && (!l.open ==> AllClosed(r.marks))
    && (l.open && !x.Unruly? && Certain(y, l, r.l.calls, n) ==>
          if over then Over(k, x, past, r.l, r.k)
          else Within(k, x, r.k) && Dead(y, r.l) && (Quiet(y, l.calls, r.l.calls) ==> !r.l.open))
    && (l.open && !x.Unruly? && Quiet(y, l.calls, r.l.calls) && Willing(d, k.writes, r.k.writes) && !over ==>
          Drained(k, x, r.k))
    && (l.open && !x.Unruly? && Fits(y, l) && Certain(y, l, r.l.calls, n) && over ==>
          if n <= 1 then r.l.buffered == l.buffered else Prompt(y, u) ==> r.l.buffered == [])
    && (l.open && !x.Unruly? && Fits(y, l) && Careful(y, l, r.l.calls, n) ==>
          forall j :: 0 <= j < |r.marks| ==> InTurn(u, r.marks[j], j + off))
  }

  lemma NoMoreBlocks(v: seq<byte>, n: nat)
    requires n <= 1
    ensures Exchange(v, n) == Final(v)
  {
  }

  /** Nothing has been read yet. */
  lemma NothingYet(k: Sink, x: Course)
    ensures Further([], x) == x && k.body + Bodies([]) == k.body && Within(k, x, k)
  {
    assert [] + x.answers == x.answers;
  }

  /** All blocks written. */
  lemma AllSent(y: System, d: Declines, l: Line, k: Sink, n: nat, off: nat, i: nat)
    requires n <= 1
    ensures Uploaded(y, d, l, k, n, off, Sent(i, [], l, k), l.open, [])
  {
    hide Final, Exchange, Bodies, Outcome, Fits, Sticky;
    NoMoreBlocks(Unread(l), n);
    NothingYet(k, Exchange(Unread(l), n));
  }

  /** One more block, written to a line from which the rest of the upload goes on. */
  lemma BlockFirst(y: System, d: Declines, l: Line, k: Sink, n: nat, mark: Mark, len: nat, r: Sent, over: bool,
                   past: seq<seq<Item>>)
    requires Uploaded(y, d, Packed(y, l, len), k, n, 1, r, over, past)
    requires mark.open == l.open && mark.unread == |Unread(l)|
    ensures Uploaded(y, d, l, k, n, 0, r.(marks := [mark] + r.marks), over, past)
  {
    hide Packed, Final, Exchange, Bodies, Outcome, Fits, Sticky, Prompt, Answered, Jammed;
    var m := Packed(y, l, len);
    PackedFacts(y, l, len);
    PackedFits(y, l, len);
    NothingYet(k, Exchange(Unread(l), n));
    ClosedMarks(Unread(l), r.marks, 1);
    assert After(Unread(l), 0) == Some(Unread(l));
    var all := [mark] + r.marks;
    assert forall j :: 0 < j < |all| ==> all[j] == r.marks[j - 1];
  }

  lemma PackedFits(y: System, l: Line, len: nat)
    ensures Fits(y, l) ==> Fits(y, Packed(y, l, len))
  {
    PackedFacts(y, l, len);
  }

  lemma ClosedMarks(u: seq<byte>, marks: seq<Mark>, off: nat)
    ensures AllClosed(marks) ==> forall j :: 0 <= j < |marks| ==> InTurn(u, marks[j], j + off)
  {
  }

  /** One answer told, as the first of a request. */
  lemma FirstAnswer(k: Sink, u: seq<byte>, n: nat, w: Turn)
    requires Told(Answered(u, if n <= 1 then END else ACK), k, w) && !Exchange(u, n).Unruly?
    ensures var a, x := Answered(u, if n <= 1 then END else ACK), Exchange(u, n);
            && !a.Wild? && Within(k, x, w.k)
            && (a.Broken? ==> x.Stalled? && k.body + Delivered(a) == k.body + Outcome(x))
            && (w.whole ==>
                  && a.Whole? && a.items != [] && w.code == LastCode(a.items) && Unread(w.l) == a.rest
                  && w.k.body == k.body + Body(a.items) && Bodies([a.items]) == Body(a.items)
                  && x == (if n <= 1 then Finished([a.items], a.rest)
                           else Further([a.items], if GoesOn(a) then Exchange(a.rest, n - 1) else Final(a.rest))))
  {
    hide Answered, Exchange, Final, Body, Bodies, Outcome, GoesOn, Unread, Events, Keeps;
    OneAnswer([], u, n);
    NothingYet(k, Exchange(u, n));
    var a, x := Answered(u, if n <= 1 then END else ACK), Exchange(u, n);
    Between(k.body, [], Delivered(a), Outcome(x), w.k.body);
    NoBodies(a.items);
    assert Bodies([]) + Delivered(a) == Delivered(a);
    assert [] + [a.items] == [a.items];
  }

  lemma NoBodies(items: seq<Item>)
    ensures Bodies([]) == [] && Bodies([items]) == Body(items)
  {
    hide Body;
    assert [items][1..] == [];
  }

  /** An answer that ends the upload. */
  lemma UploadStops(y: System, d: Declines, l: Line, k: Sink, n: nat, i: nat, w: Turn)
    requires n > 1 && Served(y, d, l, k, ACK, w) && k.writes <= w.k.writes
    requires w.code < 0 || w.code == END || w.code == CLOSE
    ensures Uploaded(y, d, l, k, n, 1, Sent(i, [], w.l, w.k), w.whole,
                     if w.whole then [Answered(Unread(l), ACK).items] else [])
  {
    hide Answered, Exchange, Final, Body, Bodies, Outcome, Fits, Sticky, Jammed, Clear, Prompt, Told;
    var u := Unread(l);
    var a, x := Answered(u, ACK), Exchange(u, n);
    if l.open && !x.Unruly? && Certain(y, l, w.l.calls, n) {
      FirstAnswer(k, u, n, w);
      if Quiet(y, l.calls, w.l.calls) && !w.whole {
        ClosedIsDead(y, w.l);
      }
      if w.whole && Fits(y, l) && Prompt(y, u) {
        PromptOn(y, u);
      }
    }
  }

  /** An answer after which another block goes out, and what the rest of the upload promises. */
  ghost predicate Onward(y: System, d: Declines, l: Line, k: Sink, n: nat, w: Turn, m: Line, r: Sent, over: bool,
                         past: seq<seq<Item>>)
  {
    && n > 1 && Served(y, d, l, k, ACK, w) && k.writes <= w.k.writes && (w.code == 0 || w.code == ACK)
    && Wrote(y, w.l, m) && (Fits(y, w.l) ==> Fits(y, m))
    && Uploaded(y, d, m, w.k, n - 1, 1, r, over, past)
  }

  lemma SameUnread(y: System, l: Line, m: Line)
    requires Wrote(y, l, m)
    ensures Unread(m) == Unread(l)
  {
  }

  lemma OnwardFrame(y: System, d: Declines, l: Line, k: Sink, n: nat, w: Turn, m: Line, mark: Mark,
                    r: Sent, over: bool, past: seq<seq<Item>>)
    requires Onward(y, d, l, k, n, w, m, r, over, past) && mark.open == w.l.open
    ensures l.calls <= r.l.calls && k.writes <= r.k.writes && k.body <= r.k.body
    ensures (r.l.open ==> l.open) && (Fits(y, l) ==> Fits(y, r.l))
    ensures (Dead(y, l) ==> Dead(y, r.l) && r.k.body == k.body) && (w.whole && over ==> r.l.open)
    ensures !l.open ==> AllClosed([mark] + r.marks)
  {
    hide Fits, Sticky, Jammed, Told, Completed, Careful, Certain, Prompt, Clear, Quiet, Willing;
  }

  lemma OnwardEnd(y: System, d: Declines, l: Line, k: Sink, n: nat, w: Turn, m: Line,
                  r: Sent, over: bool, past: seq<seq<Item>>)
    requires Onward(y, d, l, k, n, w, m, r, over, past)
    requires l.open && !Exchange(Unread(l), n).Unruly? && Certain(y, l, r.l.calls, n)
    ensures var x, q := Exchange(Unread(l), n), if w.whole then [Answered(Unread(l), ACK).items] + past else [];
            && (if w.whole && over then Over(k, x, q, r.l, r.k)
                else Within(k, x, r.k) && Dead(y, r.l) && (Quiet(y, l.calls, r.l.calls) ==> !r.l.open))
            && (Quiet(y, l.calls, r.l.calls) && Willing(d, k.writes, r.k.writes) && !(w.whole && over) ==>
                  Drained(k, x, r.k))
  {
    hide Fits, Sticky, Jammed, Told, Careful, Prompt, Clear, Answered, Exchange, Final, Body, Bodies, Outcome,
         GoesOn, Unread, AtRest;
    var u := Unread(l);
    var a, x := Answered(u, ACK), Exchange(u, n);
    SameUnread(y, w.l, m);
    FirstAnswer(k, u, n, w);
    if w.whole {
      WholeGoesOn(a);
      var x1 := Exchange(a.rest, n - 1);
      FurtherOn(k, a.items, x1, w.k, r.k);
      if over {
        FurtherOver(k, a.items, past, r.l, w.k, r.k);
      }
    } else {
      ClosedIsDead(y, w.l);
    }
  }

  lemma WholeGoesOn(a: Answer)
    ensures a.Whole? && a.items != [] && LastCode(a.items) in {0, ACK} ==> GoesOn(a)
  {
  }

  /** What the client gets of a course that goes on, one answer later. */
  lemma FurtherOn(k: Sink, items: seq<Item>, x: Course, k1: Sink, r: Sink)
    requires k1.body == k.body + Body(items)
    ensures Further([items], x).Unruly? == x.Unruly?
    ensures Within(k1, x, r) ==> Within(k, Further([items], x), r)
    ensures Drained(k1, x, r) ==> Drained(k, Further([items], x), r)
  {
    hide Body, Bodies;
    NoBodies(items);
    BodiesAppend([items], x.answers);
    var part := if x.Stalled? then x.part else [];
    assert Outcome(Further([items], x)) == Body(items) + Outcome(x) by {
      assert (Body(items) + Bodies(x.answers)) + part == Body(items) + (Bodies(x.answers) + part);
    }
    assert (k.body + Body(items)) + Outcome(x) == k.body + (Body(items) + Outcome(x));
    LongerPrefix(k.body, Body(items), r.body);
  }

  lemma FurtherOver(k: Sink, items: seq<Item>, past: seq<seq<Item>>, l: Line, k1: Sink, r: Sink)
    requires k1.body == k.body + Body(items) && r.body == k1.body + Bodies(past)
    ensures r.body == k.body + Bodies([items] + past)
    ensures Further([items], Further(past, Final(Unread(l)))) == Further([items] + past, Final(Unread(l)))
  {
    hide Body, Bodies, Final;
    NoBodies(items);
    BodiesAppend([items], past);
    assert (k.body + Body(items)) + Bodies(past) == k.body + (Body(items) + Bodies(past));
    var f := Final(Unread(l));
    assert [items] + (past + f.answers) == ([items] + past) + f.answers;
  }

  lemma OnwardRest(y: System, d: Declines, l: Line, k: Sink, n: nat, w: Turn, m: Line,
                   r: Sent, over: bool, past: seq<seq<Item>>)
    requires Onward(y, d, l, k, n, w, m, r, over, past)
    requires l.open && !Exchange(Unread(l), n).Unruly? && Certain(y, l, r.l.calls, n)
    requires Fits(y, l) && w.whole && over && Prompt(y, Unread(l))
    ensures r.l.buffered == []
  {
    hide Fits, Sticky, Jammed, Told, Careful, Prompt, Clear, Answered, Exchange, Final, Body, Bodies, Outcome, GoesOn;
    var u := Unread(l);
    var a := Answered(u, ACK);
    SameUnread(y, w.l, m);
    FirstAnswer(k, u, n, w);
    WholeGoesOn(a);
    PromptOn(y, u);
    FurtherOn(k, a.items, Exchange(a.rest, n - 1), w.k, r.k);
  }

  lemma OnwardMarks(y: System, d: Declines, l: Line, k: Sink, n: nat, w: Turn, m: Line, mark: Mark,
                    r: Sent, over: bool, past: seq<seq<Item>>)
    requires Onward(y, d, l, k, n, w, m, r, over, past) && mark.open == w.l.open && mark.unread == |Unread(w.l)|
    requires l.open && !Exchange(Unread(l), n).Unruly? && Fits(y, l) && Careful(y, l, r.l.calls, n)
    ensures forall j :: 0 <= j < |[mark] + r.marks| ==> InTurn(Unread(l), ([mark] + r.marks)[j], j + 1)
  {
    hide Fits, Sticky, Jammed, Told, Prompt, Answered, Exchange, Final, Body, Bodies, Outcome, GoesOn, Unread,
         InTurn, AllClosed;
    var u, all := Unread(l), [mark] + r.marks;
    var a := Answered(u, ACK);
    SameUnread(y, w.l, m);
    FirstAnswer(k, u, n, w);
    if w.whole {
      WholeGoesOn(a);
      CarefulOn(y, l, w, m, r.l.calls, n);
      FurtherOn(k, a.items, Exchange(a.rest, n - 1), w.k, r.k);
      if !m.open {
        ClosedMarks(a.rest, r.marks, 1);
      }
      MarksOn(u, r.marks, 1);
      FirstInTurn(u, mark);
    } else {
      ClosedMarks(u, r.marks, 2);
      ClosedInTurn(u, mark);
    }
    assert forall j :: 0 < j < |all| ==> all[j] == r.marks[j - 1];
  }

  lemma FirstInTurn(u: seq<byte>, mark: Mark)
    requires GoesOn(Answered(u, ACK)) && mark.unread == |Answered(u, ACK).rest|
    ensures InTurn(u, mark, 1)
  {
    hide Answered;
    assert After(Answered(u, ACK).rest, 0) == Some(Answered(u, ACK).rest);
  }

  lemma ClosedInTurn(u: seq<byte>, mark: Mark)
    requires !mark.open
    ensures forall j: nat :: InTurn(u, mark, j)
  {
  }

  lemma CarefulOn(y: System, l: Line, w: Turn, m: Line, to: nat, n: nat)
    requires n > 1 && Careful(y, l, to, n) && Fits(y, l) && Later(y, l, w.l) && Wrote(y, w.l, m) && m.calls <= to
    requires AtRest(y, w.l) && Answered(Unread(l), ACK).Whole? && Unread(w.l) == Answered(Unread(l), ACK).rest
    requires GoesOn(Answered(Unread(l), ACK))
    ensures Careful(y, m, to, n - 1)
  {
    hide Answered, Prompt;
    if l.buffered == [] && Prompt(y, Unread(l)) {
      PromptOn(y, Unread(l));
    }
  }

  lemma UploadGoesOn(y: System, d: Declines, l: Line, k: Sink, n: nat, w: Turn, mark: Mark, m: Line,
                     r: Sent, over: bool, past: seq<seq<Item>>)
    requires Onward(y, d, l, k, n, w, m, r, over, past) && mark.open == w.l.open && mark.unread == |Unread(w.l)|
    ensures Uploaded(y, d, l, k, n, 1, r.(marks := [mark] + r.marks), w.whole && over,
                     if w.whole then [Answered(Unread(l), ACK).items] + past else [])
  {
    hide Onward, Answered, Exchange, Bodies, Outcome, Fits, Sticky, Dead, Prompt, AllClosed, Within, Drained, Over,
         InTurn, Quiet, Willing;
    OnwardFrame(y, d, l, k, n, w, m, mark, r, over, past);
    OnwardSize(y, d, l, k, n, w, m, r, over, past);
    if l.open && !Exchange(Unread(l), n).Unruly? {
      if Certain(y, l, r.l.calls, n) {
        OnwardEnd(y, d, l, k, n, w, m, r, over, past);
        if Fits(y, l) && w.whole && over && Prompt(y, Unread(l)) {
          OnwardRest(y, d, l, k, n, w, m, r, over, past);
        }
      }
      if Fits(y, l) && Careful(y, l, r.l.calls, n) {
        OnwardMarks(y, d, l, k, n, w, m, mark, r, over, past);
      }
    }
  }

  lemma OnwardSize(y: System, d: Declines, l: Line, k: Sink, n: nat, w: Turn, m: Line, r: Sent, over: bool,
                   past: seq<seq<Item>>)
    requires Onward(y, d, l, k, n, w, m, r, over, past)
    ensures n > 1
  {
  }

  /** What the body of a request promises, for every runner and every answer of the system. */
  lemma {:induction false} SendingFacts(y: System, d: Declines, l: Line, k: Sink, blocks: seq<seq<byte>>, i: nat)
    returns (over: bool, past: seq<seq<Item>>)
    requires i <= |blocks|
    ensures var r := Sending(y, d, l, k, blocks, i);
            Uploaded(y, d, l, k, Waits(|blocks|, i), if i == 0 then 0 else 1, r, over, past)
    decreases |blocks| - i
  {
    hide Uploaded, Served, Onward, Packed, Serve;
    var n := Waits(|blocks|, i);
    if i == |blocks| {
      AllSent(y, d, l, k, n, if i == 0 then 0 else 1, i);
      over, past := l.open, [];
    } else if i == 0 {
      over, past := SendingFacts(y, d, Packed(y, l, |blocks[0]|), k, blocks, 1);
      BlockFirst(y, d, l, k, n, Mark(Packet(DATA, blocks[0]), |Unread(l)|, l.open), |blocks[0]|,
                 Sending(y, d, Packed(y, l, |blocks[0]|), k, blocks, 1), over, past);
    } else {
      var w := Serve(y, d, l, k, ACK);
      ServeFacts(y, d, l, k, ACK);
      if w.code < 0 || w.code == END || w.code == CLOSE {
        UploadStops(y, d, l, k, n, i, w);
        over, past := w.whole, if w.whole then [Answered(Unread(l), ACK).items] else [];
      } else {
        var m := Packed(y, w.l, |blocks[i]|);
        var r := Sending(y, d, m, w.k, blocks, i + 1);
        over, past := SendingFacts(y, d, m, w.k, blocks, i + 1);
        PackedFacts(y, w.l, |blocks[i]|);
        PackedFits(y, w.l, |blocks[i]|);
        IsOnward(y, d, l, k, n, w, m, r, over, past);
        UploadGoesOn(y, d, l, k, n, w, Mark(Packet(DATA, blocks[i]), |Unread(w.l)|, w.l.open), m, r, over, past);
        over, past := w.whole && over, if w.whole then [Answered(Unread(l), ACK).items] + past else [];
      }
    }
  }

  lemma IsOnward(y: System, d: Declines, l: Line, k: Sink, n: nat, w: Turn, m: Line, r: Sent, over: bool,
                 past: seq<seq<Item>>)
    requires n > 1 && Served(y, d, l, k, ACK, w) && k.writes <= w.k.writes
    requires !(w.code < 0 || w.code == END || w.code == CLOSE)
    requires Wrote(y, w.l, m) && (Fits(y, w.l) ==> Fits(y, m)) && Uploaded(y, d, m, w.k, n - 1, 1, r, over, past)
    ensures Onward(y, d, l, k, n, w, m, r, over, past)
  {
    hide Uploaded, Wrote, Fits, Told, Completed;
  }

  // ---- A whole request ----

  /** The last answer lets the stream be used again. */
  predicate Reusable(x: Course)
  {
    x.Finished? && x.answers != [] && x.answers[|x.answers| - 1] != [] && LastCode(x.answers[|x.answers| - 1]) == END
  }

  /** The request has been answered in full, and the line stands just past the answer. */
  ghost predicate AllTold(k: Sink, x: Course, r: Requested)
  {
    x.Finished? && Unread(r.l) == x.rest && r.k.body == k.body + Outcome(x)
  }

  /** The runs in which the client gets a part of what it should, at least. */
  ghost predicate KeepsPrefix(y: System, l: Line, to: nat, n: nat)
  {
    Quiet(y, l.calls, to) || Sticky(y) || (n <= 1 && l.buffered == [])
  }

  /** The runs in which a request that asks for reuse has been answered in full. */
  ghost predicate KeepsBoundary(y: System, l: Line, to: nat, n: nat)
  {
    Quiet(y, l.calls, to) || (if n <= 1 then l.buffered == [] else Sticky(y) && Prompt(y, Unread(l)))
  }

  /** The runs in which nothing is received before it is waited for. */
  ghost predicate Paused(y: System, l: Line, n: nat)
  {
    if n <= 1 then l.buffered == [] else Prompt(y, Unread(l))
  }

  /** What `write_request` promises with n blocks. */
  ghost predicate Promised(y: System, d: Declines, l: Line, k: Sink, n: nat, r: Requested)
  {
    var u, x := Unread(l), Exchange(Unread(l), n);
    && l.calls <= r.l.calls && k.writes <= r.k.writes && (r.l.open ==> l.open) && (Fits(y, l) ==> Fits(y, r.l))
    && (Fits(y, l) ==> AtRest(y, r.l) || !r.l.open)
    && (l.open && !x.Unruly? && Fits(y, l) && Careful(y, l, r.l.calls, n) ==> StopAndWait(u, r.marks))
    && (l.open && !x.Unruly? && Fits(y, l) && KeepsPrefix(y, l, r.l.calls, n) ==> Within(k, x, r.k))
    && (l.open && !x.Unruly? && Fits(y, l) && KeepsBoundary(y, l, r.l.calls, n) && r.reuse && r.l.open ==>
          AllTold(k, x, r) && Reusable(x))
    && (l.open && !x.Unruly? && Fits(y, l) && Certain(y, l, r.l.calls, n) && Paused(y, l, n) && r.reuse && r.l.open ==>
          r.l.unsent == 0)
    && (l.open && !x.Unruly? && Quiet(y, l.calls, r.l.calls) && Willing(d, k.writes, r.k.writes) ==>
          if x.Finished? then r.l.open && AllTold(k, x, r) && r.reuse == Reusable(x)
          else !r.l.open && Drained(k, x, r.k))
  }

  /** The last answer told, after those of the upload. */
  lemma LastAnswer(k: Sink, x: Course, past: seq<seq<Item>>, v: seq<byte>, k1: Sink, w: Turn)
    requires x == Further(past, Final(v)) && !x.Unruly? && k1.body == k.body + Bodies(past)
    requires Told(Answered(v, END), k1, w)
    ensures Within(k, x, w.k)
    ensures w.whole ==> AllTold(k, x, Requested(w.code == END, 0, [], w.l, w.k)) && (w.code == END <==> Reusable(x))
    ensures !Answered(v, END).Wild? && (x.Finished? <==> Answered(v, END).Whole?)
    ensures Answered(v, END).Broken? ==> x.Stalled? && k1.body + Delivered(Answered(v, END)) == k.body + Outcome(x)
  {
    hide Answered, Body, Bodies, Exchange, Unread, Events, Keeps, Final;
    var a := Answered(v, END);
    NoMoreBlocks(v, 1);
    OneAnswer(past, v, 1);
    FinalIs(v);
    Between(k.body, Bodies(past), Delivered(a), Outcome(x), w.k.body);
    assert (k.body + Bodies(past)) + Delivered(a) == k.body + (Bodies(past) + Delivered(a));
    if a.Whole? {
      assert (past + [a.items])[|past|] == a.items;
    }
  }

  lemma FinalIs(v: seq<byte>)
    ensures Answered(v, END).Whole? <==> Final(v).Finished?
  {
    hide Answered;
  }

  /** The client has a part of it before the last answer comes. */
  lemma OverWithin(k: Sink, x: Course, past: seq<seq<Item>>, v: seq<byte>, k1: Sink)
    requires x == Further(past, Final(v)) && !x.Unruly? && k1.body == k.body + Bodies(past)
    ensures Within(k, x, k1)
  {
    hide Answered, Body, Bodies, Exchange, Final;
    NoMoreBlocks(v, 1);
    OneAnswer(past, v, 1);
    Between(k.body, Bodies(past), [], Outcome(x), k1.body);
  }

  /** The lines a request goes through: with its head written, its blocks, its end, and answered. */
  datatype Stages = Stages(l1: Line, s: Sent, l2: Line, w: Turn)

  ghost predicate Staged(y: System, d: Declines, l: Line, k: Sink, n: nat, g: Stages, over: bool, past: seq<seq<Item>>)
  {
    && Wrote(y, l, g.l1) && (Fits(y, l) ==> Fits(y, g.l1))
    && Uploaded(y, d, g.l1, k, n, 0, g.s, over, past)
    && Wrote(y, g.s.l, g.l2) && (Fits(y, g.s.l) ==> Fits(y, g.l2))
    && Served(y, d, g.l2, g.s.k, END, g.w) && g.s.k.writes <= g.w.k.writes
  }

  function Result(g: Stages): Requested { Requested(g.w.code == END, g.s.n, g.s.marks, g.w.l, g.w.k) }

  lemma StagesFrame(y: System, d: Declines, l: Line, k: Sink, n: nat, g: Stages, over: bool, past: seq<seq<Item>>)
    requires Staged(y, d, l, k, n, g, over, past)
    ensures var r := Result(g);
            && l.calls <= r.l.calls && k.writes <= r.k.writes && (r.l.open ==> l.open) && (Fits(y, l) ==> Fits(y, r.l))
            && (Fits(y, l) ==> AtRest(y, r.l) || !r.l.open)
    ensures g.l1.calls >= l.calls && g.w.l.calls >= g.l2.calls >= g.s.l.calls >= g.l1.calls
  {
    hide Fits, Sticky, Told, Completed, Careful, Certain, Prompt, Quiet, Willing, Dead, AtRest, Clear;
  }

  lemma StagesMarks(y: System, d: Declines, l: Line, k: Sink, n: nat, g: Stages, over: bool, past: seq<seq<Item>>)
    requires Staged(y, d, l, k, n, g, over, past)
    requires l.open && !Exchange(Unread(l), n).Unruly? && Fits(y, l) && Careful(y, l, g.w.l.calls, n)
    ensures StopAndWait(Unread(l), g.s.marks)
  {
    hide Fits, Sticky, Told, Completed, Certain, Prompt, Dead, AtRest, Clear, Exchange, InTurn, Served;
    SameUnread(y, l, g.l1);
    StagesFrame(y, d, l, k, n, g, over, past);
    if !g.l1.open {
      ClosedMarks(Unread(l), g.s.marks, 0);
    }
    assert forall j :: 0 <= j < |g.s.marks| ==> InTurn(Unread(l), g.s.marks[j], j + 0);
  }

  /** The wait for the last answer, if the line can still read. */
  lemma StagesEnd(y: System, d: Declines, l: Line, k: Sink, n: nat, g: Stages, over: bool, past: seq<seq<Item>>)
    requires Staged(y, d, l, k, n, g, over, past)
    requires l.open && !Exchange(Unread(l), n).Unruly? && Certain(y, l, g.w.l.calls, n)
    ensures var x, r := Exchange(Unread(l), n), Result(g);
            && (Fits(y, l) && KeepsPrefix(y, l, r.l.calls, n) ==> Within(k, x, r.k))
            && (Fits(y, l) && KeepsBoundary(y, l, r.l.calls, n) && r.reuse && r.l.open ==>
                  AllTold(k, x, r) && Reusable(x))
            && (Fits(y, l) && Paused(y, l, n) && r.reuse && r.l.open ==> r.l.unsent == 0)
            && (Quiet(y, l.calls, r.l.calls) && Willing(d, k.writes, r.k.writes) ==>
                  if x.Finished? then r.l.open && AllTold(k, x, r) && r.reuse == Reusable(x)
                  else !r.l.open && Drained(k, x, r.k))
  {
    hide Answered, Exchange, Final, Body, Bodies, Outcome, Fits, Sticky, Jammed, Prompt, Told, AtRest, InTurn,
         Unread, Careful, Reusable, Delivered;
    var u, x := Unread(l), Exchange(Unread(l), n);
    SameUnread(y, l, g.l1);
    SameUnread(y, g.s.l, g.l2);
    StagesFrame(y, d, l, k, n, g, over, past);
    NothingYet(k, x);
    if g.l1.open && over {
      OverWithin(k, x, past, Unread(g.l2), g.s.k);
      if g.l2.open && Sure(y, g.l2, g.w.l.calls) {
        LastAnswer(k, x, past, Unread(g.l2), g.s.k, g.w);
      }
    } else if !g.l1.open {
      ClosedIsDead(y, g.l1);
    }
    ClosedIsDead(y, g.l2);
  }

  /** `write_request` keeps its promises, whoever the runner is and whatever fails. */
  lemma RequestFacts(y: System, d: Declines, l: Line, k: Sink, head: seq<Packet>, blocks: seq<seq<byte>>)
    ensures Promised(y, d, l, k, |blocks|, Request(y, d, l, k, head, blocks))
  {
    hide Serve, Served, Uploaded, Packed, PackedAll, Sending, Wrote, Fits;
    var l1 := PackedAll(y, l, head);
    var s := Sending(y, d, l1, k, blocks, 0);
    var l2 := Packed(y, s.l, 0);
    var g := Stages(l1, s, l2, Serve(y, d, l2, s.k, END));
    PackedAllFacts(y, l, head);
    PackedAllFits(y, l, head);
    var over, past := SendingFacts(y, d, l1, k, blocks, 0);
    PackedFacts(y, s.l, 0);
    PackedFits(y, s.l, 0);
    ServeFacts(y, d, l2, s.k, END);
    StagesPromise(y, d, l, k, |blocks|, g, over, past);
  }

  lemma PackedAllFits(y: System, l: Line, ps: seq<Packet>)
    ensures Fits(y, l) ==> Fits(y, PackedAll(y, l, ps))
  {
    PackedAllFacts(y, l, ps);
  }

  lemma StagesPromise(y: System, d: Declines, l: Line, k: Sink, n: nat, g: Stages, over: bool, past: seq<seq<Item>>)
    requires Staged(y, d, l, k, n, g, over, past)
    ensures Promised(y, d, l, k, n, Result(g))
  {
    hide Staged, Fits, Sticky, Prompt, Quiet, Willing, AtRest, Exchange, StopAndWait, Within, AllTold, Reusable,
         Drained;
    StagesFrame(y, d, l, k, n, g, over, past);
    if l.open && !Exchange(Unread(l), n).Unruly? {
      if Certain(y, l, g.w.l.calls, n) {
        StagesEnd(y, d, l, k, n, g, over, past);
      }
      if Fits(y, l) && Careful(y, l, g.w.l.calls, n) {
        StagesMarks(y, d, l, k, n, g, over, past);
      }
    }
  }
}
