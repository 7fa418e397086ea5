/** What a servlet runner's bytes say: items, answers, and what the client is to get of them. */
module Answers {
  import opened Packets

  /** What the client sees besides the body; `at` is the body's length at that moment. */
  datatype Event =
    | Status(at: nat, line: seq<byte>)
    | Header(at: nat, key: seq<byte>, value: seq<byte>)
    | Flushed(at: nat)
    | HeadersSent(at: nat)

  /** A frame, or a header frame with the value frame that follows it. */
  datatype Item = Plain(p: Packet) | Pair(key: seq<byte>, value: Packet)

  function First(item: Item): Packet
  {
    match item
    case Plain(p) => p
    case Pair(key, _) => Packet(HEADER, key)
  }

  function Second(item: Item): seq<byte>
  {
    match item
    case Plain(_) => []
    case Pair(_, value) => Encode(value)
  }

  function EncodeItem(item: Item): seq<byte>
  {
    Encode(First(item)) + Second(item)
  }

  function EncodeItems(items: seq<Item>): seq<byte>
  {
    if items == [] then [] else EncodeItem(items[0]) + EncodeItems(items[1..])
  }

  // ---- What a run of bytes says, whoever sent it ----

  /** What one turn of the frame loop makes of the bytes ahead; `part`: what reaches the client before they end. */
  datatype Found = Got(item: Item, rest: seq<byte>) | Short(part: seq<byte>) | TooLong

  function ReadItem(u: seq<byte>): (f: Found)
    ensures f.Got? ==> |f.rest| < |u|
  {
    if |u| < 4 then Short([]) else
      var code, len, v := u[0], Length(u[1], u[2], u[3]), u[4..];
      if code in {FLUSH, KEEPALIVE, SEND_HEADER} then Got(Plain(Packet(code, [])), v)
      else if code == DATA then
        if |v| < len then Short(v) else Got(Plain(Packet(DATA, v[..len])), v[len..])
      else if len > BUF_LENGTH then TooLong
      else if |v| < len then Short([])
      else if code == HEADER then ReadValue(v[..len], v[len..])
      else Got(Plain(Packet(code, v[..len])), v[len..])
  }

  /** The frame after a header's key, whatever its code, is the header's value. */
  function ReadValue(key: seq<byte>, w: seq<byte>): (f: Found)
    ensures f.Got? ==> |f.rest| < |w|
  {
    if |w| < 4 || |w| < 4 + Length(w[1], w[2], w[3]) then Short([])
    else
      var n := 4 + Length(w[1], w[2], w[3]);
      Got(Pair(key, Packet(w[0], w[4..n])), w[n..])
  }

  /** A whole answer and what follows it; bytes that end early; or a frame the plugin's buffers do not hold. */
  datatype Answer =
    | Whole(items: seq<Item>, rest: seq<byte>)
    | Broken(items: seq<Item>, part: seq<byte>)
    | Wild(items: seq<Item>)

  function Join(past: seq<Item>, a: Answer): Answer { a.(items := past + a.items) }

  /** The answer a reader waiting for ack finds at the start of the bytes. */
  function Answered(u: seq<byte>, ack: byte): (a: Answer)
    ensures a.Whole? ==> a.items != [] && |a.rest| < |u|
    decreases |u|
  {
    match ReadItem(u)
    case Short(part) => Broken([], part)
    case TooLong => Wild([])
    case Got(item, rest) => if Stops(item, ack) then Whole([item], rest) else Join([item], Answered(rest, ack))
  }

  /** What the client gets of an answer. */
  function Delivered(a: Answer): seq<byte>
  {
    Body(a.items) + if a.Broken? then a.part else []
  }

  function LastCode(items: seq<Item>): (code: int)
    requires items != []
    ensures 0 <= code < 256
  {
    First(items[|items| - 1]).code
  }

  /** What the plugin's buffers allow a runner to send. */
  predicate WellFormed(item: Item)
  {
    match item
    case Plain(p) =>
      && p.code != HEADER && |p.payload| < MAX_LENGTH
      && (p.code in {FLUSH, KEEPALIVE, SEND_HEADER} ==> p.payload == [])
      && (p.code != DATA ==> |p.payload| <= BUF_LENGTH)
    case Pair(key, value) => |key| <= BUF_LENGTH && |value.payload| < MAX_LENGTH
  }

  /** The frames at which a reader waiting for ack stops; code 0 stops it as well. */
  predicate Stops(item: Item, ack: byte)
  {
    item.Plain? && item.p.code in {0, END, CLOSE, ack}
  }

  /** A complete answer: well-formed, and stopping at its last frame only. */
  ghost predicate Complete(items: seq<Item>, ack: byte)
  {
    && items != []
    && (forall k :: 0 <= k < |items| ==> WellFormed(items[k]))
    && (forall k :: 0 <= k < |items| ==> (Stops(items[k], ack) <==> k == |items| - 1))
  }

  function BodyOf(item: Item): seq<byte>
  {
    if item.Plain? && item.p.code == DATA then item.p.payload else []
  }

  /** The concatenation of the data payloads. */
  function Body(items: seq<Item>): seq<byte>
  {
    if items == [] then [] else BodyOf(items[0]) + Body(items[1..])
  }

  function EventsOf(item: Item, at: nat): seq<Event>
  {
    match item
    case Pair(key, value) => [Header(at, CString(key), Limited(value.payload, BUF_LENGTH))]
    case Plain(p) =>
      if p.code == STATUS then [Status(at, CString(p.payload))]
      else if p.code == FLUSH then [Flushed(at)]
      else if p.code == SEND_HEADER then [HeadersSent(at)]
      else []
  }

  function Events(items: seq<Item>, at: nat): seq<Event>
  {
    if items == [] then [] else EventsOf(items[0], at) + Events(items[1..], at + |BodyOf(items[0])|)
  }

  predicate AsksToKeep(item: Item)
  {
    item.Plain? && item.p.code == KEEPALIVE
  }

  // ---- The answers a runner is supposed to send are the answers found ----

  lemma ItemReadsBack(item: Item, rest: seq<byte>)
    requires WellFormed(item)
    ensures ReadItem(EncodeItem(item) + rest) == Got(item, rest)
  {
    hide Length, Head, ReadItem, ReadValue, EncodeItem;
    var p := First(item);
    var u := EncodeItem(item) + rest;
    HeadOff(p.code, p.payload, Second(item) + rest);
    assert u == Head(p.code, |p.payload|) + (p.payload + (Second(item) + rest)) by {
      EncodedParts(item, rest);
    }
    TextItem(u, p.code);
    HeaderItem(u);
    DataItem(u);
    SignalItem(u);
    if item.Pair? {
      ValueReadsBack(item.key, item.value, rest);
    } else {
      assert [] + rest == rest;
    }
  }

  lemma EncodedParts(item: Item, rest: seq<byte>)
    ensures EncodeItem(item) + rest
         == Head(First(item).code, |First(item).payload|) + (First(item).payload + (Second(item) + rest))
  {
    hide Head, Second, First;
  }

  /** The head of a packet, and what follows it. */
  lemma HeadOff(code: byte, payload: seq<byte>, more: seq<byte>)
    requires |payload| < MAX_LENGTH
    ensures var u := Head(code, |payload|) + (payload + more);
            && |u| >= 4 && u[0] == code && Length(u[1], u[2], u[3]) == |payload|
            && |u[4..]| >= |payload| && u[4..][..|payload|] == payload && u[4..][|payload|..] == more
  {
    hide Length, Head;
    LengthOfHead(code, |payload|);
    HeadFirst(code, |payload|);
    var u := Head(code, |payload|) + (payload + more);
    assert u[..4] == Head(code, |payload|) && u[4..] == payload + more;
  }

  lemma HeadFirst(code: byte, n: nat)
    ensures Head(code, n)[0] == code
  {
  }

  lemma ValueReadsBack(key: seq<byte>, value: Packet, rest: seq<byte>)
    requires |value.payload| < MAX_LENGTH
    ensures ReadValue(key, Encode(value) + rest) == Got(Pair(key, value), rest)
  {
    hide Length, Head;
    var w := Encode(value) + rest;
    HeadOff(value.code, value.payload, rest);
    assert w == Head(value.code, |value.payload|) + (value.payload + rest);
    assert w[4..4 + |value.payload|] == w[4..][..|value.payload|];
    assert w[4 + |value.payload|..] == w[4..][|value.payload|..];
  }

  /** A complete answer is found whole, exactly as it was meant, whatever follows it. */
  lemma {:induction false} AnswerReadsBack(items: seq<Item>, ack: byte, rest: seq<byte>)
    requires Complete(items, ack)
    ensures Answered(EncodeItems(items) + rest, ack) == Whole(items, rest)
    decreases |items|
  {
    hide ReadItem, EncodeItem, WellFormed, Stops;
    var more := EncodeItems(items[1..]) + rest;
    assert EncodeItems(items) + rest == EncodeItem(items[0]) + more;
    ItemReadsBack(items[0], more);
    assert items == [items[0]] + items[1..];
    if |items| == 1 {
      assert Stops(items[0], ack);
      assert EncodeItems([]) + rest == rest;
    } else {
      assert !Stops(items[0], ack);
      forall k | 0 <= k < |items[1..]|
        ensures WellFormed(items[1..][k]) && (Stops(items[1..][k], ack) <==> k == |items[1..]| - 1)
      {
        assert items[1..][k] == items[k + 1];
      }
      AnswerReadsBack(items[1..], ack, rest);
    }
  }

  /** A whole answer stops at its last item and nowhere before. */
  lemma {:induction false} AnswerStops(u: seq<byte>, ack: byte)
    requires Answered(u, ack).Whole?
    ensures var items := Answered(u, ack).items;
            forall k :: 0 <= k < |items| ==> (Stops(items[k], ack) <==> k == |items| - 1)
    decreases |u|
  {
    hide ReadItem, Stops;
    var f := ReadItem(u);
    if f.Got? && !Stops(f.item, ack) {
      AnswerStops(f.rest, ack);
    }
  }

  // ---- The answer found, one item at a time ----

  lemma {:induction false} BodySnoc(items: seq<Item>, item: Item)
    ensures Body(items + [item]) == Body(items) + BodyOf(item)
  {
    hide BodyOf;
    if items == [] {
      assert [item][1..] == [];
    } else {
      assert (items + [item])[1..] == items[1..] + [item];
      BodySnoc(items[1..], item);
    }
  }

  lemma {:induction false} EventsSnoc(items: seq<Item>, item: Item, at: nat)
    ensures Events(items + [item], at) == Events(items, at) + EventsOf(item, at + |Body(items)|)
  {
    hide BodyOf, EventsOf;
    if items == [] {
      assert [item][1..] == [];
    } else {
      assert (items + [item])[1..] == items[1..] + [item];
      EventsSnoc(items[1..], item, at + |BodyOf(items[0])|);
    }
  }

  lemma {:induction false} BodyAppend(a: seq<Item>, b: seq<Item>)
    ensures Body(a + b) == Body(a) + Body(b)
  {
    hide BodyOf;
    if a == [] {
      assert a + b == b;
    } else {
      assert (a + b)[1..] == a[1..] + b;
      BodyAppend(a[1..], b);
    }
  }

  function Continued(past: seq<Item>, f: Found, ack: byte): Answer
  {
    match f
    case Short(part) => Broken(past, part)
    case TooLong => Wild(past)
    case Got(item, rest) =>
      if Stops(item, ack) then Whole(past + [item], rest) else Join(past + [item], Answered(rest, ack))
  }

  /** After some items, what one more turn finds decides. */
  lemma JoinStep(past: seq<Item>, u: seq<byte>, ack: byte)
    ensures Join(past, Answered(u, ack)) == Continued(past, ReadItem(u), ack)
  {
    hide ReadItem, Stops;
    assert past + [] == past;
    var f := ReadItem(u);
    if f.Got? && !Stops(f.item, ack) {
      var b := Answered(f.rest, ack);
      assert past + ([f.item] + b.items) == (past + [f.item]) + b.items;
    }
  }

  // ---- What one turn of the loop finds ----

  lemma TextItem(u: seq<byte>, code: int)
    ensures |u| >= 4 && code == u[0] && code !in {HEADER, DATA, FLUSH, KEEPALIVE, SEND_HEADER} ==>
              var len, v := Length(u[1], u[2], u[3]), u[4..];
              ReadItem(u) == if len > BUF_LENGTH then TooLong else if |v| < len then Short([])
                             else Got(Plain(Packet(code, v[..len])), v[len..])
  {
  }

  lemma DataItem(u: seq<byte>)
    ensures |u| >= 4 && u[0] == DATA ==>
              var len, v := Length(u[1], u[2], u[3]), u[4..];
              ReadItem(u) == if |v| < len then Short(v) else Got(Plain(Packet(DATA, v[..len])), v[len..])
  {
  }

  lemma HeaderItem(u: seq<byte>)
    ensures |u| >= 4 && u[0] == HEADER ==>
              var len, v := Length(u[1], u[2], u[3]), u[4..];
              ReadItem(u) == if len > BUF_LENGTH then TooLong else if |v| < len then Short([])
                             else ReadValue(v[..len], v[len..])
    ensures |u| >= 4 && u[0] == HEADER ==>
              var f := ReadItem(u);
              (f.Short? ==> f.part == []) && (f.Got? ==> BodyOf(f.item) == [] && !AsksToKeep(f.item))
  {
  }

  lemma SignalItem(u: seq<byte>)
    ensures |u| >= 4 && u[0] in {FLUSH, KEEPALIVE, SEND_HEADER} ==> ReadItem(u) == Got(Plain(Packet(u[0], [])), u[4..])
  {
  }

  lemma ShortItem(u: seq<byte>)
    ensures |u| < 4 ==> ReadItem(u) == Short([])
  {
  }

  lemma ItemCode(u: seq<byte>)
    ensures ReadItem(u).Got? ==> |u| > 0 && First(ReadItem(u).item).code == u[0]
  {
  }

  /** Some item asks to keep the connection. */
  ghost predicate Keeps(items: seq<Item>)
  {
    exists k :: 0 <= k < |items| && AsksToKeep(items[k])
  }

  lemma KeepsSnoc(items: seq<Item>, item: Item)
    ensures Keeps(items + [item]) <==> Keeps(items) || AsksToKeep(item)
  {
    var all := items + [item];
    assert all[|items|] == item;
    if Keeps(items) {
      var k :| 0 <= k < |items| && AsksToKeep(items[k]);
      assert all[k] == items[k];
    }
  }

  /** Everything one more turn adds to the items so far. */
  lemma OneItem(past: seq<Item>, u: seq<byte>, ack: byte, at: nat)
    requires ack != HEADER
    ensures Join(past, Answered(u, ack)) == Continued(past, ReadItem(u), ack)
    ensures ReadItem(u).Got? ==>
              var item := ReadItem(u).item;
              && |u| > 0 && First(item).code == u[0] && (Stops(item, ack) <==> u[0] in {0, END, CLOSE, ack})
              && Body(past + [item]) == Body(past) + BodyOf(item)
              && Events(past + [item], at) == Events(past, at) + EventsOf(item, at + |Body(past)|)
              && (Keeps(past + [item]) <==> Keeps(past) || AsksToKeep(item))
  {
    hide ReadItem, BodyOf, EventsOf, Body, Events, AsksToKeep, Answered, Keeps;
    JoinStep(past, u, ack);
    ItemCode(u);
    if ReadItem(u).Got? {
      var item := ReadItem(u).item;
      BodySnoc(past, item);
      EventsSnoc(past, item, at);
      KeepsSnoc(past, item);
    }
  }

  predicate Ends(code: int, ack: byte) { code <= 0 || code == END || code == CLOSE || code == ack }

  /** Between a part and the whole. */
  lemma Between(body: seq<byte>, past: seq<byte>, part: seq<byte>, all: seq<byte>, x: seq<byte>)
    requires past + part <= all && body + past <= x <= (body + past) + part
    ensures body <= x <= body + all
  {
    assert (body + past) + part == body + (past + part);
    assert (body + all)[..|body| + |past + part|] == body + (past + part);
  }
}
