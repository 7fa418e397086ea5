/** `send_data` as a function on the line and the client, and what it promises. */
module Serving {
  import opened Packets
  import opened Lines
  import opened Answers

  /** What the client has got so far, and how many writes to it were made. */
  datatype Sink = Sink(body: seq<byte>, events: seq<Event>, writes: nat)

  /** Which writes to the client fail. */
  type Declines = nat -> bool

  /** No write to the client in a range has been declined. */
  ghost predicate Willing(d: Declines, from: nat, to: nat)
  {
    forall k :: from <= k < to ==> !d(k)
  }

  datatype Copied = Copied(ok: bool, l: Line, k: Sink)

  /** `cse_write_response`: copies straight from the read buffer, one buffered piece at a time. */
  function Copy(y: System, d: Declines, l: Line, k: Sink, n: nat): (r: Copied)
    ensures |Unread(r.l)| <= |Unread(l)| && k.writes <= r.k.writes
    decreases n, l.buffered == []
  {
    if n == 0 then Copied(true, l, k)
    else if l.buffered == [] then
      var t := Fill(y, l);
      if t.ok then Copy(y, d, t.l, k, n) else Copied(false, t.l, k)
    else
      var m := Least(n, |l.buffered|);
      if d(k.writes) then Copied(false, l.(open := false), k.(writes := k.writes + 1))
      else
        Copy(y, d, l.(buffered := l.buffered[m..]), k.(body := k.body + l.buffered[..m], writes := k.writes + 1), n - m)
  }

  /** A turn of the frame loop, or several; whole: every byte it asked for was there. */
  datatype Turn = Turn(code: int, keep: bool, l: Line, k: Sink, whole: bool)

  function Noted(k: Sink, e: Event): Sink { k.(events := k.events + [e]) }

  /** The frame loop's switch, once a head has been read. */
  function Switch(y: System, d: Declines, code: int, len: nat, l: Line, k: Sink): (t: Turn)
    requires -1 <= code < 256
    ensures |Unread(t.l)| <= |Unread(l)| && (t.code == code || t.code == -1) && k.writes <= t.k.writes
  {
    if code == HEADER then
      var key := Take(y, l, len);
      var v := ReadString(y, key.l, BUF_LENGTH + 1);
      Turn(code, false, v.l, Noted(k, Header(|k.body|, CString(key.data), v.text)), |key.data| == len && v.whole)
    else if code == DATA then
      var r := Copy(y, d, l, k, len);
      Turn(if r.ok then code else -1, false, r.l, r.k, r.ok)
    else if code == FLUSH then Turn(code, false, l, Noted(k, Flushed(|k.body|)), true)
    else if code == KEEPALIVE then Turn(code, true, l, k, true)
    else if code == SEND_HEADER then Turn(code, false, l, Noted(k, HeadersSent(|k.body|)), true)
    else if code == -1 then Turn(code, false, l, k, false)
    else
      var t := Take(y, l, len);
      Turn(code, false, t.l, if code == STATUS then Noted(k, Status(|k.body|, CString(t.data))) else k, |t.data| == len)
  }

  /** One iteration of the loop of `send_data`; code -1 when it gives up. */
  function Step(y: System, d: Declines, l: Line, k: Sink): (t: Turn)
    ensures -1 <= t.code < 256 && k.writes <= t.k.writes
    ensures |Unread(t.l)| <= |Unread(l)| && (t.code >= 0 ==> |Unread(t.l)| < |Unread(l)|)
  {
    var h := ReadHead(y, l);
    if !h.l.open then Turn(-1, false, h.l, k, false)
    else
      var t := Switch(y, d, h.code, h.len, h.l, k);
      t.(whole := h.whole && t.whole)
  }

  /** `send_data`: turn after turn to a frame that ends the answer. */
  function Serve(y: System, d: Declines, l: Line, k: Sink, ack: byte): (t: Turn)
    ensures -1 <= t.code < 256 && k.writes <= t.k.writes && |Unread(t.l)| <= |Unread(l)|
    decreases |Unread(l)|
  {
    var t := Step(y, d, l, k);
    if Ends(t.code, ack) then t
    else
      var r := Serve(y, d, t.l, t.k, ack);
      r.(keep := t.keep || r.keep, whole := t.whole && r.whole)
  }

  // ---- One turn ----

  /** What a copy has given the client. */
  function Given(k: Sink, r: Sink): seq<byte>
    requires k.body <= r.body
  {
    r.body[|k.body|..]
  }

  lemma {:induction false} CopyFacts(y: System, d: Declines, l: Line, k: Sink, n: nat)
    ensures var r := Copy(y, d, l, k, n);
            && Later(y, l, r.l) && k.body <= r.k.body && r.k.events == k.events
            && Unread(l) == Given(k, r.k) + Unread(r.l) && |Given(k, r.k)| <= n && (r.ok <==> |Given(k, r.k)| == n)
            && (if r.ok then r.l.open == l.open else Lost(y, l, r.l))
            && (l.open && Quiet(y, l.calls, r.l.calls) && Willing(d, k.writes, r.k.writes) && !r.ok ==>
                  Unread(r.l) == [])
            && (Fits(y, l) && (n > 0 || AtRest(y, l)) ==> AtRest(y, r.l) || !r.l.open)
            && (Dead(y, l) && l.open ==> Given(k, r.k) == [])
    decreases n, l.buffered == []
  {
    hide Fill, Unread, Fits, AtRest, Dead, Lost, Jammed, Sticky, Given, Stuck;
    if n == 0 {
      NothingGiven(k);
      SameLine(y, l);
      NoneTaken(l);
    } else if l.buffered == [] {
      var t := Fill(y, l);
      FillFacts(y, l);
      StuckAtRest(y, t.l);
      NothingGiven(k);
      NoneTaken(t.l);
      if t.ok {
        CopyFacts(y, d, t.l, k, n);
        CopyOn(y, d, l, t.l, Copy(y, d, t.l, k, n));
      }
    } else {
      var m := Least(n, |l.buffered|);
      if d(k.writes) {
        ClosedIsLater(y, l);
        NothingGiven(k);
        NoneTaken(l);
        SameUnread(l);
      } else {
        var part, rest := l.buffered[..m], l.(buffered := l.buffered[m..]);
        var k1 := k.(body := k.body + part, writes := k.writes + 1);
        DropFacts(y, l, m);
        CopyFacts(y, d, rest, k1, n - m);
        var r := Copy(y, d, rest, k1, n - m);
        CopyOn(y, d, l, rest, r);
        GivenMore(k, part, k1, r.k);
        StuckAtRest(y, l);
        FrontTaken(l, m);
        assert part + (Given(k1, r.k) + Unread(r.l)) == (part + Given(k1, r.k)) + Unread(r.l);
      }
    }
  }

  lemma NothingGiven(k: Sink)
    ensures forall w :: Given(k, k.(writes := w)) == []
    ensures Given(k, k) == []
  {
  }

  lemma StuckAtRest(y: System, l: Line)
    ensures l.buffered == [] ==> AtRest(y, l)
    ensures Stuck(y, l) ==> l.buffered == []
    ensures Dead(y, l) && l.open ==> l.buffered == []
  {
  }

  lemma SameUnread(l: Line)
    ensures Unread(l.(open := false)) == Unread(l)
  {
  }

  /** A copy that goes on from a later line. */
  lemma CopyOn(y: System, d: Declines, l: Line, m: Line, r: Copied)
    requires Later(y, l, m) && Later(y, m, r.l)
    ensures Later(y, l, r.l)
    ensures !r.ok && Lost(y, m, r.l) ==> Lost(y, l, r.l)
  {
    LaterTwice(y, l, m, r.l);
    SameLine(y, r.l);
    if !r.ok && Lost(y, m, r.l) {
      LostLater(y, l, m, r.l, r.l);
    }
  }

  lemma ClosedIsLater(y: System, l: Line)
    ensures Later(y, l, l.(open := false)) && Lost(y, l, l.(open := false))
  {
  }

  lemma GivenMore(k: Sink, part: seq<byte>, k1: Sink, r: Sink)
    requires k1.body == k.body + part <= r.body
    ensures k.body <= r.body && Given(k, r) == part + Given(k1, r)
  {
    assert r.body == (k.body + part) + r.body[|k.body + part|..];
  }

  /** The first four bytes of u are a head, and the line stands at what follows. */
  ghost predicate Headed(u: seq<byte>, code: int, len: nat, l: Line)
  {
    |u| >= 4 && u[4..] == Unread(l) && code == u[0] && len == Length(u[1], u[2], u[3])
  }

  /** A turn as the bytes ahead say. */
  ghost predicate Handled(f: Found, k: Sink, t: Turn)
  {
    match f
    case Got(item, rest) =>
      && k.body <= t.k.body <= k.body + BodyOf(item)
      && (t.whole ==>
            && Unread(t.l) == rest && t.k.body == k.body + BodyOf(item)
            && t.k.events == k.events + EventsOf(item, |k.body|) && t.keep == AsksToKeep(item))
    case Short(part) => k.body <= t.k.body <= k.body + part && !t.whole
    case TooLong => true
  }

  /** A turn when no call fails: it is whole unless the bytes end. */
  ghost predicate Unhindered(f: Found, k: Sink, t: Turn)
  {
    match f
    case Got(_, _) => t.whole
    case Short(part) => !t.whole && t.k.body == k.body + part
    case TooLong => true
  }

  /** What every branch of the switch promises. */
  ghost predicate Switched(y: System, d: Declines, u: seq<byte>, code: int, len: nat, l: Line, k: Sink, t: Turn)
  {
    && Later(y, l, t.l) && (Fits(y, l) && AtRest(y, l) ==> AtRest(y, t.l) || !t.l.open)
    && (if t.whole then t.l.open == l.open && t.code == code else Lost(y, l, t.l))
    && k.body <= t.k.body && (Dead(y, l) && l.open ==> t.k.body == k.body)
    && (Headed(u, code, len, l) ==> Handled(ReadItem(u), k, t))
    && (Headed(u, code, len, l) && l.open && Quiet(y, l.calls, t.l.calls) && Willing(d, k.writes, t.k.writes) ==>
          Unhindered(ReadItem(u), k, t))
  }

  /** What a reader of len bytes of v has taken. */
  lemma Payload(v: seq<byte>, len: nat, data: seq<byte>, rest: seq<byte>)
    ensures v == data + rest && |data| == len ==> |v| >= len && data == v[..len] && rest == v[len..]
    ensures v == data + rest && |data| < len && rest == [] ==> |v| < len && data == v
    ensures v == data + rest && |data| <= len && |v| >= len ==> data <= v[..len]
    ensures v == data + rest ==> data <= v
  {
  }

  lemma SwitchText(y: System, d: Declines, u: seq<byte>, code: int, len: nat, l: Line, k: Sink)
    requires 0 <= code < 256 && code !in {HEADER, DATA, FLUSH, KEEPALIVE, SEND_HEADER}
    ensures Switched(y, d, u, code, len, l, k, Switch(y, d, code, len, l, k))
  {
    hide Take, Unread, Fits, AtRest, Dead, Lost, Jammed, Sticky, Stuck, Quiet, CString, Length, ReadItem;
    TakeFacts(y, l, len);
    TextItem(u, code);
    Payload(Unread(l), len, Take(y, l, len).data, Unread(Take(y, l, len).l));
    NoBody(k);
  }

  lemma NoBody(k: Sink)
    ensures forall x :: k.body + x == k.body <==> x == []
    ensures k.body <= k.body + [] && k.events + [] == k.events
  {
  }

  lemma SwitchData(y: System, d: Declines, u: seq<byte>, len: nat, l: Line, k: Sink)
    ensures Switched(y, d, u, DATA, len, l, k, Switch(y, d, DATA, len, l, k))
  {
    hide Copy, Unread, Fits, AtRest, Dead, Lost, Jammed, Sticky, Stuck, Quiet, Length, ReadItem;
    var r := Copy(y, d, l, k, len);
    CopyFacts(y, d, l, k, len);
    DataItem(u);
    Payload(Unread(l), len, Given(k, r.k), Unread(r.l));
    assert r.k.body == k.body + Given(k, r.k);
  }

  lemma SwitchSignal(y: System, d: Declines, u: seq<byte>, code: int, len: nat, l: Line, k: Sink)
    requires code in {FLUSH, KEEPALIVE, SEND_HEADER}
    ensures Switched(y, d, u, code, len, l, k, Switch(y, d, code, len, l, k))
  {
    hide Unread, Fits, AtRest, Dead, Lost, Jammed, Sticky, Stuck, Quiet, Length, ReadItem;
    SameLine(y, l);
    SignalItem(u);
    NoBody(k);
  }

  lemma SwitchHeader(y: System, d: Declines, u: seq<byte>, len: nat, l: Line, k: Sink)
    ensures Switched(y, d, u, HEADER, len, l, k, Switch(y, d, HEADER, len, l, k))
  {
    hide Take, ReadString, Unread, Fits, AtRest, Dead, Lost, Jammed, Sticky, Stuck, CString, Limited, Length, ReadItem,
         ReadValue, EventsOf, BodyOf, AsksToKeep, StringRead, EndsEarly;
    var key := Take(y, l, len);
    var v := ReadString(y, key.l, BUF_LENGTH + 1);
    TakeFacts(y, l, len);
    StringFacts(y, key.l, BUF_LENGTH + 1);
    LaterTwice(y, l, key.l, v.l);
    SameLine(y, v.l);
    HeaderItem(u);
    HeaderValue(key.data, Unread(key.l), v, |k.body|);
    Payload(Unread(l), len, key.data, Unread(key.l));
    if |key.data| < len {
      LostLater(y, l, l, key.l, v.l);
    } else if !v.whole {
      LostLater(y, l, key.l, v.l, v.l);
    }
    SameLine(y, l);
    NoBody(k);
  }

  /** What the value frame makes of a header. */
  lemma HeaderValue(key: seq<byte>, mid: seq<byte>, v: Text, at: nat)
    ensures StringRead(mid, v, BUF_LENGTH) ==>
              var f := ReadValue(key, mid);
              && f.Got? && f.rest == Unread(v.l)
              && EventsOf(f.item, at) == [Header(at, CString(key), v.text)]
    ensures EndsEarly(mid) <==> ReadValue(key, mid) == Short([])
    ensures !EndsEarly(mid) <==> ReadValue(key, mid).Got?
    ensures StringRead(mid, v, BUF_LENGTH) ==> !EndsEarly(mid)
  {
    hide Limited, Length, CString;
  }

  lemma SwitchFacts(y: System, d: Declines, u: seq<byte>, code: int, len: nat, l: Line, k: Sink)
    requires 0 <= code < 256
    ensures Switched(y, d, u, code, len, l, k, Switch(y, d, code, len, l, k))
  {
    hide Switch, Switched;
    if code == HEADER {
      SwitchHeader(y, d, u, len, l, k);
    } else if code == DATA {
      SwitchData(y, d, u, len, l, k);
    } else if code in {FLUSH, KEEPALIVE, SEND_HEADER} {
      SwitchSignal(y, d, u, code, len, l, k);
    } else {
      SwitchText(y, d, u, code, len, l, k);
    }
  }

  /** Where a failed turn leaves the line, as far as the start decides it. */
  ghost predicate Failed(y: System, l: Line, t: Turn)
  {
    && (l.open && Quiet(y, l.calls, t.l.calls) ==> !t.l.open)
    && (Clear(l) && t.code >= 0 ==> !t.l.open)
    && (Sticky(y) ==> Dead(y, t.l))
  }

  /** No call fails, or the start leaves nothing to lose, or a failed call is the last that matters. */
  ghost predicate Sure(y: System, l: Line, to: nat)
  {
    Quiet(y, l.calls, to) || Clear(l) || Sticky(y)
  }

  /** What one turn promises. */
  ghost predicate Stepped(y: System, d: Declines, l: Line, k: Sink, t: Turn)
  {
    && Later(y, l, t.l) && (Fits(y, l) ==> AtRest(y, t.l) || !t.l.open) && k.body <= t.k.body
    && (if t.whole then l.open && t.l.open && t.code >= 0 else Failed(y, l, t))
    && (Dead(y, l) ==> t.code == -1 && t.k.body == k.body)
    && (Clear(l) && t.code >= 0 ==> t.l.unsent == 0)
    && (l.open && Sure(y, l, t.l.calls) ==> Handled(ReadItem(Unread(l)), k, t))
    && (t.whole ==> Unread(l) != [] && t.code == Unread(l)[0])
    && (l.open && Quiet(y, l.calls, t.l.calls) && Willing(d, k.writes, t.k.writes) ==>
          Unhindered(ReadItem(Unread(l)), k, t))
  }

  lemma StepFacts(y: System, d: Declines, l: Line, k: Sink)
    ensures Stepped(y, d, l, k, Step(y, d, l, k))
  {
    hide ReadHead, Switch, Unread, Fits, AtRest, Dead, Jammed, Sticky, Stuck, Length, ReadItem, EventsOf, BodyOf,
         AsksToKeep, Clear;
    var u, h, t := Unread(l), ReadHead(y, l), Step(y, d, l, k);
    HeadFacts(y, l);
    ShortItem(u);
    NoBody(k);
    SameLine(y, l);
    SameLine(y, h.l);
    SameLine(y, t.l);
    ClosedIsDead(y, h.l);
    ClosedIsDead(y, l);
    NoSwitch(y, d, h.len, h.l, k);
    if h.l.open && h.code >= 0 {
      SwitchFacts(y, d, u, h.code, h.len, h.l, k);
      LaterTwice(y, l, h.l, t.l);
      if !h.whole {
        LostLater(y, l, l, h.l, t.l);
      } else if !t.whole {
        LostLater(y, l, h.l, t.l, t.l);
      }
    }
  }

  lemma NoSwitch(y: System, d: Declines, len: nat, l: Line, k: Sink)
    ensures Switch(y, d, -1, len, l, k) == Turn(-1, false, l, k, false)
  {
  }

  lemma ClosedIsDead(y: System, l: Line)
    ensures !l.open ==> Dead(y, l)
  {
  }

  // ---- A whole answer ----

  /** The client has got all of these items, and nothing else. */
  ghost predicate HandedOn(items: seq<Item>, k: Sink, t: Turn)
  {
    && t.k.body == k.body + Body(items) && t.k.events == k.events + Events(items, |k.body|)
    && (t.keep <==> Keeps(items))
  }

  /** What is certain at the end of an answer: the client has the start of it, and whole means all of it. */
  ghost predicate Told(a: Answer, k: Sink, t: Turn)
  {
    a.Wild? ||
    (&& k.body <= t.k.body <= k.body + Delivered(a)
     && (t.whole ==>
           && a.Whole? && a.items != [] && t.code == LastCode(a.items)
           && Unread(t.l) == a.rest && HandedOn(a.items, k, t)))
  }

  /** What is certain if no call fails: only bytes that end early leave an answer short. */
  ghost predicate Completed(a: Answer, k: Sink, t: Turn)
  {
    match a
    case Whole(_, _) => t.whole
    case Broken(_, _) => !t.whole && t.k.body == k.body + Delivered(a)
    case Wild(_) => true
  }

  /** What `send_data` promises. */
  ghost predicate Served(y: System, d: Declines, l: Line, k: Sink, ack: byte, t: Turn)
  {
    && Later(y, l, t.l) && (Fits(y, l) ==> AtRest(y, t.l) || !t.l.open) && k.body <= t.k.body
    && (t.code == -1 || t.code in {0, END, CLOSE, ack})
    && (if t.whole then l.open && t.l.open && t.code >= 0 else Failed(y, l, t))
    && (Dead(y, l) ==> t.code == -1 && t.k.body == k.body)
    && (Clear(l) && t.code >= 0 ==> t.l.unsent == 0)
    && (l.open && Sure(y, l, t.l.calls) ==> Told(Answered(Unread(l), ack), k, t))
    && (l.open && Quiet(y, l.calls, t.l.calls) && Willing(d, k.writes, t.k.writes) ==>
          Completed(Answered(Unread(l), ack), k, t))
  }

  /** One item handed on, and then an answer to what follows it. */
  lemma ItemFirst(item: Item, a: Answer, k: Sink, k1: Sink, t: Turn, keep: bool)
    requires k1.body == k.body + BodyOf(item) && k1.events == k.events + EventsOf(item, |k.body|)
    requires keep == AsksToKeep(item) && Told(a, k1, t)
    ensures Told(Join([item], a), k, t.(keep := keep || t.keep))
  {
    hide BodyOf, EventsOf, AsksToKeep, Body, Events, Keeps, Delivered, Unread;
    FirstOf(item, a.items, |k.body|);
    JoinDelivered(item, a);
    assert (k.body + BodyOf(item)) + Delivered(a) == k.body + (BodyOf(item) + Delivered(a));
    LongerPrefix(k.body, BodyOf(item), t.k.body);
    if !a.Wild? && t.whole {
      assert ([item] + a.items)[|a.items|] == a.items[|a.items| - 1];
      assert (k.events + EventsOf(item, |k.body|)) + Events(a.items, |k1.body|)
          == k.events + (EventsOf(item, |k.body|) + Events(a.items, |k1.body|));
      assert (k.body + BodyOf(item)) + Body(a.items) == k.body + (BodyOf(item) + Body(a.items));
    }
  }

  lemma LongerPrefix(a: seq<byte>, b: seq<byte>, c: seq<byte>)
    ensures a + b <= c ==> a <= c
  {
  }

  lemma FirstOf(item: Item, items: seq<Item>, at: nat)
    ensures Body([item] + items) == BodyOf(item) + Body(items)
    ensures Events([item] + items, at) == EventsOf(item, at) + Events(items, at + |BodyOf(item)|)
    ensures Keeps([item] + items) <==> AsksToKeep(item) || Keeps(items)
  {
    hide BodyOf, EventsOf, AsksToKeep;
    var all := [item] + items;
    assert all[1..] == items && all[0] == item;
    if Keeps(items) {
      var j :| 0 <= j < |items| && AsksToKeep(items[j]);
      assert all[j + 1] == items[j];
    }
    if Keeps(all) {
      var j :| 0 <= j < |all| && AsksToKeep(all[j]);
      assert j > 0 ==> items[j - 1] == all[j];
    }
  }

  /** The last item of an answer handled. */
  lemma ItemLast(item: Item, k: Sink, t: Turn, ack: byte, rest: seq<byte>)
    requires Handled(Got(item, rest), k, t) && (t.whole ==> t.code == First(item).code)
    ensures Told(Whole([item], rest), k, t)
  {
    hide BodyOf, EventsOf, AsksToKeep, Keeps;
    FirstOf(item, [], |k.body|);
    assert [item] + [] == [item];
    assert Body([]) == [] && Events([], |k.body| + |BodyOf(item)|) == [] && !Keeps([]) by {
      NoItems(|k.body| + |BodyOf(item)|);
    }
    assert BodyOf(item) + [] == BodyOf(item) && EventsOf(item, |k.body|) + [] == EventsOf(item, |k.body|);
  }

  lemma NoItems(at: nat)
    ensures Body([]) == [] && Events([], at) == [] && !Keeps([])
  {
  }

  /** An answer given up within its first item. */
  lemma WithinItem(f: Found, k: Sink, t: Turn, ack: byte)
    requires Handled(f, k, t) && !f.TooLong?
    ensures var a := Continued([], f, ack);
            a.Wild? || k.body <= t.k.body <= k.body + Delivered(a)
  {
    hide BodyOf, Answered, Body, Stops, Delivered;
    var a := Continued([], f, ack);
    if f.Got? && !a.Wild? {
      ItemDelivered(f.item, f.rest, ack);
      Between(k.body, [], BodyOf(f.item), Delivered(a), t.k.body);
    } else if f.Short? {
      WithinShort(f, k, ack);
    }
  }

  lemma ItemDelivered(item: Item, rest: seq<byte>, ack: byte)
    ensures var a := Continued([], Got(item, rest), ack);
            !a.Wild? ==> [] + BodyOf(item) <= Delivered(a)
  {
    hide BodyOf, Answered, Stops, Body, Delivered;
    var more := if Stops(item, ack) then Whole([], rest) else Answered(rest, ack);
    JoinDelivered(item, more);
    assert [] + [item] == [item] && [item] + [] == [item];
    assert Continued([], Got(item, rest), ack) == Join([item], more);
  }

  lemma AnsweredIs(u: seq<byte>, ack: byte)
    ensures Answered(u, ack) == Continued([], ReadItem(u), ack)
  {
    hide ReadItem;
    JoinStep([], u, ack);
    assert [] + Answered(u, ack).items == Answered(u, ack).items;
  }

  /** A turn that ends the loop. */
  lemma ServeEnds(y: System, d: Declines, l: Line, k: Sink, ack: byte, t: Turn)
    requires ack != HEADER && t.code >= -1 && Ends(t.code, ack) && Stepped(y, d, l, k, t)
    ensures Served(y, d, l, k, ack, t)
  {
    hide ReadItem, Unread, Later, Fits, AtRest, Dead, Sticky, Clear, Quiet, Willing, Delivered, Stops;
    var u, f := Unread(l), ReadItem(Unread(l));
    AnsweredIs(u, ack);
    ItemCode(u);
    OneItem([], u, ack, 0);
    if l.open && Sure(y, l, t.l.calls) && !f.TooLong? {
      WithinItem(f, k, t, ack);
      if t.whole {
        assert [] + [f.item] == [f.item];
        ItemLast(f.item, k, t, ack, f.rest);
      }
    }
    if l.open && Quiet(y, l.calls, t.l.calls) && f.Got? {
      assert [] + [f.item] == [f.item];
    } else if f.Short? {
      WithinShort(f, k, ack);
    }
  }

  lemma WithinShort(f: Found, k: Sink, ack: byte)
    requires f.Short?
    ensures k.body + f.part == k.body + Delivered(Continued([], f, ack))
  {
    NoItems(0);
    assert [] + f.part == f.part;
  }

  /** What a failed turn leaves to the rest of an answer. */
  lemma FailedOn(y: System, l: Line, t: Turn, m: Turn)
    requires Later(y, t.l, m.l) && t.code > 0 && Failed(y, l, t) && l.calls <= t.l.calls
    ensures Failed(y, l, m)
    ensures l.open && Sure(y, l, m.l.calls) ==> Dead(y, t.l)
  {
    hide Fits, Sticky;
  }

  /** The rest of an answer after a turn that does not end it. */
  lemma ServeOn(y: System, d: Declines, l: Line, k: Sink, ack: byte, t: Turn, m: Turn)
    requires ack != HEADER && t.code > 0 && !Ends(t.code, ack) && k.writes <= t.k.writes <= m.k.writes
    requires Stepped(y, d, l, k, t) && Served(y, d, t.l, t.k, ack, m)
    ensures Served(y, d, l, k, ack, m.(keep := t.keep || m.keep, whole := t.whole && m.whole))
  {
    hide ReadItem, Unread, Fits, AtRest, Dead, Sticky, Willing, Delivered, Stops, Told, Completed, Handled, Unhindered;
    var u, f := Unread(l), ReadItem(Unread(l));
    var r := m.(keep := t.keep || m.keep, whole := t.whole && m.whole);
    LaterTwice(y, l, t.l, m.l);
    if !t.whole {
      FailedOn(y, l, t, m);
    }
    if l.open && Sure(y, l, m.l.calls) {
      ServeTold(y, d, l, k, ack, t, m);
    }
    if l.open && Quiet(y, l.calls, m.l.calls) && Willing(d, k.writes, m.k.writes) {
      ServeCompleted(y, d, l, k, ack, t, m);
    }
  }

  lemma SureOn(y: System, l: Line, t: Turn, to: nat)
    requires Sure(y, l, to) && l.calls <= t.l.calls <= to && (Clear(l) ==> t.l.unsent == 0)
    ensures Sure(y, l, t.l.calls) && Sure(y, t.l, to)
  {
  }

  lemma ServeTold(y: System, d: Declines, l: Line, k: Sink, ack: byte, t: Turn, m: Turn)
    requires ack != HEADER && t.code > 0 && !Ends(t.code, ack) && l.open && Sure(y, l, m.l.calls)
    requires Stepped(y, d, l, k, t) && Served(y, d, t.l, t.k, ack, m)
    ensures Told(Answered(Unread(l), ack), k, m.(keep := t.keep || m.keep, whole := t.whole && m.whole))
  {
    hide ReadItem, Unread, Fits, AtRest, Dead, Sticky, Quiet, Clear, Delivered, Stops, Answered, Sure;
    var u, f := Unread(l), ReadItem(Unread(l));
    SureOn(y, l, t, m.l.calls);
    AnsweredIs(u, ack);
    ItemCode(u);
    OneItem([], u, ack, 0);
    if f.TooLong? {
    } else if t.whole {
      assert [] + [f.item] == [f.item];
      ItemFirst(f.item, Answered(f.rest, ack), k, t.k, m, t.keep);
    } else {
      FailedOn(y, l, t, m);
      WithinItem(f, k, m.(whole := false), ack);
    }
  }

  lemma ServeCompleted(y: System, d: Declines, l: Line, k: Sink, ack: byte, t: Turn, m: Turn)
    requires ack != HEADER && t.code > 0 && !Ends(t.code, ack) && t.k.writes <= m.k.writes && k.writes <= t.k.writes
    requires l.open && Quiet(y, l.calls, m.l.calls) && Willing(d, k.writes, m.k.writes)
    requires Stepped(y, d, l, k, t) && Served(y, d, t.l, t.k, ack, m)
    ensures Completed(Answered(Unread(l), ack), k, m.(keep := t.keep || m.keep, whole := t.whole && m.whole))
  {
    hide ReadItem, Unread, Fits, AtRest, Dead, Sticky, Clear, Delivered, Stops, Answered, BodyOf, Body, Events,
         EventsOf, Keeps,
         AsksToKeep;
    var u, f := Unread(l), ReadItem(Unread(l));
    AnsweredIs(u, ack);
    ItemCode(u);
    OneItem([], u, ack, 0);
    if f.Got? {
      assert [] + [f.item] == [f.item];
      var a := Answered(f.rest, ack);
      JoinDelivered(f.item, a);
      assert (k.body + BodyOf(f.item)) + Delivered(a) == k.body + (BodyOf(f.item) + Delivered(a));
    } else if f.Short? {
      WithinShort(f, k, ack);
      FailedOn(y, l, t, m);
    }
  }

  lemma JoinDelivered(item: Item, a: Answer)
    ensures Delivered(Join([item], a)) == BodyOf(item) + Delivered(a)
  {
    BodyFirst(item, a.items);
    hide BodyOf, Body;
    var part := if a.Broken? then a.part else [];
    assert (BodyOf(item) + Body(a.items)) + part == BodyOf(item) + (Body(a.items) + part);
  }

  lemma BodyFirst(item: Item, items: seq<Item>)
    ensures Body([item] + items) == BodyOf(item) + Body(items)
  {
    hide BodyOf;
    assert ([item] + items)[1..] == items && ([item] + items)[0] == item;
  }

  lemma {:induction false} ServeFacts(y: System, d: Declines, l: Line, k: Sink, ack: byte)
    requires ack != HEADER
    ensures Served(y, d, l, k, ack, Serve(y, d, l, k, ack))
    decreases |Unread(l)|
  {
    hide Step, Stepped, Served;
    var t := Step(y, d, l, k);
    StepFacts(y, d, l, k);
    if Ends(t.code, ack) {
      ServeEnds(y, d, l, k, ack, t);
    } else {
      ServeFacts(y, d, t.l, t.k, ack);
      ServeOn(y, d, l, k, ack, t, Serve(y, d, t.l, t.k, ack));
    }
  }
}
