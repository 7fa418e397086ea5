/**
 * The buffered stream as a value: what it has received, what is still to come, how much is
 * unsent. Every read and write of the plugin is a function on it, for every answer of the system.
 */
module Lines {
  import opened Packets

  /**
   * The operating system's answers on one socket. `refuses` says which calls fail, `sizes` how
   * much a receive yields at most, less one. A receive never reaches past a stop; stops are counted
   * in bytes still to come, and stand for places where the peer waits before it sends on.
   */
  datatype System = System(refuses: nat -> bool, stops: int -> bool, sizes: nat -> nat)

  datatype Line = Line(buffered: seq<byte>, incoming: seq<byte>, unsent: nat, calls: nat, open: bool)

  /** Everything still to be read, received or not. */
  function Unread(l: Line): seq<byte> { l.buffered + l.incoming }

  /** A line the plugin's buffers hold; what is buffered does not reach past a stop. */
  ghost predicate Fits(y: System, l: Line)
  {
    && |l.buffered| <= BUF_LENGTH && l.unsent <= BUF_LENGTH
    && forall m :: |l.incoming| < m < |l.incoming| + |l.buffered| ==> !y.stops(m)
  }

  /** No call in a range has been refused. */
  ghost predicate Quiet(y: System, from: nat, to: nat)
  {
    forall k :: from <= k < to ==> !y.refuses(k)
  }

  /** A broken connection: once a call is refused, so are all later ones. */
  ghost predicate Sticky(y: System)
  {
    forall j, k :: 0 <= j <= k && y.refuses(j) ==> y.refuses(k)
  }

  /** A connection that breaks at call n: it stays broken, and the calls before n are the quiet ones. */
  lemma BreaksAt(n: nat, stops: int -> bool, sizes: nat -> nat, from: nat, to: nat)
    ensures var y := System(j => j >= n, stops, sizes);
            Sticky(y) && (Quiet(y, from, to) <==> to <= n || to <= from)
  {
    var y := System(j => j >= n, stops, sizes);
    if n < to && from < to {
      assert y.refuses(to - 1);
    }
  }

  /** A single refused call does not make a broken connection. */
  lemma RefusedOnce(n: nat, stops: int -> bool, sizes: nat -> nat, from: nat, to: nat)
    ensures var y := System(j => j == n, stops, sizes);
            !Sticky(y) && (Quiet(y, from, to) <==> !(from <= n < to))
  {
    var y := System(j => j == n, stops, sizes);
    assert y.refuses(n) && !y.refuses(n + 1);
  }

  /** Nothing received is unread, or nothing written is unsent. */
  predicate Clear(l: Line) { l.buffered == [] || l.unsent == 0 }

  /** At a stop, nothing beyond it has been received. */
  predicate AtRest(y: System, l: Line) { y.stops(|Unread(l)|) ==> l.buffered == [] }

  /** A flush has just been refused, and a read cannot do without one. */
  predicate Jammed(y: System, l: Line)
  {
    l.buffered == [] && l.unsent > 0 && l.calls > 0 && y.refuses(l.calls - 1)
  }

  /** Nothing will be read from this line any more. */
  ghost predicate Dead(y: System, l: Line) { !l.open || (Sticky(y) && Jammed(y, l)) }

  // ---- Reading ----

  /** How far a receive reaches: to the next stop, or as far as it may. */
  function Reach(y: System, total: nat, n: nat, cap: nat): (r: nat)
    requires 1 <= n <= cap
    ensures n <= r <= cap
    ensures forall m :: total - r < m <= total - n ==> !y.stops(m)
    ensures r < cap ==> y.stops(total - r)
    decreases cap - n
  {
    if n == cap || y.stops(total - n) then n else Reach(y, total, n + 1, cap)
  }

  function Least(a: nat, b: nat): nat { if a < b then a else b }

  /** What a receive yields of the bytes to come. */
  function Piece(y: System, l: Line): (n: nat)
    requires l.incoming != []
    ensures 1 <= n <= |l.incoming| && n <= BUF_LENGTH && n <= y.sizes(l.calls) + 1
    ensures forall m :: |l.incoming| - n < m < |l.incoming| ==> !y.stops(m)
  {
    Reach(y, |l.incoming|, 1, Least(Least(y.sizes(l.calls) + 1, BUF_LENGTH), |l.incoming|))
  }

  datatype Tried = Tried(ok: bool, l: Line)

  /** `cse_flush` */
  function Flush(y: System, l: Line): Tried
  {
    if l.unsent == 0 then Tried(true, l)
    else if !l.open then Tried(false, l)
    else if y.refuses(l.calls) then Tried(false, l.(calls := l.calls + 1))
    else Tried(true, l.(calls := l.calls + 1, unsent := 0))
  }

  /** The wait on the peer. */
  function Receive(y: System, l: Line): (t: Tried)
    ensures l.buffered == [] ==> Unread(t.l) == Unread(l)
  {
    if y.refuses(l.calls) || l.incoming == [] then Tried(false, l.(calls := l.calls + 1, open := false))
    else
      var n := Piece(y, l);
      Tried(true, l.(calls := l.calls + 1, buffered := l.incoming[..n], incoming := l.incoming[n..]))
  }

  /** `cse_fill_buffer`: flushes before it waits. */
  function Fill(y: System, l: Line): (t: Tried)
    ensures l.buffered == [] ==> Unread(t.l) == Unread(l)
    ensures t.ok ==> t.l.buffered != []
  {
    if !l.open then Tried(false, l)
    else if !Flush(y, l).ok then Flush(y, l)
    else Receive(y, Flush(y, l).l)
  }

  datatype Bite = Bite(b: int, l: Line)

  function Pop(l: Line): Line
    requires l.buffered != []
  {
    l.(buffered := l.buffered[1..])
  }

  /** `cse_read_byte`: the next byte, or -1 with nothing read. */
  function Byte(y: System, l: Line): (r: Bite)
    ensures -1 <= r.b < 256
    ensures if r.b >= 0 then Unread(l) == [r.b] + Unread(r.l) else Unread(r.l) == Unread(l)
  {
    if l.buffered != [] then Bite(l.buffered[0], Pop(l))
    else
      var t := Fill(y, l);
      if t.ok then Bite(t.l.buffered[0], Pop(t.l)) else Bite(-1, t.l)
  }

  datatype Bites = Bites(data: seq<byte>, l: Line)

  /** A line with something buffered, if it can be had. */
  function Filled(y: System, l: Line): (t: Tried)
    ensures Unread(t.l) == Unread(l) && (t.ok ==> t.l.buffered != [])
  {
    if l.buffered == [] then Fill(y, l) else Tried(true, l)
  }

  /** One iteration of a read loop: what is buffered, received first if there is nothing. */
  function Portion(y: System, l: Line, n: nat): (r: Bites)
    requires n > 0
    ensures |r.data| <= n && Unread(l) == r.data + Unread(r.l)
    ensures r.data != [] <==> Filled(y, l).ok
  {
    var t := Filled(y, l);
    hide Filled;
    if !t.ok then
      NoneTaken(t.l);
      Bites([], t.l)
    else
      var m := Least(n, |t.l.buffered|);
      FrontTaken(t.l, m);
      Bites(t.l.buffered[..m], t.l.(buffered := t.l.buffered[m..]))
  }

  /** `cse_read_all` and `cse_skip`: the next n bytes, or what there was before a fill failed. */
  function Take(y: System, l: Line, n: nat): (r: Bites)
    ensures |r.data| <= n && Unread(l) == r.data + Unread(r.l)
    decreases n
  {
    hide Portion, Unread;
    if n == 0 then
      NoneTaken(l);
      Bites([], l)
    else
      var p := Portion(y, l, n);
      if p.data == [] then p
      else
        var r := Take(y, p.l, n - |p.data|);
        assert p.data + (r.data + Unread(r.l)) == (p.data + r.data) + Unread(r.l);
        Bites(p.data + r.data, r.l)
  }

  /** A read after some bytes, one portion further. */
  lemma TakeOn(y: System, before: seq<byte>, l: Line, n: nat)
    ensures var r := Take(y, l, n);
            if n == 0 then before + r.data == before && r.l == l
            else
              var p := Portion(y, l, n);
              if p.data == [] then before + r.data == before && r.l == p.l
              else
                var q := Take(y, p.l, n - |p.data|);
                r.l == q.l && before + r.data == (before + p.data) + q.data
  {
    hide Portion;
    if n > 0 {
      var p := Portion(y, l, n);
      if p.data != [] {
        var q := Take(y, p.l, n - |p.data|);
        assert before + (p.data + q.data) == (before + p.data) + q.data;
      }
    }
  }

  lemma NoneTaken(l: Line)
    ensures [] + Unread(l) == Unread(l)
  {
  }

  lemma FrontTaken(l: Line, m: nat)
    requires m <= |l.buffered|
    ensures Unread(l) == l.buffered[..m] + Unread(l.(buffered := l.buffered[m..]))
  {
    assert l.buffered == l.buffered[..m] + l.buffered[m..];
    assert (l.buffered[..m] + l.buffered[m..]) + l.incoming == l.buffered[..m] + (l.buffered[m..] + l.incoming);
  }

  /** The head of a frame; whole: every byte of it was there. */
  datatype Heading = Heading(code: int, l3: int, len: nat, l: Line, whole: bool)

  /** The three reads of a length; a byte that fails counts as 255. */
  function Lengths(y: System, l: Line): (h: Heading)
    ensures -1 <= h.l3 < 256 && h.len < MAX_LENGTH && |Unread(h.l)| <= |Unread(l)|
  {
    var b1 := Byte(y, l);
    var b2 := Byte(y, b1.l);
    var b3 := Byte(y, b2.l);
    Heading(-1, b3.b, 65536 * (b1.b % 256) + 256 * (b2.b % 256) + b3.b % 256, b3.l, b1.b >= 0 && b2.b >= 0 && b3.b >= 0)
  }

  /** The four reads that open every frame. */
  function ReadHead(y: System, l: Line): (h: Heading)
    ensures -1 <= h.code < 256 && -1 <= h.l3 < 256 && h.len < MAX_LENGTH
    ensures |Unread(h.l)| <= |Unread(l)| && (h.code >= 0 ==> |Unread(h.l)| < |Unread(l)|)
  {
    var b := Byte(y, l);
    var h := Lengths(y, b.l);
    Heading(b.b, h.l3, h.len, h.l, b.b >= 0 && h.whole)
  }

  /** A text read into a buffer; whole: all of its frame was there. */
  datatype Text = Text(text: seq<byte>, l: Line, whole: bool)

  /** `cse_read_limit` */
  function ReadLimit(y: System, l: Line, buflen: nat, readlen: nat): (r: Text)
    requires buflen > 0
    ensures |Unread(r.l)| <= |Unread(l)|
  {
    if buflen > readlen then
      var t := Take(y, l, readlen);
      Text(CString(t.data), t.l, |t.data| == readlen)
    else
      var t := Take(y, l, buflen);
      var s := Take(y, t.l, readlen - buflen);
      Text(CString(if |t.data| == buflen then t.data[..buflen - 1] else t.data), s.l,
           |t.data| == buflen && |s.data| == readlen - buflen)
  }

  /** `cse_read_string`: the next frame, whatever its code, as a C string. */
  function ReadString(y: System, l: Line, length: nat): (r: Text)
    requires length > 1
    ensures |Unread(r.l)| <= |Unread(l)|
  {
    var h := ReadHead(y, l);
    if !h.l.open || h.l3 < 0 then Text([], h.l, false)
    else
      var r := ReadLimit(y, h.l, length - 1, h.len);
      r.(whole := h.whole && r.whole)
  }

  // ---- Writing ----

  /** A packet handed to the stream: how much was still to be read then, and whether it was open. */
  datatype Mark = Mark(p: Packet, unread: nat, open: bool)

  /** What a write sends to make room; the buffer is given up even if that fails. */
  function SendOff(y: System, l: Line): Tried
  {
    if !l.open then Tried(false, l.(unsent := 0))
    else if y.refuses(l.calls) then Tried(false, l.(calls := l.calls + 1, unsent := 0, open := false))
    else Tried(true, l.(calls := l.calls + 1, unsent := 0))
  }

  /** `cse_write` of n bytes. */
  function Write(y: System, l: Line, n: nat): Line
  {
    if l.unsent + n <= BUF_LENGTH then l.(unsent := l.unsent + n)
    else
      var t := if l.unsent > 0 then SendOff(y, l) else Tried(true, l);
      if !t.ok then t.l
      else if n > BUF_LENGTH then SendOff(y, t.l).l
      else t.l.(unsent := t.l.unsent + n)
  }

  /** `cse_write_packet` with a payload of n bytes. */
  function Packed(y: System, l: Line, n: nat): Line { Write(y, Write(y, l, 4), n) }

  function PackedAll(y: System, l: Line, ps: seq<Packet>): Line
  {
    if ps == [] then l else Packed(y, PackedAll(y, l, ps[..|ps| - 1]), |ps[|ps| - 1].payload|)
  }

  // ---- What every read keeps ----

  /** From one line to a later one, some bytes have been read. */
  ghost predicate Later(y: System, l: Line, m: Line)
  {
    && l.calls <= m.calls && (m.open ==> l.open)
    && (l.unsent == 0 ==> m.unsent == 0)
    && (m.unsent == 0 || (m.unsent == l.unsent && m.incoming == l.incoming))
    && (Fits(y, l) ==> Fits(y, m))
    && (Dead(y, l) ==> Dead(y, m))
    && |Unread(m)| <= |Unread(l)|
  }

  lemma LaterTwice(y: System, l: Line, m: Line, n: Line)
    requires Later(y, l, m) && Later(y, m, n)
    ensures Later(y, l, n)
  {
    hide Fits, Dead;
  }

  /** A read that fails leaves nothing buffered, and the socket closed or a flush refused. */
  ghost predicate Stuck(y: System, m: Line) { m.buffered == [] && (!m.open || Jammed(y, m)) }

  /** What a failed read costs, as far as the start of reading decides it. */
  ghost predicate Lost(y: System, l: Line, m: Line)
  {
    && (Quiet(y, l.calls, m.calls) || l.unsent == 0 ==> !m.open)
    && (Sticky(y) ==> Dead(y, m))
  }

  lemma LostLater(y: System, k: Line, l: Line, m: Line, n: Line)
    requires Later(y, k, l) && Later(y, l, m) && Lost(y, l, m) && Later(y, m, n)
    ensures Lost(y, k, n)
  {
    hide Fits, Dead, Sticky;
  }

  lemma FillFacts(y: System, l: Line)
    requires l.buffered == []
    ensures var t := Fill(y, l);
            && Later(y, l, t.l)
            && (t.ok ==> t.l.unsent == 0 && t.l.open)
            && (!t.ok ==> Stuck(y, t.l) && Lost(y, l, t.l))
            && (l.open && Quiet(y, l.calls, t.l.calls) && !t.ok ==> Unread(t.l) == [])
            && (Dead(y, l) ==> !t.ok)
  {
  }

  lemma ByteFacts(y: System, l: Line)
    ensures var r := Byte(y, l);
            && Later(y, l, r.l)
            && (r.b >= 0 && Clear(l) ==> r.l.unsent == 0)
            && (r.b < 0 ==> Stuck(y, r.l) && Lost(y, l, r.l))
            && (l.open && Quiet(y, l.calls, r.l.calls) && r.b < 0 ==> Unread(r.l) == [])
            && (Fits(y, l) ==> AtRest(y, r.l))
            && (Dead(y, l) && l.open ==> r.b < 0)
            && (r.b >= 0 ==> r.l.open == l.open)
  {
    if l.buffered == [] {
      FillFacts(y, l);
    }
  }

  lemma PortionFacts(y: System, l: Line, n: nat)
    requires n > 0
    ensures var r := Portion(y, l, n);
            && Later(y, l, r.l)
            && (r.data == [] ==> Stuck(y, r.l) && Lost(y, l, r.l))
            && (l.open && Quiet(y, l.calls, r.l.calls) && r.data == [] ==> Unread(r.l) == [])
            && (Fits(y, l) ==> AtRest(y, r.l))
            && (Dead(y, l) && l.open ==> r.data == [])
            && (r.data != [] ==> r.l.open == l.open)
  {
    var t := Filled(y, l);
    if l.buffered == [] {
      FillFacts(y, l);
    } else {
      SameLine(y, l);
    }
    if t.ok {
      DropFacts(y, t.l, Least(n, |t.l.buffered|));
      LaterTwice(y, l, t.l, Portion(y, l, n).l);
    }
  }

  lemma {:induction false} TakeFacts(y: System, l: Line, n: nat)
    ensures var r := Take(y, l, n);
            && Later(y, l, r.l)
            && (|r.data| < n ==> Stuck(y, r.l) && Lost(y, l, r.l))
            && (l.open && Quiet(y, l.calls, r.l.calls) && |r.data| < n ==> Unread(r.l) == [])
            && (Fits(y, l) && (n > 0 || AtRest(y, l)) ==> AtRest(y, r.l))
            && (Dead(y, l) && l.open ==> r.data == [])
            && (|r.data| == n ==> r.l.open == l.open)
    decreases n
  {
    hide Portion, Fits, Dead, AtRest, Sticky, Stuck, Lost, Unread;
    if n == 0 {
      SameLine(y, l);
    } else {
      PortionFacts(y, l, n);
      var p := Portion(y, l, n);
      if p.data != [] {
        var r := Take(y, p.l, n - |p.data|);
        TakeFacts(y, p.l, n - |p.data|);
        LaterTwice(y, l, p.l, r.l);
        SameLine(y, r.l);
        if |r.data| < n - |p.data| {
          LostLater(y, l, p.l, r.l, r.l);
        }
      }
    }
  }

  /** Some of the buffered bytes read. */
  lemma DropFacts(y: System, l: Line, m: nat)
    requires 0 < m <= |l.buffered|
    ensures var rest := l.(buffered := l.buffered[m..]);
            Later(y, l, rest) && (Fits(y, l) ==> AtRest(y, rest))
  {
  }

  // ---- Heads and texts ----

  /** A head has been read from the front of u. */
  ghost predicate HeadRead(u: seq<byte>, h: Heading)
  {
    && |u| >= 4 && u[4..] == Unread(h.l)
    && h.code == u[0] && h.l3 == u[3] && h.len == Length(u[1], u[2], u[3])
  }

  lemma HeadIs(u: seq<byte>, b: byte, b1: byte, b2: byte, b3: byte, rest: seq<byte>)
    requires u == [b] + ([b1] + ([b2] + ([b3] + rest)))
    ensures |u| >= 4 && u[4..] == rest && u[0] == b && u[3] == b3
    ensures Length(u[1], u[2], u[3]) == 65536 * (b1 % 256) + 256 * (b2 % 256) + b3 % 256
  {
  }

  lemma LengthsFacts(y: System, l: Line)
    ensures var h := Lengths(y, l);
            && Later(y, l, h.l) && (Fits(y, l) ==> AtRest(y, h.l))
            && (if h.whole then h.l.open == l.open else Lost(y, l, h.l))
            && (l.open && Quiet(y, l.calls, h.l.calls) && !h.whole ==> |Unread(l)| < 3)
  {
    hide Byte, Lost, Dead, Fits, AtRest, Unread, Sticky, Jammed, Stuck;
    var b1 := Byte(y, l);
    var b2 := Byte(y, b1.l);
    var b3 := Byte(y, b2.l);
    ByteFacts(y, l);
    ByteFacts(y, b1.l);
    ByteFacts(y, b2.l);
    SameLine(y, l);
    SameLine(y, b3.l);
    if b1.b < 0 {
      LostLater(y, l, l, b1.l, b3.l);
    } else if b2.b < 0 {
      LostLater(y, l, b1.l, b2.l, b3.l);
    } else if b3.b < 0 {
      LostLater(y, l, b2.l, b3.l, b3.l);
    }
  }

  lemma SameLine(y: System, l: Line)
    ensures Later(y, l, l)
  {
  }

  lemma HeadFacts(y: System, l: Line)
    ensures var h := ReadHead(y, l);
            && Later(y, l, h.l) && (Fits(y, l) ==> AtRest(y, h.l))
            && (if h.whole then HeadRead(Unread(l), h) && h.l.open == l.open else Lost(y, l, h.l))
            && (h.code < 0 ==> !h.whole)
            && (Clear(l) && h.code >= 0 ==> h.l.unsent == 0 && (h.whole || !h.l.open))
            && (Dead(y, l) && l.open ==> h.code < 0)
            && (l.open && Quiet(y, l.calls, h.l.calls) && !h.whole ==> |Unread(l)| < 4)
  {
    var b := Byte(y, l);
    var h := ReadHead(y, l);
    if h.whole {
      var b1 := Byte(y, b.l);
      var b2 := Byte(y, b1.l);
      var b3 := Byte(y, b2.l);
      HeadIs(Unread(l), b.b, b1.b, b2.b, b3.b, Unread(b3.l));
    }
    hide Byte, Lengths, Dead, Fits, AtRest, Unread, Sticky, Jammed, Stuck, HeadRead;
    ByteFacts(y, l);
    LengthsFacts(y, b.l);
    SameLine(y, l);
    SameLine(y, h.l);
    if b.b < 0 {
      LostLater(y, l, l, b.l, h.l);
    } else if !h.whole {
      LostLater(y, l, b.l, h.l, h.l);
    }
  }

  /** The text of a payload has been read, as far as it fits. */
  ghost predicate LimitRead(u: seq<byte>, r: Text, buflen: nat, readlen: nat)
    requires buflen > 0
  {
    readlen <= |u| && u[readlen..] == Unread(r.l) && r.text == Limited(u[..readlen], buflen)
  }

  lemma LimitFacts(y: System, l: Line, buflen: nat, readlen: nat)
    requires buflen > 0
    ensures var r := ReadLimit(y, l, buflen, readlen);
            && Later(y, l, r.l) && (Fits(y, l) && AtRest(y, l) ==> AtRest(y, r.l))
            && (if r.whole then LimitRead(Unread(l), r, buflen, readlen) && r.l.open == l.open else Lost(y, l, r.l))
            && (l.open && Quiet(y, l.calls, r.l.calls) && !r.whole ==> |Unread(l)| < readlen)
  {
    hide Take, Dead, Fits, AtRest, Unread, Sticky, Jammed, Stuck, CString, Lost;
    var r := ReadLimit(y, l, buflen, readlen);
    SameLine(y, l);
    SameLine(y, r.l);
    if buflen > readlen {
      TakeFacts(y, l, readlen);
    } else {
      var t := Take(y, l, buflen);
      var s := Take(y, t.l, readlen - buflen);
      TakeFacts(y, l, buflen);
      TakeFacts(y, t.l, readlen - buflen);
      LaterTwice(y, l, t.l, s.l);
      assert t.data + (s.data + Unread(s.l)) == (t.data + s.data) + Unread(s.l);
      if |t.data| < buflen {
        LostLater(y, l, l, t.l, s.l);
        NothingAfter(y, t.l, readlen - buflen);
      } else if |s.data| < readlen - buflen {
        LostLater(y, l, t.l, s.l, s.l);
      } else {
        assert (t.data + s.data)[..buflen - 1] == t.data[..buflen - 1];
      }
    }
  }

  /** When nothing is left, nothing is read. */
  lemma NothingAfter(y: System, l: Line, n: nat)
    ensures Unread(l) == [] ==> Take(y, l, n).data == [] && Unread(Take(y, l, n).l) == []
  {
    hide Take;
  }

  /** A frame has been read from the front of u, and its text kept as far as it fits. */
  ghost predicate StringRead(u: seq<byte>, r: Text, m: nat)
    requires m > 0
  {
    && |u| >= 4
    && var n := 4 + Length(u[1], u[2], u[3]);
       n <= |u| && u[n..] == Unread(r.l) && r.text == Limited(u[4..n], m)
  }

  /** The bytes end before the frame they begin with does. */
  ghost predicate EndsEarly(u: seq<byte>)
  {
    |u| < 4 || |u| < 4 + Length(u[1], u[2], u[3])
  }

  lemma StringFacts(y: System, l: Line, length: nat)
    requires length > 1
    ensures var r := ReadString(y, l, length);
            && Later(y, l, r.l) && (Fits(y, l) && AtRest(y, l) ==> AtRest(y, r.l))
            && (if r.whole then StringRead(Unread(l), r, length - 1) && r.l.open == l.open else Lost(y, l, r.l))
            && (l.open && Quiet(y, l.calls, r.l.calls) && !r.whole ==> EndsEarly(Unread(l)))
  {
    hide ReadHead, ReadLimit, Dead, Fits, AtRest, Unread, Sticky, Jammed, Stuck, Limited, Length, Lost;
    var u, h, r := Unread(l), ReadHead(y, l), ReadString(y, l, length);
    SameLine(y, l);
    SameLine(y, r.l);
    HeadFacts(y, l);
    LimitFacts(y, h.l, length - 1, h.len);
    LaterTwice(y, l, h.l, r.l);
    if !h.whole {
      LostLater(y, l, l, h.l, r.l);
    } else if !h.l.open {
      ClosedIsLost(y, l, h.l);
    } else if r.whole {
      assert u[4..][..h.len] == u[4..4 + h.len] && u[4..][h.len..] == u[4 + h.len..];
    } else {
      LostLater(y, l, h.l, r.l, r.l);
    }
  }

  lemma ClosedIsLost(y: System, l: Line, m: Line)
    requires !m.open
    ensures Lost(y, l, m)
  {
  }

  // ---- What every write keeps ----

  /** From one line to a later one, something has been written. */
  ghost predicate Wrote(y: System, l: Line, m: Line)
  {
    && m.buffered == l.buffered && m.incoming == l.incoming
    && l.calls <= m.calls && (m.open ==> l.open)
    && (l.open && Quiet(y, l.calls, m.calls) ==> m.open)
    && (Dead(y, l) ==> Dead(y, m))
    && (l.unsent <= BUF_LENGTH ==> m.unsent <= BUF_LENGTH)
  }

  lemma WroteTwice(y: System, l: Line, m: Line, n: Line)
    requires Wrote(y, l, m) && Wrote(y, m, n)
    ensures Wrote(y, l, n)
  {
    hide Dead;
  }

  lemma WriteFacts(y: System, l: Line, n: nat)
    ensures Wrote(y, l, Write(y, l, n))
  {
  }

  lemma PackedFacts(y: System, l: Line, n: nat)
    ensures Wrote(y, l, Packed(y, l, n))
  {
    hide Write, Wrote;
    WriteFacts(y, l, 4);
    WriteFacts(y, Write(y, l, 4), n);
    WroteTwice(y, l, Write(y, l, 4), Packed(y, l, n));
  }

  lemma {:induction false} PackedAllFacts(y: System, l: Line, ps: seq<Packet>)
    ensures Wrote(y, l, PackedAll(y, l, ps))
  {
    if ps == [] {
    } else {
      hide Packed, Wrote;
      var before := PackedAll(y, l, ps[..|ps| - 1]);
      PackedAllFacts(y, l, ps[..|ps| - 1]);
      PackedFacts(y, before, |ps[|ps| - 1].payload|);
      WroteTwice(y, l, before, PackedAll(y, l, ps));
    }
  }
}
