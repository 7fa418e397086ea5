/** `send_data` as it runs: the frame loop over the stream, and what the client gets. */
module Response {
  import opened Packets
  import opened Lines
  import opened Streams
  import opened Answers
  import opened Serving
  import opened Failures

  /** The client's end of the request. */
  class Client {
    const declines: Declines
    var body: seq<byte>
    var events: seq<Event>
    var writes: nat

    constructor (declines: Declines)
      ensures Value() == Sink([], [], 0) && this.declines == declines
    {
      this.declines, body, events, writes := declines, [], [], 0;
    }

    ghost function Value(): Sink
      reads this
    {
      Sink(body, events, writes)
    }

    /** `ap_rwrite` writes all it is given or fails. */
    method Write(data: seq<byte>) returns (n: int)
      modifies this`body, this`writes
      ensures writes == old(writes) + 1
      ensures n == if declines(old(writes)) then -1 else |data|
      ensures body == if declines(old(writes)) then old(body) else old(body) + data
    {
      if declines(writes) {
        n := -1;
      } else {
        body := body + data;
        n := |data|;
      }
      writes := writes + 1;
    }

    method Note(e: Event)
      modifies this`events
      ensures Value() == Noted(old(Value()), e)
    {
      events := events + [e];
    }
  }

  /** The stream and the client are where some turns of the loop leave them. */
  twostate predicate Reached(s: Stream, c: Client, t: Turn)
    reads s, s.wire, s.readBuf, s.writeBuf, c
  {
    s.Became(t.l) && c.Value() == t.k
  }

  /** A piece of what is buffered, copied to the client; a client that declines it costs the socket. */
  method CopyPiece(s: Stream, c: Client, max: nat) returns (n: int)
    requires s.Valid() && s.readOffset < s.readLength && max > 0
    modifies s`socket, s`readOffset, c`body, c`writes
    ensures var l, k := old(s.Value()), old(c.Value());
            var m := Least(max, |l.buffered|);
            && l.buffered != []
            && if c.declines(k.writes) then
                 n == -1 && s.Became(l.(open := false)) && c.Value() == k.(writes := k.writes + 1)
               else
                 && n == m && s.Became(l.(buffered := l.buffered[m..]))
                 && c.Value() == k.(body := k.body + l.buffered[..m], writes := k.writes + 1)
  {
    hide Stream.Output, Fits;
    var sublen := s.readLength - s.readOffset;
    if max < sublen {
      sublen := max;
    }
    ghost var b := s.Buffered();
    assert s.readBuf[s.readOffset..s.readOffset + sublen] == b[..sublen];
    n := c.Write(s.readBuf[s.readOffset..s.readOffset + sublen]);
    if n < 0 {
      s.Close();
      return;
    }
    var part := s.Peel(sublen);
  }

  /** `cse_write_response`: copies straight from the read buffer, one buffered piece at a time. */
  method WriteResponse(s: Stream, c: Client, len: nat) returns (result: int)
    requires s.Valid()
    modifies s`socket, s`writeLength, s`readOffset, s`readLength, s`waits, s.wire, s.readBuf, c`body, c`writes
    ensures var r := Copy(s.wire.system, c.declines, old(s.Value()), old(c.Value()), len);
            && s.Became(r.l) && c.Value() == r.k
            && result == if r.ok then 1 else -1
  {
    hide Stream.Output, Stream.Buffered, Fill, Fits;
    ghost var whole := Copy(s.wire.system, c.declines, s.Value(), c.Value(), len);
    var left: nat := len;
    while left > 0
      invariant s.Valid() && s.Became(s.Value()) && c.events == old(c.events)
      invariant Copy(s.wire.system, c.declines, s.Value(), c.Value(), left) == whole
    {
      s.OffsetIsEmpty();
      if s.readOffset >= s.readLength {
        var n := s.FillBuffer();
        if n < 0 {
          return -1;
        }
        s.OffsetIsEmpty();
      }
      var n := CopyPiece(s, c, left);
      if n < 0 {
        return -1;
      }
      left := left - n;
    }
    result := 1;
  }

  /** The frame loop's switch, once a head has been read. */
  method Frame(s: Stream, c: Client, code: int, len: nat) returns (ok: bool, keepalive: bool)
    requires s.Valid() && -1 <= code < 256
    modifies s`socket, s`writeLength, s`readOffset, s`readLength, s`waits, s.wire, s.readBuf, c
    ensures var t := Switch(s.wire.system, c.declines, code, len, old(s.Value()), old(c.Value()));
            Reached(s, c, t) && keepalive == t.keep && (if ok then code else -1) == t.code
  {
    hide Stream.Output, Stream.Buffered, Take, Lines.ReadString, Copy, Fits;
    ok, keepalive := true, false;
    if code == STATUS {
      var n, buf := s.ReadAll(len);
      c.Note(Status(|c.body|, CString(buf)));
    } else if code == HEADER {
      var n, key := s.ReadAll(len);
      var m, value := s.ReadString(BUF_LENGTH + 1);
      c.Note(Header(|c.body|, CString(key), value));
    } else if code == DATA {
      var r := WriteResponse(s, c, len);
      ok := r >= 0;
    } else if code == FLUSH {
      c.Note(Flushed(|c.body|));
    } else if code == KEEPALIVE {
      keepalive := true;
    } else if code == SEND_HEADER {
      c.Note(HeadersSent(|c.body|));
    } else if code != -1 {
      var n, buf := s.ReadAll(len);
    }
  }

  /** One iteration of the loop of `send_data`; code -1 when it gives up. */
  method Iterate(s: Stream, c: Client) returns (code: int, keepalive: bool)
    requires s.Valid()
    modifies s`socket, s`writeLength, s`readOffset, s`readLength, s`waits, s.wire, s.readBuf, c
    ensures var t := Step(s.wire.system, c.declines, old(s.Value()), old(c.Value()));
            Reached(s, c, t) && keepalive == t.keep && code == t.code
  {
    hide Stream.Output, Stream.Buffered, Lines.ReadHead, Switch, Fits;
    var l3, len;
    code, l3, len := s.ReadHead();
    if s.socket < 0 {
      return -1, false;
    }
    var ok;
    ok, keepalive := Frame(s, c, code, len);
    if !ok {
      code := -1;
    }
  }

  /**
   * `send_data`, against any servlet runner and whatever fails: it does what `Serve` says, and
   * `Served` is what that promises. An end frame cut short by a flush that stays refused is taken
   * for the end of the answer, with the socket open and the rest of the frame still to come.
   */
  method SendData(s: Stream, c: Client, ack: byte) returns (code: int, keepalive: bool)
    requires s.Valid() && ack !in {STATUS, HEADER, DATA, FLUSH, KEEPALIVE, SEND_HEADER}
    modifies s`socket, s`writeLength, s`readOffset, s`readLength, s`waits, s.wire, s.readBuf, c
    ensures var t := Serve(s.wire.system, c.declines, old(s.Value()), old(c.Value()), ack);
            && Reached(s, c, t) && code == t.code && keepalive == t.keep
            && Served(s.wire.system, c.declines, old(s.Value()), old(c.Value()), ack, t)
    ensures CutShort(s.wire.system, old(s.Value())) ==>
              code == END && s.socket >= 0 && s.wire.incoming == old(s.wire.incoming)
  {
    hide Stream.Output, Stream.Buffered, Step, Fits, Served, CutShort;
    CutShortEnds(s.wire.system, c.declines, s.Value(), c.Value(), ack);
    ghost var whole := Serve(s.wire.system, c.declines, s.Value(), c.Value(), ack);
    ServeFacts(s.wire.system, c.declines, s.Value(), c.Value(), ack);
    keepalive := false;
    while true
      invariant s.Valid() && s.Became(s.Value())
      invariant var r := Serve(s.wire.system, c.declines, s.Value(), c.Value(), ack);
        whole.code == r.code && whole.l == r.l && whole.k == r.k && whole.keep == (keepalive || r.keep)
      decreases |Unread(s.Value())|
    {
      var keep;
      code, keep := Iterate(s, c);
      keepalive := keepalive || keep;
      if code <= 0 || code == END || code == CLOSE || code == ack {
        return;
      }
    }
  }
}
