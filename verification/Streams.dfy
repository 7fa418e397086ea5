/**
 * The buffered side of `stream_t`: a fixed write buffer and a fixed read buffer over a socket.
 * Each routine does to the buffers exactly what its function in `Lines` says, for every answer
 * of the system.
 */
module Streams {
  import opened Packets
  import opened Lines

  /** The operating system's end: what was sent, and what the peer will still deliver. */
  class Wire {
    const system: System
    var sent: seq<byte>
    var incoming: seq<byte>
    var calls: nat

    constructor (incoming: seq<byte>, system: System)
      ensures sent == [] && this.incoming == incoming && calls == 0 && this.system == system
    {
      this.system, sent, this.incoming, calls := system, [], incoming, 0;
    }

    /** `send` takes everything or fails. */
    method Send(data: seq<byte>) returns (n: int)
      modifies this`sent, this`calls
      ensures calls == old(calls) + 1
      ensures n == if system.refuses(old(calls)) then -1 else |data|
      ensures sent == if system.refuses(old(calls)) then old(sent) else old(sent) + data
    {
      if system.refuses(calls) {
        n := -1;
      } else {
        sent := sent + data;
        n := |data|;
      }
      calls := calls + 1;
    }

    /** `recv` yields some of the next bytes; 0 or -1 at the end or when refused. */
    method Recv() returns (n: int, data: seq<byte>)
      modifies this`incoming, this`calls
      ensures calls == old(calls) + 1
      ensures if !system.refuses(old(calls)) && old(incoming) != []
              then n == Piece(system, Line([], old(incoming), 0, old(calls), true)) && n == |data|
                   && data == old(incoming)[..n] && incoming == old(incoming)[n..]
              else -1 <= n <= 0 && data == [] && incoming == old(incoming)
    {
      n, data := -1, [];
      if !system.refuses(calls) {
        n := 0;
        if incoming != [] {
          n := Piece(system, Line([], incoming, 0, calls, true));
          data := incoming[..n];
          incoming := incoming[n..];
        }
      }
      calls := calls + 1;
    }
  }

  class Stream {
    var socket: int
    const wire: Wire
    const readBuf: array<byte>
    const writeBuf: array<byte>
    var readOffset: nat
    var readLength: int
    var writeLength: nat
    /** For each wait on the peer so far, how many of the stream's own bytes were still unsent. */
    ghost var waits: seq<nat>
    /** The packets written so far. */
    ghost var marks: seq<Mark>

    ghost predicate Valid()
      reads this`socket, this`readOffset, this`readLength, this`writeLength, this`waits, readBuf, wire
    {
      && readBuf.Length == BUF_LENGTH + 1 && writeBuf.Length == BUF_LENGTH + 1 && readBuf != writeBuf
      && -1 <= readLength <= BUF_LENGTH && writeLength <= BUF_LENGTH
      && (forall k :: 0 <= k < |waits| ==> waits[k] == 0)
      && Fits(wire.system, Value())
    }

    constructor (socket: int, wire: Wire)
      ensures Valid() && fresh(readBuf) && fresh(writeBuf) && this.wire == wire && this.socket == socket
      ensures Value() == Line([], wire.incoming, 0, wire.calls, socket >= 0)
      ensures Output() == wire.sent && marks == []
    {
      this.socket, this.wire := socket, wire;
      readBuf, writeBuf := new byte[BUF_LENGTH + 1](_ => 0), new byte[BUF_LENGTH + 1](_ => 0);
      readOffset, readLength, writeLength, waits, marks := 0, 0, 0, [], [];
    }

    /** The bytes already received and not yet read. */
    ghost function Buffered(): seq<byte>
      reads this`readOffset, this`readLength, readBuf
      requires readLength <= readBuf.Length
    {
      if readOffset < readLength then readBuf[readOffset..readLength] else []
    }

    /** The stream as a value. */
    ghost function Value(): Line
      reads this`socket, this`readOffset, this`readLength, this`writeLength, readBuf, wire`incoming, wire`calls
      requires readLength <= readBuf.Length
    {
      Line(Buffered(), wire.incoming, writeLength, wire.calls, socket >= 0)
    }

    /** Everything written so far, flushed or not. */
    ghost function Output(): seq<byte>
      reads this`writeLength, wire`sent, writeBuf
      requires writeLength <= writeBuf.Length
    {
      wire.sent + writeBuf[..writeLength]
    }

    /** The stream has read its way to a line; what it has written is as it was. */
    twostate predicate Became(l: Line)
      reads this, wire, readBuf, writeBuf
    {
      && old(Valid()) && Valid() && Value() == l
      && Output() == old(Output()) && marks == old(marks)
      && (socket == old(socket) || socket == -1)
    }

    /** `cse_close`, as far as the stream is concerned. */
    method Close()
      requires Valid()
      modifies this`socket
      ensures Became(old(Value()).(open := false)) && socket == -1
    {
      socket := -1;
    }

    /** `send` on the write buffer; a closed socket fails. */
    method Send() returns (n: int)
      requires Valid()
      modifies wire`sent, wire`calls
      ensures wire.calls == old(wire.calls) + if socket < 0 then 0 else 1
      ensures n == if socket < 0 || wire.system.refuses(old(wire.calls)) then -1 else writeLength
      ensures wire.sent == old(wire.sent) + if n < 0 then [] else writeBuf[..writeLength]
    {
      if socket < 0 {
        return -1;
      }
      n := wire.Send(writeBuf[..writeLength]);
    }

    /** `cse_flush` */
    method Flush() returns (ok: int)
      requires Valid()
      modifies this`writeLength, wire`sent, wire`calls
      ensures Became(Lines.Flush(wire.system, old(Value())).l)
      ensures ok == if Lines.Flush(wire.system, old(Value())).ok then 0 else -1
      ensures ok == 0 ==> writeLength == 0 && wire.sent == old(Output())
    {
      hide Buffered;
      if writeLength > 0 {
        var len := Send();
        if len != writeLength {
          return -1;
        }
        writeLength := 0;
      }
      return 0;
    }

    /** The wait on the peer. */
    method Receive() returns (n: int)
      requires Valid() && readOffset >= readLength && writeLength == 0 && socket >= 0
      modifies this`socket, this`readOffset, this`readLength, this`waits, wire`incoming, wire`calls, readBuf
      ensures Became(Lines.Receive(wire.system, old(Value())).l)
      ensures if Lines.Receive(wire.system, old(Value())).ok then n > 0 && readOffset < readLength else n == -1
    {
      hide Fits, Piece, Output;
      ghost var l := Value();
      assert l == Line([], wire.incoming, 0, wire.calls, true);
      ReceivedFits(wire.system, l);
      readOffset := 0;
      waits := waits + [writeLength];
      var data: seq<byte>;
      n, data := wire.Recv();
      Land(data);
      readLength := n;
      if n <= 0 {
        socket := -1;
        n := -1;
      }
    }

    /** The copy a receive makes into the read buffer. */
    method Land(data: seq<byte>)
      requires |data| <= readBuf.Length
      modifies readBuf
      ensures readBuf[..|data|] == data
    {
      forall k | 0 <= k < |data| {
        readBuf[k] := data[k];
      }
    }

    /** `cse_fill_buffer`: only called when nothing received is left unread. */
    method FillBuffer() returns (n: int)
      requires Valid() && readOffset >= readLength
      modifies this`socket, this`writeLength, this`readOffset, this`readLength, this`waits, wire, readBuf
      ensures Became(Fill(wire.system, old(Value())).l)
      ensures if Fill(wire.system, old(Value())).ok then n > 0 && readOffset < readLength else n == -1
    {
      hide Buffered;
      if socket < 0 {
        return -1;
      }
      var ok := Flush();
      if ok < 0 {
        return -1;
      }
      n := Receive();
    }

    /** What a read loop copies in one iteration: up to max bytes of what has been received. */
    method Peel(max: nat) returns (part: seq<byte>)
      requires Valid() && readOffset < readLength
      modifies this`readOffset
      ensures var b, m := old(Value()).buffered, Least(max, |old(Value()).buffered|);
              b != [] && part == b[..m] && Became(old(Value()).(buffered := b[m..]))
    {
      var sublen := readLength - readOffset;
      if max < sublen {
        sublen := max;
      }
      part := readBuf[readOffset..readOffset + sublen];
      ghost var b := Buffered();
      assert part == b[..sublen];
      readOffset := readOffset + sublen;
      assert Buffered() == b[sublen..];
    }

    /** One iteration of a read loop; nothing if the fill it needs fails. */
    method NextPortion(max: nat) returns (part: seq<byte>)
      requires Valid() && max > 0
      modifies this`socket, this`writeLength, this`readOffset, this`readLength, this`waits, wire, readBuf
      ensures var p := Portion(wire.system, old(Value()), max); part == p.data && Became(p.l)
    {
      hide Output, Lines.Fill;
      OffsetIsEmpty();
      if readOffset >= readLength {
        var n := FillBuffer();
        if n < 0 {
          return [];
        }
      }
      part := Peel(max);
    }

    /** `cse_read_byte`: the next byte, or -1. */
    method ReadByte() returns (b: int)
      requires Valid()
      modifies this`socket, this`writeLength, this`readOffset, this`readLength, this`waits, wire, readBuf
      ensures var r := Byte(wire.system, old(Value())); b == r.b && Became(r.l)
    {
      hide Output, Fill;
      OffsetIsEmpty();
      if readOffset >= readLength {
        var n := FillBuffer();
        if n < 0 {
          return -1;
        }
      }
      var part := Peel(1);
      b := part[0];
    }

    /** `cse_read_all`: the next len bytes; on failure -1, and the part that was read. */
    method ReadAll(len: nat) returns (result: int, data: seq<byte>)
      requires Valid()
      modifies this`socket, this`writeLength, this`readOffset, this`readLength, this`waits, wire, readBuf
      ensures var r := Take(wire.system, old(Value()), len); data == r.data && Became(r.l)
      ensures result == if |data| == len then len else -1
    {
      hide Output, Portion, Fits, Buffered, Take;
      data := [];
      ghost var whole := Take(wire.system, Value(), len);
      assert [] + whole.data == whole.data;
      while |data| < len
        invariant Valid() && Became(Value()) && |data| <= len
        invariant var r := Take(wire.system, Value(), len - |data|); whole.data == data + r.data && whole.l == r.l
        decreases len - |data|
      {
        TakeOn(wire.system, data, Value(), len - |data|);
        var part := NextPortion(len - |data|);
        if part == [] {
          return -1, data;
        }
        data := data + part;
      }
      TakeOn(wire.system, data, Value(), 0);
      result := len;
    }

    /** `cse_skip`: like ReadAll, without keeping the bytes; a negative length skips nothing. */
    method Skip(len: int) returns (result: int, ghost data: seq<byte>)
      requires Valid()
      modifies this`socket, this`writeLength, this`readOffset, this`readLength, this`waits, wire, readBuf
      ensures var n := if len > 0 then len else 0;
              var r := Take(wire.system, old(Value()), n);
              data == r.data && Became(r.l) && result == if |data| == n then 1 else -1
    {
      hide Output, Portion, Fits, Buffered, Take;
      data := [];
      var left := len;
      ghost var n := if len > 0 then len else 0;
      ghost var whole := Take(wire.system, Value(), n);
      assert [] + whole.data == whole.data;
      while left > 0
        invariant Valid() && Became(Value()) && |data| <= n && left == if len > 0 then n - |data| else len
        invariant var r := Take(wire.system, Value(), n - |data|); whole.data == data + r.data && whole.l == r.l
      {
        TakeOn(wire.system, data, Value(), left);
        var part := NextPortion(left);
        if part == [] {
          return -1, data;
        }
        data := data + part;
        left := left - |part|;
      }
      TakeOn(wire.system, data, Value(), 0);
      result := 1;
    }

    /** `cse_read_limit`: the C string a buffer of buflen + 1 bytes ends up with. */
    method ReadLimit(buflen: nat, readlen: nat) returns (result: int, text: seq<byte>)
      requires Valid() && buflen > 0
      modifies this`socket, this`writeLength, this`readOffset, this`readLength, this`waits, wire, readBuf
      ensures var r := Lines.ReadLimit(wire.system, old(Value()), buflen, readlen); text == r.text && Became(r.l)
    {
      hide Output, Take, Buffered, CString;
      if buflen > readlen {
        result, text := ReadAll(readlen);
      } else {
        result, text := ReadAll(buflen);
        if |text| == buflen {
          text := text[..buflen - 1];
        }
        var skipped;
        ghost var data;
        skipped, data := Skip(readlen - buflen);
      }
      text := CString(text);
    }

    /** The four header reads that open every frame. */
    method ReadHead() returns (code: int, l3: int, len: nat)
      requires Valid()
      modifies this`socket, this`writeLength, this`readOffset, this`readLength, this`waits, wire, readBuf
      ensures var h := Lines.ReadHead(wire.system, old(Value()));
              code == h.code && l3 == h.l3 && len == h.len && Became(h.l)
    {
      hide Output, Byte, Buffered;
      code := ReadByte();
      var l1 := ReadByte();
      var l2 := ReadByte();
      l3 := ReadByte();
      len := 65536 * (l1 % 256) + 256 * (l2 % 256) + l3 % 256;
    }

    /** `cse_read_string`: the next frame, whatever its code, as a C string. */
    method ReadString(length: nat) returns (result: int, text: seq<byte>)
      requires Valid() && length > 1
      modifies this`socket, this`writeLength, this`readOffset, this`readLength, this`waits, wire, readBuf
      ensures var r := Lines.ReadString(wire.system, old(Value()), length); text == r.text && Became(r.l)
    {
      hide Output, Lines.ReadHead, Lines.ReadLimit, Buffered;
      var code, l3, len := ReadHead();
      if socket < 0 || l3 < 0 {
        return -1, [];
      }
      result, text := ReadLimit(length - 1, len);
    }

    // ---- Writing ----

    /** The stream has written its way to a line. */
    twostate predicate Sent(l: Line)
      reads this, wire, readBuf, writeBuf
    {
      && old(Valid()) && Valid() && Value() == l && old(wire.sent) <= wire.sent
      && (socket == old(socket) || socket == -1)
    }

    /** The copy into the write buffer. */
    method Append(buf: seq<byte>)
      requires Valid() && writeLength + |buf| <= BUF_LENGTH
      modifies this`writeLength, writeBuf
      ensures Sent(old(Value()).(unsent := old(writeLength) + |buf|))
      ensures Output() == old(Output()) + buf
    {
      ghost var head := writeBuf[..writeLength];
      forall k | 0 <= k < |buf| {
        writeBuf[writeLength + k] := buf[k];
      }
      assert writeBuf[..writeLength + |buf|] == head + buf;
      writeLength := writeLength + |buf|;
    }

    /** What a write sends to make room; the buffer is given up even if that fails. */
    method SendOff() returns (ok: bool)
      requires Valid()
      modifies this`socket, this`writeLength, wire`sent, wire`calls
      ensures var t := Lines.SendOff(wire.system, old(Value())); ok == t.ok && Sent(t.l)
      ensures ok ==> wire.sent == old(Output())
    {
      hide Buffered;
      var len := Send();
      writeLength := 0;
      ok := len >= 0;
      if !ok {
        socket := -1;
      }
    }

    /** `cse_write`: buffered, after a flush when there is no room; over-long data is dropped. */
    method Write(buf: seq<byte>)
      requires Valid()
      modifies this`socket, this`writeLength, wire`sent, wire`calls, writeBuf
      ensures Sent(Lines.Write(wire.system, old(Value()), |buf|))
      ensures socket >= 0 ==> Output() == old(Output()) + if |buf| <= BUF_LENGTH then buf else []
    {
      hide Buffered, Fits;
      if writeLength + |buf| > BUF_LENGTH {
        if writeLength > 0 {
          var ok := SendOff();
          if !ok {
            return;
          }
        }
        if |buf| > BUF_LENGTH {
          var _ := SendOff();
          return;
        }
      }
      Append(buf);
    }

    /** `cse_write_packet` */
    method WritePacket(p: Packet)
      requires Valid()
      modifies this`socket, this`writeLength, this`marks, wire`sent, wire`calls, writeBuf
      ensures Sent(Packed(wire.system, old(Value()), |p.payload|))
      ensures socket >= 0 ==> Output() == old(Output()) + Written(p)
      ensures marks == old(marks) + [Mark(p, |Unread(old(Value()))|, old(socket) >= 0)]
    {
      hide Output, Buffered, Lines.Write, Fits;
      marks := marks + [Mark(p, |Unread(Value())|, socket >= 0)];
      var length := |p.payload|;
      Write([p.code, length / 65536 % 256, length / 256 % 256, length % 256]);
      Write(p.payload);
    }

    lemma OffsetIsEmpty()
      requires Valid()
      ensures readOffset >= readLength <==> Value().buffered == []
    {
    }
  }

  lemma ReceivedFits(y: System, l: Line)
    requires Fits(y, l) && l.buffered == []
    ensures Fits(y, Receive(y, l).l)
  {
  }
}