/** The frames exchanged with a servlet runner: a code, a 24-bit length, and a payload. */
module Packets {

  type byte = b: int | 0 <= b < 256

  const BUF_LENGTH := 8192
  const MAX_LENGTH := 0x100_0000

  const ACK: byte := 'A' as int
  const CLOSE: byte := 'X' as int
  const DATA: byte := 'D' as int
  const END: byte := 'Z' as int
  const FLUSH: byte := 'F' as int
  const HEADER: byte := 'H' as int
  const KEEPALIVE: byte := 'K' as int
  const SEND_HEADER: byte := 'G' as int
  const STATUS: byte := 'S' as int

  datatype Packet = Packet(code: byte, payload: seq<byte>)

  /** The four bytes before a payload of n bytes; the length is cut to 24 bits. */
  function Head(code: byte, n: nat): (h: seq<byte>)
    ensures |h| == 4
  {
    [code, n / 65536 % 256, n / 256 % 256, n % 256]
  }

  /** The length a reader makes of three bytes. */
  function Length(l1: byte, l2: byte, l3: byte): (n: nat)
    ensures n < MAX_LENGTH
  {
    65536 * l1 + 256 * l2 + l3
  }

  lemma LengthOfHead(code: byte, n: nat)
    ensures var h := Head(code, n); Length(h[1], h[2], h[3]) == n <==> n < MAX_LENGTH
  {
    var q := n / 256;
    var a := q / 256;
    assert n == 256 * q + n % 256 && q == 256 * a + q % 256;
    assert n == 65536 * a + (256 * (q % 256) + n % 256);
    assert n / 65536 == a;
    if n < MAX_LENGTH {
      assert a < 256 && a % 256 == a;
    }
  }

  lemma HeadOfLength(code: byte, l1: byte, l2: byte, l3: byte)
    ensures Head(code, Length(l1, l2, l3)) == [code, l1, l2, l3]
  {
    var q := 256 * l1 + l2;
    var n := Length(l1, l2, l3);
    assert n == 256 * q + l3;
    assert n / 256 == q && n % 256 == l3;
    assert q / 256 == l1 && q % 256 == l2;
    assert n / 65536 == l1;
  }

  function Encode(p: Packet): seq<byte>
  {
    Head(p.code, |p.payload|) + p.payload
  }

  function EncodeAll(ps: seq<Packet>): seq<byte>
  {
    if ps == [] then [] else Encode(ps[0]) + EncodeAll(ps[1..])
  }

  /** A byte stream begins with at most one packet. */
  lemma EncodeInjective(p: Packet, x: seq<byte>, q: Packet, y: seq<byte>)
    requires |p.payload| < MAX_LENGTH && |q.payload| < MAX_LENGTH
    requires Encode(p) + x == Encode(q) + y
    ensures p == q && x == y
  {
    var s, t := Encode(p) + x, Encode(q) + y;
    assert s[..4] == Head(p.code, |p.payload|) && t[..4] == Head(q.code, |q.payload|);
    LengthOfHead(p.code, |p.payload|);
    LengthOfHead(q.code, |q.payload|);
    var n := |p.payload|;
    assert s[4..4 + n] == p.payload && t[4..4 + n] == q.payload;
    assert s[4 + n..] == x && t[4 + n..] == y;
  }

  lemma {:induction false} EncodeAppend(ps: seq<Packet>, qs: seq<Packet>)
    ensures EncodeAll(ps + qs) == EncodeAll(ps) + EncodeAll(qs)
  {
    if ps == [] {
      assert ps + qs == qs;
    } else {
      assert (ps + qs)[0] == ps[0] && (ps + qs)[1..] == ps[1..] + qs;
      EncodeAppend(ps[1..], qs);
    }
  }

  /** The C string at the start of a buffer: everything before the first zero. */
  function CString(s: seq<byte>): (t: seq<byte>)
    ensures t <= s && (forall i :: 0 <= i < |t| ==> t[i] != 0)
    ensures |t| < |s| ==> s[|t|] == 0
  {
    if s == [] || s[0] == 0 then [] else [s[0]] + CString(s[1..])
  }

  /** What `cse_read_limit` leaves of a payload: m - 1 bytes of one that does not fit m. */
  function Limited(payload: seq<byte>, m: nat): seq<byte>
    requires m > 0
  {
    CString(if |payload| < m then payload else payload[..m - 1])
  }

  /** What the plugin puts on the wire for a packet: an over-long payload is dropped. */
  function Written(p: Packet): seq<byte>
  {
    Head(p.code, |p.payload|) + if |p.payload| <= BUF_LENGTH then p.payload else []
  }

  function WrittenAll(ps: seq<Packet>): seq<byte>
  {
    if ps == [] then [] else WrittenAll(ps[..|ps| - 1]) + Written(ps[|ps| - 1])
  }

  lemma {:induction false} WrittenAppend(ps: seq<Packet>, qs: seq<Packet>)
    ensures WrittenAll(ps + qs) == WrittenAll(ps) + WrittenAll(qs)
  {
    hide Written;
    if qs == [] {
      assert ps + qs == ps;
    } else {
      var n := |qs| - 1;
      assert (ps + qs)[|ps| + n] == qs[n];
      assert (ps + qs)[..|ps| + n] == ps + qs[..n];
      WrittenAppend(ps, qs[..n]);
    }
  }

  ghost predicate AllFit(ps: seq<Packet>)
  {
    forall i :: 0 <= i < |ps| ==> |ps[i].payload| <= BUF_LENGTH
  }

  lemma {:induction false} EncodeSnoc(ps: seq<Packet>)
    requires ps != []
    ensures EncodeAll(ps) == EncodeAll(ps[..|ps| - 1]) + Encode(ps[|ps| - 1])
  {
    var n := |ps| - 1;
    assert ps == ps[..n] + [ps[n]];
    EncodeAppend(ps[..n], [ps[n]]);
    assert EncodeAll([ps[n]]) == Encode(ps[n]) + EncodeAll([]);
  }

  lemma WrittenOne(p: Packet)
    ensures |Written(p)| <= |Encode(p)| && (|Written(p)| == |Encode(p)| ==> |p.payload| <= BUF_LENGTH)
  {
  }

  lemma NoPackets()
    ensures EncodeAll([]) == []
  {
  }

  lemma {:induction false} WrittenLength(ps: seq<Packet>)
    ensures |WrittenAll(ps)| <= |EncodeAll(ps)|
    ensures |WrittenAll(ps)| == |EncodeAll(ps)| ==> AllFit(ps)
  {
    hide Written, Encode, EncodeAll;
    if ps != [] {
      EncodeSnoc(ps);
      WrittenOne(ps[|ps| - 1]);
      WrittenLength(ps[..|ps| - 1]);
    } else {
      NoPackets();
    }
  }

  /** The wire carries the packets themselves exactly if every payload fits the write buffer. */
  lemma {:induction false} WrittenIsEncoded(ps: seq<Packet>)
    ensures WrittenAll(ps) == EncodeAll(ps) <==> AllFit(ps)
  {
    WrittenLength(ps);
    if AllFit(ps) && ps != [] {
      EncodeSnoc(ps);
      WrittenIsEncoded(ps[..|ps| - 1]);
    }
  }
}
