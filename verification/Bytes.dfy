/**
 * The frames of the protocol byte by byte: what each code, and each length, makes of the bytes that
 * follow it, in plain numbers.
 */
module Bytes {
  import opened Packets
  import opened Answers
  import opened Exchanges

  /** A frame with a length of a * 65536 + b * 256 + c. */
  function Raw(code: byte, a: byte, b: byte, c: byte, payload: seq<byte>): seq<byte>
  {
    [code, a, b, c] + payload
  }

  lemma RawParts(code: byte, a: byte, b: byte, c: byte, payload: seq<byte>, rest: seq<byte>)
    requires |payload| == 65536 * a + 256 * b + c
    ensures var u := Raw(code, a, b, c, payload) + rest;
            && |u| >= 4 && u[0] == code && Length(u[1], u[2], u[3]) == |payload| && u[4..] == payload + rest
            && |u[4..]| >= |payload| && u[4..][..|payload|] == payload && u[4..][|payload|..] == rest
  {
    var u := Raw(code, a, b, c, payload) + rest;
    assert u == [code, a, b, c] + (payload + rest);
  }

  lemma DataFound(a: byte, b: byte, c: byte, payload: seq<byte>, rest: seq<byte>)
    requires |payload| == 65536 * a + 256 * b + c
    ensures ReadItem(Raw(68, a, b, c, payload) + rest) == Got(Plain(Packet(68, payload)), rest)
  {
    hide ReadItem, Length, Raw;
    RawParts(68, a, b, c, payload, rest);
    assert 'D' as int == 68;
    DataItem(Raw(68, a, b, c, payload) + rest);
  }

  lemma FoundOn(u: seq<byte>, item: Item, rest: seq<byte>, ack: byte)
    requires ReadItem(u) == Got(item, rest) && !Stops(item, ack)
    ensures Answered(u, ack) == Join([item], Answered(rest, ack))
  {
    hide ReadItem;
  }

  lemma BodyFirst(item: Item, next: Answer)
    ensures Delivered(Join([item], next)) == BodyOf(item) + Delivered(next)
  {
    BodyAppend([item], next.items);
    assert [item][1..] == [] && Body([item]) == BodyOf(item) + Body([]);
  }

  /** 'D': the payload goes to the client, and the loop goes on behind it. */
  lemma DataFrame(a: byte, b: byte, c: byte, payload: seq<byte>, rest: seq<byte>, ack: byte)
    requires |payload| == 65536 * a + 256 * b + c && ack in {65, 90}
    ensures Answered(Raw(68, a, b, c, payload) + rest, ack) == Join([Plain(Packet(68, payload))], Answered(rest, ack))
    ensures Delivered(Answered(Raw(68, a, b, c, payload) + rest, ack)) == payload + Delivered(Answered(rest, ack))
  {
    var item := Plain(Packet(68, payload));
    assert 'D' as int == 68 && !Stops(item, ack) && BodyOf(item) == payload;
    hide ReadItem, Raw, Answered, Delivered, Stops;
    DataFound(a, b, c, payload, rest);
    FoundOn(Raw(68, a, b, c, payload) + rest, item, rest, ack);
    BodyFirst(item, Answered(rest, ack));
  }

  /** A payload cut short still goes to the client, as far as it came. */
  lemma DataCutShort(a: byte, b: byte, c: byte, part: seq<byte>, ack: byte)
    requires |part| < 65536 * a + 256 * b + c
    ensures Delivered(Answered([68, a, b, c] + part, ack)) == part
  {
    var u := [68, a, b, c] + part;
    assert 'D' as int == 68 && u[4..] == part;
    DataItem(u);
    assert Answered(u, ack) == Broken([], part);
  }

  /** 'F', 'G' and 'K': nothing follows the head, whatever its length says. */
  lemma SignalFrame(code: byte, a: byte, b: byte, c: byte, rest: seq<byte>, ack: byte, at: nat)
    requires code in {70, 71, 75} && ack in {65, 90}
    ensures Answered([code, a, b, c] + rest, ack) == Join([Plain(Packet(code, []))], Answered(rest, ack))
    ensures EventsOf(Plain(Packet(70, [])), at) == [Flushed(at)]
    ensures EventsOf(Plain(Packet(71, [])), at) == [HeadersSent(at)]
    ensures EventsOf(Plain(Packet(75, [])), at) == []
    ensures AsksToKeep(Plain(Packet(code, []))) <==> code == 75
  {
    var u := [code, a, b, c] + rest;
    assert u[4..] == rest;
    assert 'F' as int == 70 && 'G' as int == 71 && 'K' as int == 75;
    SignalItem(u);
  }

  /** Any other frame but a header: 'Z', 'X', 0 and the code waited for end the answer, the rest do not. */
  lemma TextFrame(code: byte, a: byte, b: byte, c: byte, payload: seq<byte>, rest: seq<byte>, ack: byte, at: nat)
    requires |payload| == 65536 * a + 256 * b + c && ack in {65, 90}
    requires code !in {68, 70, 71, 72, 75}
    ensures var w, item := Answered(Raw(code, a, b, c, payload) + rest, ack), Plain(Packet(code, payload));
            w == if |payload| > 8192 then Wild([])
                 else if code == 90 || code == 88 || code == 0 || code == ack then Whole([item], rest)
                 else Join([item], Answered(rest, ack))
    ensures EventsOf(Plain(Packet(code, payload)), at) == if code == 83 then [Status(at, CString(payload))] else []
  {
    var u := Raw(code, a, b, c, payload) + rest;
    RawParts(code, a, b, c, payload, rest);
    assert 'D' as int == 68 && 'F' as int == 70 && 'G' as int == 71 && 'H' as int == 72 && 'K' as int == 75;
    assert 'Z' as int == 90 && 'X' as int == 88 && 'S' as int == 83;
    TextItem(u, code);
  }

  /** 'H': the next frame, whatever its code, is the header's value; of a long value 8191 bytes are kept. */
  lemma HeaderFrame(a: byte, b: byte, c: byte, key: seq<byte>, code: byte, d: byte, e: byte, f: byte, value: seq<byte>,
                    rest: seq<byte>, ack: byte, at: nat)
    requires |key| == 65536 * a + 256 * b + c && |value| == 65536 * d + 256 * e + f
    requires |key| <= 8192 && ack in {65, 90}
    ensures var pair := Pair(key, Packet(code, value));
            && Answered(Raw(72, a, b, c, key) + (Raw(code, d, e, f, value) + rest), ack)
               == Join([pair], Answered(rest, ack))
            && EventsOf(pair, at)
               == [Header(at, CString(key), CString(if |value| < 8192 then value else value[..8191]))]
  {
    var w := Raw(code, d, e, f, value) + rest;
    var u := Raw(72, a, b, c, key) + w;
    RawParts(72, a, b, c, key, w);
    RawParts(code, d, e, f, value, rest);
    assert 'H' as int == 72;
    HeaderItem(u);
    assert w[4..4 + |value|] == w[4..][..|value|] && w[4 + |value|..] == w[4..][|value|..];
  }

  /** The plugin writes a body block as 'D', a length with the highest byte first, and at most 8192 bytes. */
  lemma BlockWritten(a: byte, b: byte, c: byte, blocks: seq<seq<byte>>, i: nat)
    requires i < |blocks| && |blocks[i]| == 65536 * a + 256 * b + c
    ensures Written(DataPackets(blocks)[i]) == [68, a, b, c] + if |blocks[i]| <= 8192 then blocks[i] else []
    ensures Written(Packet(END, [])) == [90, 0, 0, 0]
  {
    assert 'D' as int == 68 && 'Z' as int == 90;
    HeadOfLength(68, a, b, c);
  }

  /** After an answer the upload goes on unless it ended with 'Z' or 'X', and only 'Z' leaves the stream usable. */
  lemma AnswerDecides(u: seq<byte>, items: seq<Item>, rest: seq<byte>, n: nat, answers: seq<seq<Item>>)
    requires n > 1 && Answered(u, ACK) == Whole(items, rest) && answers != [] && answers[|answers| - 1] == items
    ensures items != [] && ACK == 65
    ensures Exchange(u, n)
         == Further([items], if LastCode(items) in {90, 88} then Final(rest) else Exchange(rest, n - 1))
    ensures Reusable(Finished(answers, rest)) <==> LastCode(items) == 90
  {
    assert 'A' as int == 65 && 'Z' as int == 90 && 'X' as int == 88;
  }

  /** The answer to the end packet is one that ends at 'Z'. */
  lemma FinalEnds(u: seq<byte>)
    ensures Final(u).Finished? <==> Answered(u, 90).Whole?
    ensures Final(u).Finished? ==> Final(u) == Finished([Answered(u, 90).items], Answered(u, 90).rest)
  {
    assert 'Z' as int == 90;
  }
}
