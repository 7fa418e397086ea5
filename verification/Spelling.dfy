/**
 * How the parts of a configuration file may be spelled: attributes in any quoting with any white
 * space about them, tags, and the gaps between tags with their comments; and what the parser makes
 * of each part.
 */
module Spelling {
  import opened Wrappers
  import opened Strings
  import opened Rows
  import opened Markup
  import opened Documents

  datatype Quote = Bare | Single | Double

  /** An attribute with the white space before it and about its equals sign. */
  datatype Attr = Attr(lead: string, key: string, before: string, after: string, value: string, quote: Quote)

  /** White text, a comment, an instruction or a declaration. */
  datatype Piece = White(w: string) | Comment(c: string) | Instruction(c: string) | Declaration(d: string)

  /** What may stand between tags without a meaning of its own. */
  type Gap = seq<Piece>

  // ---- The text of each part, in front of the text that follows ----

  function RenderValue(v: string, q: Quote, rest: string): string
  {
    match q
    case Bare => v + rest
    case Single => "'" + (v + ("'" + rest))
    case Double => "\"" + (v + ("\"" + rest))
  }

  function RenderAttr(a: Attr, rest: string): string
  {
    a.lead + (a.key + (a.before + ("=" + (a.after + RenderValue(a.value, a.quote, rest)))))
  }

  function RenderAttrs(attrs: seq<Attr>, rest: string): string
  {
    if attrs == [] then rest else RenderAttr(attrs[0], RenderAttrs(attrs[1..], rest))
  }

  /** A start tag, from its name on. */
  function RenderTag(key: string, attrs: seq<Attr>, tail: string, open: bool, rest: string): string
  {
    key + RenderAttrs(attrs, tail + ((if open then ">" else "/>") + rest))
  }

  function RenderEnd(key: string, tail: string, rest: string): string
  {
    "</" + (key + (tail + (">" + rest)))
  }

  function RenderPiece(p: Piece, rest: string): string
  {
    match p
    case White(w) => w + rest
    case Comment(c) => "<!--" + (c + ("-->" + rest))
    case Instruction(c) => "<?" + (c + ("?>" + rest))
    case Declaration(d) => "<!D" + (d + (">" + rest))
  }

  function RenderGap(gap: Gap, rest: string): string
  {
    if gap == [] then rest else RenderPiece(gap[0], RenderGap(gap[1..], rest))
  }

  // ---- What can be written ----

  predicate Spaces(w: string) { forall i :: 0 <= i < |w| ==> IsSpace(w[i]) }

  predicate GoodToken(s: string, k: Class)
  {
    s != "" && |s| <= LIMIT && (forall i :: 0 <= i < |s| ==> In(s[i], k)) && s != INCLUDE
  }

  /** A tag name; the first character must not start a comment, an instruction or an end tag. */
  predicate GoodKey(s: string) { GoodToken(s, TagChar) && s[0] !in "!?/" }

  predicate GoodName(s: string) { GoodToken(s, NameChar) }

  predicate GoodValue(v: string, q: Quote)
  {
    |v| <= LIMIT &&
    match q
    case Bare => v != "" && v[0] !in "'\"" && forall i :: 0 <= i < |v| ==> In(v[i], TagChar)
    case Single => forall i :: 0 <= i < |v| ==> v[i] != '\''
    case Double => forall i :: 0 <= i < |v| ==> v[i] != '\"'
  }

  predicate GoodAttr(a: Attr)
  {
    Spaces(a.lead) && GoodName(a.key) && Spaces(a.before) && Spaces(a.after) && GoodValue(a.value, a.quote)
  }

  /** Attributes are set off by white space, or by a quote before them. */
  predicate GoodAttrs(attrs: seq<Attr>, quoted: bool)
  {
    attrs == []
    || (&& GoodAttr(attrs[0]) && (attrs[0].lead != "" || quoted)
        && GoodAttrs(attrs[1..], !attrs[0].quote.Bare?))
  }

  /** Nothing in a piece ends it early. */
  ghost predicate GoodPiece(p: Piece)
  {
    match p
    case White(w) => Blank(w)
    case Comment(c) => Find(c, "-->").None?
    case Instruction(c) => Find(c, "?>").None?
    case Declaration(d) => FirstEnd(d + ">", |d|)
  }

  ghost predicate GoodGap(gap: Gap) { forall i :: 0 <= i < |gap| ==> GoodPiece(gap[i]) }

  /** How much of a gap goes to the token buffer. */
  function WhiteLength(gap: Gap): nat
  {
    if gap == [] then 0 else (if gap[0].White? then |gap[0].w| else 0) + WhiteLength(gap[1..])
  }

  // ---- Runs of characters ----

  lemma NoRun(s: string, k: Class)
    requires s == "" || !In(s[0], k)
    ensures Token(s, k) == "" && Rest(s, k) == s
  {
  }

  /** White space in front does not matter to what skips it. */
  lemma {:induction false} SpaceRun(w: string, s: string)
    requires Spaces(w)
    ensures Rest(w + s, Space) == Rest(s, Space)
    decreases |w|
  {
    if w == "" {
      assert w + s == s;
    } else {
      assert (w + s)[1..] == w[1..] + s;
      SpaceRun(w[1..], s);
    }
  }

  lemma LeadingSpaces(w: string, s: string, rows: Rows, node: nat)
    requires Spaces(w) && Proper(rows) && node < |rows.up|
    ensures ParseAttributes(w + s, rows, node) == ParseAttributes(s, rows, node)
  {
    hide Rest, ParseAttributes;
    SpaceRun(w, s);
    SameAttributes(w + s, s, rows, node);
  }

  lemma SameAttributes(s: string, t: string, rows: Rows, node: nat)
    requires Proper(rows) && node < |rows.up| && Rest(s, Space) == Rest(t, Space)
    ensures ParseAttributes(s, rows, node) == ParseAttributes(t, rows, node)
  {
    assert ParseAttribute(s, rows, node) == ParseAttribute(t, rows, node);
    hide ParseAttribute;
  }

  /** A character at which a name or a bare value ends. */
  predicate Breaks(c: char) { IsSpace(c) || c == '/' || c == '>' }

  // ---- Attributes ----

  /** One rendered value, up to what follows it. */
  lemma ValueRun(v: string, q: Quote, rest: string, rows: Rows, attr: nat)
    requires GoodValue(v, q) && (q.Bare? ==> rest != "" && Breaks(rest[0])) && Proper(rows) && attr < |rows.up|
    ensures ParseValue(RenderValue(v, q, rest), rows, attr)
         == More(if q.Bare? then rest else " " + rest, Valued(rows, attr, v))
  {
    hide Token, Rest, In;
    if q.Bare? {
      BareRun(v, rest, rows, attr);
    } else {
      QuotedRun(v, if q.Single? then '\'' else '\"', rest, rows, attr);
    }
  }

  lemma BareRun(v: string, rest: string, rows: Rows, attr: nat)
    requires GoodValue(v, Bare) && rest != "" && Breaks(rest[0]) && Proper(rows) && attr < |rows.up|
    ensures ParseValue(v + rest, rows, attr) == More(rest, Valued(rows, attr, v))
  {
    hide Token, Rest, Proper;
    assert In(v[0], TagChar);
    assert !In(rest[0], TagChar);
    TokenOf(v, rest, TagChar);
    assert (v + rest)[0] == v[0];
  }

  lemma QuotedRun(v: string, c: char, rest: string, rows: Rows, attr: nat)
    requires (c == '\'' || c == '\"') && (forall i :: 0 <= i < |v| ==> v[i] != c) && |v| <= LIMIT
    requires Proper(rows) && attr < |rows.up|
    ensures ParseValue([c] + (v + ([c] + rest)), rows, attr) == More(" " + rest, Valued(rows, attr, v))
  {
    hide Token, Rest, Proper;
    var more := [c] + rest;
    var s := [c] + (v + more);
    assert s[1..] == v + more && more[1..] == rest;
    TokenOf(v, more, AllBut(c));
  }

  /** What an attribute does to the table: one named id is the value of the node itself. */
  function AttrRow(rows: Rows, node: nat, a: Attr): (r: Rows)
    requires |rows.up| == |rows.values| && node < |rows.up|
    ensures |r.up| == |r.values| >= |rows.up|
  {
    if a.key == "id" then Valued(rows, node, a.value) else Valued(Added(rows, node, a.key), |rows.up|, a.value)
  }

  function AttrRows(rows: Rows, node: nat, attrs: seq<Attr>): (r: Rows)
    requires |rows.up| == |rows.values| && node < |rows.up|
    ensures |r.up| == |r.values| >= |rows.up|
    decreases |attrs|
  {
    if attrs == [] then rows else AttrRows(AttrRow(rows, node, attrs[0]), node, attrs[1..])
  }

  lemma RowProper(rows: Rows, node: nat, a: Attr)
    requires Proper(rows) && node < |rows.up|
    ensures |rows.up| == |rows.values| && Proper(AttrRow(rows, node, a)) && node < |AttrRow(rows, node, a).up|
  {
  }

  /** One rendered attribute. */
  lemma AttrRun(a: Attr, rest: string, rows: Rows, node: nat)
    requires GoodAttr(a) && (a.quote.Bare? ==> rest != "" && Breaks(rest[0]))
    requires Proper(rows) && node < |rows.up|
    ensures |rows.up| == |rows.values| && Proper(AttrRow(rows, node, a))
    ensures ParseAttributes(RenderAttr(a, rest), rows, node) == ParseAttributes(rest, AttrRow(rows, node, a), node)
  {
    hide Token, Rest, In, ParseAttribute, ParseAttributes, ParseValue, Proper, RenderValue, GoodName, GoodValue, Spaces;
    var value := RenderValue(a.value, a.quote, rest);
    var s := a.key + (a.before + ("=" + (a.after + value)));
    RowProper(rows, node, a);
    LeadingSpaces(a.lead, s, rows, node);
    ValueStart(a.value, a.quote, rest);
    NameRun(a, value, rows, node);
    NamedRows(rows, node, a.key);
    var rows1 := if a.key == "id" then rows else Added(rows, node, a.key);
    ValueRun(a.value, a.quote, rest, rows1, if a.key == "id" then node else |rows.up|);
    OneAttribute(s, rows, node);
    OneSpace();
    LeadingSpaces(" ", rest, AttrRow(rows, node, a), node);
  }

  lemma OneSpace()
    ensures Spaces(" ")
  {
  }

  lemma NamedRows(rows: Rows, node: nat, key: string)
    requires Proper(rows) && node < |rows.up|
    ensures |rows.up| == |rows.values| && Proper(Added(rows, node, key)) && |Added(rows, node, key).up| == |rows.up| + 1
    ensures |Added(rows, node, key).values| == |rows.up| + 1
  {
  }

  /** A name and an equals sign, up to the value. */
  lemma NameRun(a: Attr, value: string, rows: Rows, node: nat)
    requires GoodName(a.key) && Spaces(a.before) && Spaces(a.after) && Proper(rows) && node < |rows.up|
    requires value != "" && !In(value[0], Space)
    ensures Proper(Added(rows, node, a.key)) && |Added(rows, node, a.key).up| == |rows.up| + 1
    ensures ParseAttribute(a.key + (a.before + ("=" + (a.after + value))), rows, node)
         == if a.key == "id" then ParseValue(value, rows, node)
            else ParseValue(value, Added(rows, node, a.key), |rows.up|)
  {
    hide Token, Rest, ParseValue, Proper, GoodName, Spaces;
    var eq := "=" + (a.after + value);
    var more := a.before + eq;
    NameIsName(a.key, a.before, eq);
    NoRun(a.key + more, Space);
    TokenOf(a.key, more, NameChar);
    SpaceRun(a.before, eq);
    NoRun(eq, Space);
    assert eq[1..] == a.after + value;
    SpaceRun(a.after, value);
    NoRun(value, Space);
    NamedRows(rows, node, a.key);
  }

  lemma NameIsName(key: string, before: string, eq: string)
    requires GoodName(key) && Spaces(before) && eq != "" && eq[0] == '='
    ensures key != "" && |key| <= LIMIT && (forall i :: 0 <= i < |key| ==> In(key[i], NameChar))
    ensures !In((key + (before + eq))[0], Space) && !In((before + eq)[0], NameChar) && !In(eq[0], Space)
  {
    assert (key + (before + eq))[0] == key[0] && In(key[0], NameChar);
    assert (before + eq)[0] == if before == "" then '=' else before[0];
  }

  lemma ValueStart(v: string, q: Quote, rest: string)
    requires GoodValue(v, q)
    ensures RenderValue(v, q, rest) != "" && !In(RenderValue(v, q, rest)[0], Space)
  {
  }

  lemma OneAttribute(s: string, rows: Rows, node: nat)
    requires Proper(rows) && node < |rows.up| && ParseAttribute(s, rows, node).More?
    ensures var a := ParseAttribute(s, rows, node);
            && Proper(a.rows) && node < |a.rows.up|
            && ParseAttributes(s, rows, node) == ParseAttributes(a.rest, a.rows, node)
  {
  }

  /** What follows an attribute ends it, if it is bare. */
  lemma AttrsStart(attrs: seq<Attr>, quoted: bool, rest: string)
    requires GoodAttrs(attrs, quoted) && rest != "" && Breaks(rest[0])
    ensures RenderAttrs(attrs, rest) != "" && (!quoted ==> Breaks(RenderAttrs(attrs, rest)[0]))
  {
    hide RenderValue;
  }

  /** A rendered list of attributes. */
  lemma {:induction false} AttrsRun(attrs: seq<Attr>, quoted: bool, rest: string, rows: Rows, node: nat)
    requires GoodAttrs(attrs, quoted) && rest != "" && Breaks(rest[0]) && Proper(rows) && node < |rows.up|
    ensures |rows.up| == |rows.values| && Proper(AttrRows(rows, node, attrs))
    ensures ParseAttributes(RenderAttrs(attrs, rest), rows, node)
         == ParseAttributes(rest, AttrRows(rows, node, attrs), node)
    decreases |attrs|
  {
    hide ParseAttributes, Proper, GoodAttr, RenderAttr, Breaks, AttrRow;
    if attrs == [] {
      ProperLengths(rows);
    } else {
      var a := attrs[0];
      AttrsStart(attrs[1..], !a.quote.Bare?, rest);
      AttrRun(a, RenderAttrs(attrs[1..], rest), rows, node);
      AttrsRun(attrs[1..], !a.quote.Bare?, rest, AttrRow(rows, node, a), node);
    }
  }

  lemma ProperLengths(rows: Rows)
    requires Proper(rows)
    ensures |rows.up| == |rows.values| == |rows.keys|
  {
  }

  // ---- Attributes as documents ----

  /** The last id counts. */
  function IdValue(attrs: seq<Attr>): Option<string>
  {
    if attrs == [] then None
    else if IdValue(attrs[1..]).Some? || attrs[0].key != "id" then IdValue(attrs[1..])
    else Some(attrs[0].value)
  }

  function AttrDocs(attrs: seq<Attr>): seq<Doc>
  {
    if attrs == [] then []
    else (if attrs[0].key == "id" then [] else [Doc(attrs[0].key, Some(attrs[0].value), [])]) + AttrDocs(attrs[1..])
  }

  function TagDoc(key: string, attrs: seq<Attr>): Doc { Doc(key, IdValue(attrs), AttrDocs(attrs)) }

  function WithValue(rows: Rows, node: nat, v: Option<string>): Rows
    requires node < |rows.values|
  {
    if v.None? then rows else Valued(rows, node, v.value)
  }

  /** The order of ids and other attributes does not matter to the table. */
  lemma {:induction false} AttrRowsBuild(rows: Rows, node: nat, attrs: seq<Attr>)
    requires |rows.up| == |rows.values| && node < |rows.up|
    ensures AttrRows(rows, node, attrs) == BuildAll(WithValue(rows, node, IdValue(attrs)), node, AttrDocs(attrs))
    decreases |attrs|
  {
    if attrs == [] {
    } else {
      var a, rest := attrs[0], attrs[1..];
      hide AttrRows, BuildAll, Build;
      OneAttrRow(rows, node, attrs);
      AttrRowsBuild(AttrRow(rows, node, a), node, rest);
      var with := WithValue(rows, node, IdValue(attrs));
      if a.key == "id" {
        assert [] + AttrDocs(rest) == AttrDocs(rest);
        assert WithValue(AttrRow(rows, node, a), node, IdValue(rest)) == with;
      } else {
        LeafBuild(with, node, a.key, a.value);
        FirstBuilt(with, node, Doc(a.key, Some(a.value), []), AttrDocs(rest));
        assert Valued(Added(with, node, a.key), |rows.up|, a.value)
            == WithValue(AttrRow(rows, node, a), node, IdValue(rest));
      }
    }
  }

  lemma OneAttrRow(rows: Rows, node: nat, attrs: seq<Attr>)
    requires |rows.up| == |rows.values| && node < |rows.up| && attrs != []
    ensures AttrRows(rows, node, attrs) == AttrRows(AttrRow(rows, node, attrs[0]), node, attrs[1..])
  {
  }

  lemma FirstBuilt(rows: Rows, node: nat, d: Doc, ds: seq<Doc>)
    requires |rows.up| == |rows.values|
    ensures BuildAll(rows, node, [d] + ds) == BuildAll(Build(rows, node, d), node, ds)
  {
    assert ([d] + ds)[1..] == ds;
  }

  /** A tag is read as the document it stands for. */
  lemma TagRows(rows: Rows, cur: nat, key: string, attrs: seq<Attr>)
    requires Proper(rows) && cur < |rows.up|
    ensures |rows.up| == |rows.values| && Proper(Added(rows, cur, key)) && |Added(rows, cur, key).up| == |rows.up| + 1
    ensures |Added(rows, cur, key).values| == |rows.up| + 1
    ensures AttrRows(Added(rows, cur, key), |rows.up|, attrs) == Build(rows, cur, TagDoc(key, attrs))
  {
    NamedRows(rows, cur, key);
    hide AttrRows, BuildAll, AttrDocs, IdValue;
    AttrRowsBuild(Added(rows, cur, key), |rows.up|, attrs);
  }

  // ---- Tags ----

  lemma KeyRun(key: string, body: string)
    requires GoodKey(key)
    ensures key != "" && key != INCLUDE && |key| <= LIMIT && forall i :: 0 <= i < |key| ==> In(key[i], TagChar)
    ensures (key + body)[0] == key[0] && key[0] !in "!?/"
  {
  }

  /** A rendered tag, up to and including its closing bracket. */
  lemma TagRun(key: string, attrs: seq<Attr>, tail: string, open: bool, rest: string, rows: Rows, cur: nat)
    requires GoodKey(key) && GoodAttrs(attrs, false) && Spaces(tail) && Proper(rows) && cur < |rows.up|
    ensures |rows.up| == |rows.values| && Proper(Build(rows, cur, TagDoc(key, attrs)))
    ensures var b := Build(rows, cur, TagDoc(key, attrs));
            ParseTag(RenderTag(key, attrs, tail, open, rest), rows, cur)
               == if open then Opened(rest, b, |rows.up|, "") else Closed(rest, b, "")
  {
    hide Token, Rest, ParseAttributes, ParseTag, Proper, RenderAttrs, TagDoc, GoodAttrs, GoodKey, In, Spaces,
         Breaks, Build, AttrRows;
    var end := (if open then ">" else "/>") + rest;
    var body := RenderAttrs(attrs, tail + end);
    KeyRun(key, body);
    TailStart(tail, end);
    AttrsStart(attrs, false, tail + end);
    BreaksTags(body);
    TokenOf(key, body, TagChar);
    TagRows(rows, cur, key, attrs);
    AttrsRun(attrs, false, tail + end, Added(rows, cur, key), |rows.up|);
    var b := Build(rows, cur, TagDoc(key, attrs));
    LeadingSpaces(tail, end, b, |rows.up|);
    EndOfAttributes(end, b, |rows.up|);
    NoRun(end, Space);
    TagEnd(key, body, open, rest, rows, cur, b);
  }

  lemma TailStart(tail: string, end: string)
    requires Spaces(tail) && end != "" && end[0] in "/>"
    ensures tail + end != "" && Breaks((tail + end)[0]) && !In(end[0], Space) && !In(end[0], TagChar)
    ensures !In((tail + end)[0], TagChar)
  {
  }

  lemma BreaksTags(body: string)
    ensures body != "" && Breaks(body[0]) ==> !In(body[0], TagChar)
  {
  }

  lemma EndOfAttributes(end: string, rows: Rows, node: nat)
    requires end != "" && end[0] in "/>" && Proper(rows) && node < |rows.up|
    ensures ParseAttributes(end, rows, node) == Done(end, rows, "")
  {
  }

  /** A tag whose name and attributes have been read. */
  lemma TagEnd(key: string, body: string, open: bool, rest: string, rows: Rows, cur: nat, b: Rows)
    requires Proper(rows) && cur < |rows.up|
    requires Proper(Added(rows, cur, key)) && |Added(rows, cur, key).up| == |rows.up| + 1
    requires key != "" && |key| <= LIMIT && Token(key + body, TagChar) == key && Rest(key + body, TagChar) == body
    requires ParseAttributes(body, Added(rows, cur, key), |rows.up|) == Done((if open then ">" else "/>") + rest, b, "")
    requires Rest((if open then ">" else "/>") + rest, Space) == (if open then ">" else "/>") + rest
    ensures ParseTag(key + body, rows, cur) == if open then Opened(rest, b, |rows.up|, "") else Closed(rest, b, "")
  {
  }

  lemma EndTagRun(key: string, tail: string, rest: string)
    requires GoodKey(key) && Spaces(tail)
    ensures ParseEndTag(key + (tail + (">" + rest))) == Ended(rest, key)
  {
    hide Token, Rest, GoodKey, In, Spaces, Breaks;
    var end := ">" + rest;
    KeyRun(key, tail + end);
    TailStart(tail, end);
    TokenOf(key, tail + end, TagChar);
    SpaceRun(tail, end);
    NoRun(end, Space);
    assert end[1..] == rest;
  }

  // ---- Gaps ----

  /** A comment is skipped through its own end. */
  lemma CommentEnds(c: string, rest: string)
    requires Find(c, "-->").None?
    ensures AfterFirst(c + ("-->" + rest), "-->") == rest
  {
    var s := c + ("-->" + rest);
    forall i: nat | i < |c| ensures !At(s, "-->", i) {
      NotYet(c, rest, i);
    }
    assert At(s, "-->", |c|);
    FindUnique(s, "-->", |c|);
  }

  lemma NotYet(c: string, rest: string, i: nat)
    requires i < |c| && !At(c, "-->", i)
    ensures !At(c + ("-->" + rest), "-->", i)
  {
    var s, pat := c + ("-->" + rest), "-->";
    if i + 3 > |c| {
      assert s[i + 2] == '-' && pat[2] == '>';
    } else {
      var k :| 0 <= k < 3 && c[i + k] != pat[k];
      assert s[i + k] == c[i + k];
    }
  }

  lemma InstructionEnds(c: string, rest: string)
    requires Find(c, "?>").None?
    ensures AfterFirst(c + ("?>" + rest), "?>") == rest
  {
    FindAppended(c, "?>", rest);
    assert c + ("?>" + rest) == c + "?>" + rest;
  }

  lemma {:induction false} QuotePrefix(s: string, t: string, i: nat)
    requires i <= |s| && s <= t
    ensures OpenQuote(t, i) == OpenQuote(s, i)
    decreases i
  {
    if i == 0 {
    } else {
      QuotePrefix(s, t, i - 1);
    }
  }

  lemma DeclarationEnded(d: string, rest: string)
    requires FirstEnd(d + ">", |d|)
    ensures AfterDoctype(d + (">" + rest)) == rest
  {
    hide OpenQuote, AfterDoctype;
    var s, t := d + ">", d + (">" + rest);
    assert s <= t;
    forall j: nat | j <= |d| ensures DeclarationEnds(t, j) <==> DeclarationEnds(s, j) {
      QuotePrefix(s, t, j);
      assert t[j] == s[j];
    }
    DoctypeEnds(t);
    assert FirstEnd(t, |d|);
    assert t[|d| + 1..] == rest;
  }

  /** A comment, an instruction or a declaration does no more than end the text before it. */
  lemma PieceRun(p: Piece, rest: string, st: State)
    requires GoodPiece(p) && !p.White? && Sound(st)
    ensures Sound(TakeText(st)) && Parse(RenderPiece(p, rest), st) == Parse(rest, TakeText(st))
  {
    hide Parse, TakeText, AfterDoctype, StartTagTurn, EndTagTurn, AfterFirst, Depth;
    TakeTextKeeps(st);
    ProperLengths(st.rows);
    var s := RenderPiece(p, rest);
    PieceSkipped(p, rest);
    Turns(s, st);
  }

  lemma PieceSkipped(p: Piece, rest: string)
    requires GoodPiece(p) && !p.White?
    ensures var s := RenderPiece(p, rest);
            && |s| > 2 && s[0] == '<' && s[1..] != "" && s[1..][0] == s[1]
            && (p.Instruction? ==> s[1] == '?' && AfterFirst(s[1..][1..], "?>") == rest)
            && (!p.Instruction? ==> s[1] == '!' && AfterBang(s[1..][1..]) == rest)
  {
    hide AfterDoctype, AfterFirst;
    var s := RenderPiece(p, rest);
    match p
    case Comment(c) =>
      CommentEnds(c, rest);
      assert s[1..][1..] == "--" + (c + ("-->" + rest));
      assert Drop(s[1..][1..], 2) == c + ("-->" + rest);
    case Instruction(c) =>
      InstructionEnds(c, rest);
      assert s[1..][1..] == c + ("?>" + rest);
    case Declaration(d) =>
      DeclarationEnded(d, rest);
      assert s[1..][1..] == "D" + (d + (">" + rest));
      assert s[1..][1..][1..] == d + (">" + rest);
  }
}
