/**
 * The notations of the configuration file. A document is written with each leaf in any of the
 * documented ways, indented and commented at will; what the parser makes of it depends only on
 * what the document means.
 */
module Notation {
  import opened Wrappers
  import opened Rows
  import opened Markup
  import opened Documents
  import opened Spelling

  /** A document as written: a leaf around text, or an element with attributes and children. */
  datatype Source =
    | Text(key: string, tail: string, value: string, trail: Gap, endTail: string)
    | Element(key: string, attrs: seq<Attr>, tail: string, body: Body)

  datatype Body = Empty | Full(kids: seq<Kid>, last: Gap, endTail: string)

  datatype Kid = Kid(gap: Gap, doc: Source)

  /** The text of a document, in front of the text that follows. */
  function Render(s: Source, rest: string): string
    decreases s, 1
  {
    match s
    case Text(key, tail, v, trail, endTail) =>
      "<" + RenderTag(key, [], tail, true, v + RenderGap(trail, RenderEnd(key, endTail, rest)))
    case Element(key, attrs, tail, Empty) => "<" + RenderTag(key, attrs, tail, false, rest)
    case Element(key, attrs, tail, Full(kids, last, endTail)) =>
      "<" + RenderTag(key, attrs, tail, true, RenderKids(kids, RenderGap(last, RenderEnd(key, endTail, rest))))
  }

  function RenderKids(kids: seq<Kid>, rest: string): string
    decreases kids, 0
  {
    if kids == [] then rest else RenderGap(kids[0].gap, Render(kids[0].doc, RenderKids(kids[1..], rest)))
  }

  // ---- Meaning ----

  function Meaning(s: Source): Doc
    decreases s, 1
  {
    match s
    case Text(key, _, v, _, _) => Doc(key, Some(v), [])
    case Element(key, attrs, _, Empty) => TagDoc(key, attrs)
    case Element(key, attrs, _, Full(kids, _, _)) => Doc(key, IdValue(attrs), AttrDocs(attrs) + Meanings(kids))
  }

  function Meanings(kids: seq<Kid>): seq<Doc>
    decreases kids, 0
  {
    if kids == [] then [] else [Meaning(kids[0].doc)] + Meanings(kids[1..])
  }

  // ---- What can be written ----

  /** Text that is a value of its own: not blank, and without an opening bracket. */
  predicate GoodText(v: string) { !Blank(v) && forall i :: 0 <= i < |v| ==> v[i] != '<' }

  /** What a rendered document leaves in the token buffer. */
  function Residue(s: Source): string
  {
    if s.Element? && s.body.Empty? then "" else s.key
  }

  /** How much is in the token buffer after some documents. */
  function Held(kids: seq<Kid>, held: nat): nat
  {
    if kids == [] then held else Held(kids[1..], |Residue(kids[0].doc)|)
  }

  /**
   * Every gap may hold any white text and comments, as far as they fit the token buffer with the
   * name before them. An element around nothing needs an attribute: without one it is a leaf
   * around blank text.
   */
  ghost predicate Writable(s: Source)
    decreases s, 1
  {
    match s
    case Text(key, tail, v, trail, endTail) =>
      && GoodKey(key) && Spaces(tail) && GoodText(v) && Spaces(endTail)
      && GoodGap(trail) && (trail != [] ==> !trail[0].White?) && |v| + WhiteLength(trail) <= LIMIT
    case Element(key, attrs, tail, Empty) => GoodKey(key) && GoodAttrs(attrs, false) && Spaces(tail)
    case Element(key, attrs, tail, Full(kids, last, endTail)) =>
      && GoodKey(key) && GoodAttrs(attrs, false) && Spaces(tail) && Spaces(endTail)
      && (kids == [] ==> attrs != []) && WritableAll(kids, last, 0)
  }

  /** Documents with their gaps, and the gap after the last. */
  ghost predicate WritableAll(kids: seq<Kid>, last: Gap, held: nat)
    decreases kids, 0
  {
    if kids == [] then GoodGap(last) && held + WhiteLength(last) <= LIMIT
    else
      && GoodGap(kids[0].gap) && held + WhiteLength(kids[0].gap) <= LIMIT
      && Writable(kids[0].doc) && WritableAll(kids[1..], last, |Residue(kids[0].doc)|)
  }

  // ---- What text and comments leave behind ----

  /** The same tree, but interior nodes, and the node at p, may have a blank value the second lacks. */
  ghost predicate Almost(a: Rows, b: Rows, p: nat)
  {
    && a.up == b.up && a.keys == b.keys && |a.values| == |b.values| == |a.up|
    && forall i :: 0 <= i < |a.values| ==>
         a.values[i] == b.values[i]
         || ((i == p || HasChild(a.up, i)) && b.values[i].None? && a.values[i].Some? && Blank(a.values[i].value))
  }

  lemma LikeIsAlmost(a: Rows, b: Rows, p: nat)
    ensures Like(a, b) ==> Almost(a, b, p)
    ensures Almost(a, b, p) && HasChild(a.up, p) ==> Like(a, b)
    ensures Almost(a, b, p) ==> a.up == b.up && a.keys == b.keys && |a.up| == |a.values| == |b.values|
  {
  }

  /** A blank value put on a node that may have one. */
  lemma AlmostBlank(a: Rows, b: Rows, p: nat, v: string)
    requires Almost(a, b, p) && p < |a.values| && a.values[p].None? && Blank(v)
    ensures Almost(Valued(a, p, v), b, p)
  {
    hide HasChild;
  }

  /** It does not matter once the node gets a child. */
  lemma AlmostAdded(a: Rows, b: Rows, p: nat, key: string)
    requires Almost(a, b, p)
    ensures Like(Added(a, p, key), Added(b, p, key))
  {
    hide HasChild;
    forall i: nat ensures HasChild(a.up, i) ==> HasChild(a.up + [p], i) {
      ChildStays(a.up, p, i);
    }
    ChildStays(a.up, p, p);
  }

  /** Text that may become the value of a node about to get a child is blank. */
  predicate Pending(st: State)
    requires |st.rows.up| == |st.rows.values| && st.cur < |st.rows.up|
  {
    st.rows.values[st.cur].None? && !HasChild(st.rows.up, st.cur) ==> Blank(st.token)
  }

  /** The text before a tag or a comment is of no consequence. */
  predicate Settled(st: State)
    requires |st.rows.up| == |st.rows.values| && st.cur < |st.rows.up|
  {
    st.spaceOnly || st.rows.values[st.cur].Some? || HasChild(st.rows.up, st.cur)
  }

  lemma SoundShape(st: State)
    requires Sound(st)
    ensures Proper(st.rows) && |st.rows.up| == |st.rows.values| == |st.rows.keys| && st.cur < |st.rows.up|
  {
  }

  lemma TextTaken(st: State, r: Rows)
    requires Sound(st) && Almost(st.rows, r, st.cur) && Pending(st)
    ensures var u := TakeText(st);
            && Sound(u) && u.cur == st.cur && u.spaceOnly == st.spaceOnly
            && u.rows.up == st.rows.up && |u.token| <= |st.token|
            && Almost(u.rows, r, st.cur) && Pending(u) && (Settled(st) ==> u.rows == st.rows && Settled(u))
  {
    hide HasChild, Almost, Depth;
    TakeTextKeeps(st);
    LikeIsAlmost(st.rows, r, st.cur);
    if !Settled(st) {
      AlmostBlank(st.rows, r, st.cur, st.token);
    }
    EmptyIsBlank();
  }

  lemma EmptyIsBlank()
    ensures Blank("")
  {
  }

  // ---- The parse of gaps, tags and texts ----

  /** Text is collected in the token buffer. */
  lemma {:induction false} TextRun(v: string, rest: string, st: State)
    requires Sound(st) && |st.token| + |v| <= LIMIT && forall i :: 0 <= i < |v| ==> v[i] != '<'
    ensures var e := st.(token := st.token + v, spaceOnly := st.spaceOnly && Blank(v));
            Sound(e) && Parse(v + rest, st) == Parse(rest, e)
    decreases |v|
  {
    hide Parse, BracketTurn, Depth;
    if v == "" {
      assert v + rest == rest;
      assert st.token + v == st.token;
    } else {
      Turns(v + rest, st);
      assert (v + rest)[1..] == v[1..] + rest;
      var st1 := st.(token := st.token + [v[0]], spaceOnly := st.spaceOnly && IsBlank(v[0]));
      TextRun(v[1..], rest, st1);
      assert st1.token + v[1..] == st.token + v;
      BlankSplit(v);
    }
  }

  lemma BlankSplit(v: string)
    requires v != ""
    ensures Blank(v) <==> IsBlank(v[0]) && Blank(v[1..])
  {
  }

  /** A gap, from any point of a parse. */
  lemma {:induction false} GapRun(gap: Gap, rest: string, st: State, r: Rows) returns (e: State)
    requires GoodGap(gap) && |st.token| + WhiteLength(gap) <= LIMIT
    requires Sound(st) && Almost(st.rows, r, st.cur) && Pending(st)
    ensures Sound(e) && e.cur == st.cur && e.spaceOnly == st.spaceOnly && |e.token| <= |st.token| + WhiteLength(gap)
    ensures Almost(e.rows, r, st.cur) && Pending(e) && e.rows.up == st.rows.up
    ensures Settled(st) ==> e.rows == st.rows && Settled(e)
    ensures Parse(RenderGap(gap, rest), st) == Parse(rest, e)
    decreases |gap|
  {
    hide Parse, Almost, Pending, Settled, GoodPiece, RenderPiece, TakeText, Depth, Proper;
    SoundShape(st);
    if gap == [] {
      e := st;
    } else {
      var more := RenderGap(gap[1..], rest);
      assert GoodPiece(gap[0]);
      var st1;
      if gap[0].White? {
        WhiteRun(gap[0].w, more, st, r);
        st1 := st.(token := st.token + gap[0].w);
      } else {
        PieceRun(gap[0], more, st);
        TextTaken(st, r);
        st1 := TakeText(st);
      }
      e := GapRun(gap[1..], rest, st1, r);
    }
  }

  lemma {:induction false} WhiteRun(w: string, rest: string, st: State, r: Rows)
    requires GoodPiece(White(w)) && |st.token| + |w| <= LIMIT && Sound(st) && Almost(st.rows, r, st.cur) && Pending(st)
    ensures var e := st.(token := st.token + w);
            && Sound(e) && Pending(e) && (Settled(st) <==> Settled(e))
            && Parse(RenderPiece(White(w), rest), st) == Parse(rest, e)
  {
    hide Parse, Almost, HasChild, Depth;
    TextRun(w, rest, st);
    assert st.(token := st.token + w) == st.(token := st.token + w, spaceOnly := st.spaceOnly && Blank(w));
  }

  /** No node made of an attribute is an include directive. */
  lemma {:induction false} AttrKeys(attrs: seq<Attr>, quoted: bool, r: Rows, p: nat)
    requires GoodAttrs(attrs, quoted) && |r.up| == |r.keys| == |r.values| && p < |r.up|
    ensures var b := BuildAll(r, p, AttrDocs(attrs));
            |b.keys| == |b.up| >= |r.up| && forall i :: |r.up| <= i < |b.up| ==> b.keys[i] != INCLUDE
    decreases |attrs|
  {
    hide Build;
    if attrs == [] {
    } else {
      var a, rest := attrs[0], attrs[1..];
      assert a.key != INCLUDE;
      hide GoodAttr, BuildAll;
      if a.key == "id" {
        assert [] + AttrDocs(rest) == AttrDocs(rest);
        AttrKeys(rest, !a.quote.Bare?, r, p);
      } else {
        var r1 := Build(r, p, Doc(a.key, Some(a.value), []));
        FirstBuilt(r, p, Doc(a.key, Some(a.value), []), AttrDocs(rest));
        LeafBuild(r, p, a.key, a.value);
        assert r1.keys == r.keys + [a.key];
        AttrKeys(rest, !a.quote.Bare?, r1, p);
        BuildAllGrows(r1, p, AttrDocs(rest));
      }
    }
  }

  /** After a start tag the current node's last child is no include directive. */
  lemma {:induction false} NotAtInclude(key: string, attrs: seq<Attr>, open: bool, r: Rows, p: nat)
    requires GoodKey(key) && GoodAttrs(attrs, false) && Proper(r) && p < |r.up|
    ensures var b := Build(r, p, TagDoc(key, attrs));
            && Proper(b) && |r.up| < |b.up| && b.up[|r.up|] == p && r.up <= b.up
            && !AtInclude(b, if open then |r.up| else p)
  {
    hide BuildAll, AttrDocs, Depth, GoodAttrs;
    var r1 := Added(r, p, key);
    var d := TagDoc(key, attrs);
    BuildProper(r, p, d);
    BuildGrows(r, p, d);
    BuiltIsLast(r, p, d);
    if open {
      AttrKeys(attrs, false, if d.value.None? then r1 else Valued(r1, |r.up|, d.value.value), |r.up|);
    }
  }

  /** Building below tables that are alike once the node is there. */
  lemma {:induction false} LikeBuilt(a: Rows, b: Rows, p: nat, d: Doc)
    requires Almost(a, b, p) && p < |a.up|
    ensures |a.up| == |a.values| && |b.up| == |b.values| && Like(Build(a, p, d), Build(b, p, d))
  {
    hide Like, Almost, BuildAll;
    LikeIsAlmost(a, b, p);
    AlmostAdded(a, b, p, d.key);
    var a1, b1, child := Added(a, p, d.key), Added(b, p, d.key), |a.up|;
    if d.value.None? {
      LikeBuildAll(a1, b1, child, d.kids);
    } else {
      LikeValued(a1, b1, child, d.value.value);
      LikeBuildAll(Valued(a1, child, d.value.value), Valued(b1, child, d.value.value), child, d.kids);
    }
  }

  /** A start tag, from its opening bracket. */
  lemma {:induction false} StartRun(key: string, attrs: seq<Attr>, tail: string, open: bool, rest: string,
                                    st: State, r: Rows)
    returns (e: State)
    requires GoodKey(key) && GoodAttrs(attrs, false) && Spaces(tail)
    requires Sound(st) && Almost(st.rows, r, st.cur) && Pending(st)
    ensures |r.up| == |r.values| == |r.keys| && st.cur < |r.up|
    ensures Sound(e) && e.token == "" && e.spaceOnly == st.spaceOnly
    ensures Like(e.rows, Build(r, st.cur, TagDoc(key, attrs)))
    ensures e.cur == (if open then |r.up| else st.cur) && |r.up| < |e.rows.up| && e.rows.up[|r.up|] == st.cur
    ensures Parse("<" + RenderTag(key, attrs, tail, open, rest), st) == Parse(rest, e)
  {
    hide Parse, ParseTag, TakeText, Like, Almost, Build, TagDoc, Depth, AtInclude, RenderAttrs, Proper, GoodKey,
         GoodAttrs, Spaces,
         Pending, EndTagTurn, AfterBang, AfterFirst;
    LikeIsAlmost(st.rows, r, st.cur);
    SoundShape(st);
    TextTaken(st, r);
    var u := TakeText(st);
    var body := RenderTag(key, attrs, tail, open, rest);
    SoundShape(u);
    TagRun(key, attrs, tail, open, rest, u.rows, u.cur);
    NotAtInclude(key, attrs, open, u.rows, u.cur);
    LikeBuilt(u.rows, r, u.cur, TagDoc(key, attrs));
    var b := Build(u.rows, u.cur, TagDoc(key, attrs));
    e := if open then u.(rows := b, cur := |u.rows.up|, token := "", opens := u.opens + 1)
         else u.(rows := b, token := "");
    KeyRun(key, RenderAttrs(attrs, tail + ((if open then ">" else "/>") + rest)));
    assert ("<" + body)[1..] == body && body != "";
    Turns("<" + body, st);
    assert StartTagTurn(body, u) == Go(rest, e);
    assert NextTurn("<" + body, st) == Go(rest, e);
    LikeShape(b, Build(r, st.cur, TagDoc(key, attrs)));
  }

  /** An end tag, from its opening bracket. */
  lemma {:induction false} EndRun(key: string, tail: string, rest: string, st: State, r: Rows) returns (e: State)
    requires GoodKey(key) && Spaces(tail) && Sound(st) && st.rows.up[st.cur] >= 0 && Like(TakeText(st).rows, r)
    requires var c := LastChild(r.up, st.rows.up[st.cur]); 0 <= c < |r.keys| && r.keys[c] != INCLUDE
    ensures Sound(e) && Like(e.rows, r) && e.cur == st.rows.up[st.cur] && e.token == key && e.spaceOnly == st.spaceOnly
    ensures Parse(RenderEnd(key, tail, rest), st) == Parse(rest, e)
  {
    hide Parse, Like, Depth, GoodKey, Spaces, StartTagTurn, ParseEndTag, AfterBang, AfterFirst, LastChild;
    var u := TakeText(st);
    TakeTextKeeps(st);
    var body := key + (tail + (">" + rest));
    var s := "</" + body;
    EndTagRun(key, tail, rest);
    assert s[1..] == "/" + body && s[1..][1..] == body;
    e := u.(cur := u.rows.up[u.cur], token := key, closes := u.closes + 1);
    LikeShape(u.rows, r);
    Turns(s, st);
    assert !AtInclude(u.rows, e.cur);
    assert EndTagTurn(body, u) == Go(rest, e);
    assert NextTurn(s, st) == Go(rest, e);
  }

  // ---- Whole documents ----

  /** The value a leaf gets from its text: none for blank text until some text has not been blank. */
  function TextValue(v: string, spaceOnly: bool): Option<string>
  {
    if spaceOnly && Blank(v) then None else Some(v)
  }

  /** What a start tag without attributes leaves. */
  lemma {:induction false} LeafShape(st: State, e: State, r: Rows, key: string)
    requires Sound(st) && Sound(e) && |r.up| == |r.keys| == |r.values| && st.cur < |r.up| && e.cur == |r.up|
    requires Almost(st.rows, r, st.cur) && Like(e.rows, Build(r, st.cur, TagDoc(key, [])))
    ensures e.rows.values[e.cur].None? && !HasChild(e.rows.up, e.cur) && Like(e.rows, Added(r, st.cur, key))
  {
    BareTag(r, st.cur, key);
    LikeIsAlmost(st.rows, r, st.cur);
    hide Almost, Build, Depth;
    NewIsLeaf(st.rows, st.cur);
  }

  lemma BareTag(r: Rows, p: nat, key: string)
    requires |r.up| == |r.values|
    ensures Build(r, p, TagDoc(key, [])) == Added(r, p, key)
  {
    assert TagDoc(key, []) == Doc(key, None, []);
  }

  lemma {:induction false} TextBuild(e1: State, e2: State, r: Rows, p: nat, key: string, v: string)
    requires Sound(e1) && Sound(e2) && |r.up| == |r.values| && e1.cur == |r.up| && e1.token == ""
    requires e2 == e1.(token := e1.token + v, spaceOnly := e1.spaceOnly && Blank(v))
    requires e1.rows.values[e1.cur].None? && !HasChild(e1.rows.up, e1.cur) && Like(e1.rows, Added(r, p, key))
    ensures Like(TakeText(e2).rows, Build(r, p, Doc(key, TextValue(v, e1.spaceOnly), [])))
  {
    hide Like, Depth, HasChild, Blank;
    LikeShape(e1.rows, Added(r, p, key));
    assert "" + v == v;
    LikeValued(e1.rows, Added(r, p, key), |r.up|, v);
  }

  /** The start of a leaf around any text, up to the end of the text. */
  lemma {:induction false} LeafRun(key: string, tail: string, v: string, rest: string, st: State, r: Rows)
    returns (e: State)
    requires GoodKey(key) && Spaces(tail) && |v| <= LIMIT && (forall i :: 0 <= i < |v| ==> v[i] != '<')
    requires Sound(st) && Almost(st.rows, r, st.cur) && Pending(st)
    ensures |r.up| == |r.values| == |r.keys| && st.cur < |r.up|
    ensures Sound(e) && Sound(TakeText(e)) && e.cur == |r.up| < |e.rows.up| && e.rows.up[e.cur] == st.cur
    ensures e.token == v && e.spaceOnly == (st.spaceOnly && Blank(v))
    ensures Like(TakeText(e).rows, Build(r, st.cur, Doc(key, TextValue(v, st.spaceOnly), [])))
    ensures Parse("<" + RenderTag(key, [], tail, true, v + rest), st) == Parse(rest, e)
  {
    hide Parse, Like, Almost, Depth, GoodKey, Spaces, Pending, Build, Proper, LastChild, Blank, RenderTag, TakeText,
         TagDoc;
    var e1 := StartRun(key, [], tail, true, v + rest, st, r);
    LeafShape(st, e1, r, key);
    TextRun(v, rest, e1);
    e := e1.(token := e1.token + v, spaceOnly := e1.spaceOnly && Blank(v));
    assert "" + v == v;
    TakeTextKeeps(e);
    TextBuild(e1, e, r, st.cur, key, v);
  }

  lemma {:induction false} LeafIsNoInclude(key: string, v: Option<string>, r: Rows, p: nat)
    requires GoodKey(key) && |r.up| == |r.keys| == |r.values| && p < |r.up|
    ensures var b := Build(r, p, Doc(key, v, []));
            var c := LastChild(b.up, p);
            0 <= c < |b.keys| && b.keys[c] != INCLUDE
  {
    hide Build;
    KeyRun(key, "");
    BuiltIsLast(r, p, Doc(key, v, []));
  }

  /** A leaf around any text. */
  lemma {:induction false} TextSourceRun(key: string, tail: string, v: string, endTail: string, rest: string,
                                         st: State, r: Rows)
    returns (e: State)
    requires GoodKey(key) && Spaces(tail) && Spaces(endTail)
    requires |v| <= LIMIT && (forall i :: 0 <= i < |v| ==> v[i] != '<')
    requires Sound(st) && Almost(st.rows, r, st.cur) && Pending(st)
    ensures |r.up| == |r.values| == |r.keys| && st.cur < |r.up|
    ensures Sound(e) && e.cur == st.cur && e.token == key && e.spaceOnly == (st.spaceOnly && Blank(v))
    ensures Like(e.rows, Build(r, st.cur, Doc(key, TextValue(v, st.spaceOnly), [])))
    ensures Parse(Render(Text(key, tail, v, [], endTail), rest), st) == Parse(rest, e)
  {
    hide Parse, Like, Almost, Depth, GoodKey, Spaces, Pending, Build, Proper, LastChild, Blank, RenderTag, TakeText,
         RenderEnd;
    var e1 := LeafRun(key, tail, v, RenderEnd(key, endTail, rest), st, r);
    LeafIsNoInclude(key, TextValue(v, st.spaceOnly), r, st.cur);
    e := EndRun(key, endTail, rest, e1, Build(r, st.cur, Doc(key, TextValue(v, st.spaceOnly), [])));
  }

  /** A leaf around text that is not blank, with comments after the text. */
  lemma {:induction false} TrailRun(s: Source, rest: string, st: State, r: Rows) returns (e: State)
    requires s.Text? && s.trail != [] && Writable(s) && Sound(st) && Almost(st.rows, r, st.cur) && Pending(st)
    ensures |r.up| == |r.values| == |r.keys| && st.cur < |r.up|
    ensures Sound(e) && e.cur == st.cur && e.token == s.key && Like(e.rows, Build(r, st.cur, Meaning(s)))
    ensures Parse(Render(s, rest), st) == Parse(rest, e)
  {
    hide Parse, Like, Almost, Depth, GoodKey, Spaces, Pending, Build, Proper, LastChild, Blank, RenderTag, TakeText,
         RenderEnd, RenderPiece;
    var end := RenderEnd(s.key, s.endTail, rest);
    var e1 := LeafRun(s.key, s.tail, s.value, RenderGap(s.trail, end), st, r);
    var b := Build(r, st.cur, Meaning(s));
    assert GoodPiece(s.trail[0]);
    PieceRun(s.trail[0], RenderGap(s.trail[1..], end), e1);
    var e2 := TakeText(e1);
    ValueTaken(e1, b);
    LikeIsAlmost(e2.rows, b, e2.cur);
    var e3 := GapRun(s.trail[1..], end, e2, b);
    SettledRows(e3);
    LeafIsNoInclude(s.key, Some(s.value), r, st.cur);
    e := EndRun(s.key, s.endTail, rest, e3, b);
  }

  lemma {:induction false} ValueTaken(e: State, b: Rows)
    requires Sound(e) && Sound(TakeText(e)) && !e.spaceOnly && Like(TakeText(e).rows, b)
    ensures var u := TakeText(e);
            && u.cur == e.cur && u.rows.up == e.rows.up && u.token == e.token && u.spaceOnly == e.spaceOnly
            && Settled(u) && Pending(u)
  {
    hide HasChild;
  }

  lemma SettledRows(st: State)
    requires Sound(st) && Settled(st)
    ensures TakeText(st).rows == st.rows
  {
  }

  /** An element with an attribute has a value or a child. */
  lemma {:induction false} AttrsSettle(key: string, attrs: seq<Attr>, e: State, r: Rows, p: nat)
    requires attrs != [] && Sound(e) && |r.up| == |r.keys| == |r.values| && p < |r.up| && e.cur == |r.up|
    requires Like(e.rows, Build(r, p, TagDoc(key, attrs)))
    ensures Settled(e)
  {
    var d, b, r1 := TagDoc(key, attrs), Build(r, p, TagDoc(key, attrs)), Added(r, p, key);
    hide Build, Sound;
    BuildValues(r, p, d);
    assert b.values[|r.up|] == (r.values + [d.value])[|r.up|];
    if d.value.None? {
      SomeDoc(attrs);
      BuildSplits(r, p, d);
      BuildGrows(r1, |r.up|, d.kids[0]);
      BuiltIsLast(r1, |r.up|, d.kids[0]);
      hide BuildAll;
      KidsHaveParent(Build(r1, |r.up|, d.kids[0]), |r.up|, d.kids[1..]);
    }
  }

  lemma SomeDoc(attrs: seq<Attr>)
    requires attrs != [] && IdValue(attrs).None?
    ensures AttrDocs(attrs) != []
  {
  }

  lemma BuildSplits(r: Rows, p: nat, d: Doc)
    requires |r.up| == |r.values| && d.value.None? && d.kids != []
    ensures Build(r, p, d) == BuildAll(Build(Added(r, p, d.key), |r.up|, d.kids[0]), |r.up|, d.kids[1..])
  {
  }

  lemma {:induction false} ElementBuild(key: string, attrs: seq<Attr>, kids: seq<Doc>, r: Rows, p: nat)
    requires |r.up| == |r.values| == |r.keys|
    ensures Build(r, p, Doc(key, IdValue(attrs), AttrDocs(attrs) + kids))
         == BuildAll(Build(r, p, TagDoc(key, attrs)), |r.up|, kids)
  {
    hide AttrDocs, IdValue, BuildAll;
    var r1 := Added(r, p, key);
    BuildAllAppend(if IdValue(attrs).None? then r1 else Valued(r1, |r.up|, IdValue(attrs).value), |r.up|,
                   AttrDocs(attrs), kids);
  }

  /** The end of an element with children, or at least an attribute. */
  lemma {:induction false} ClosingRun(key: string, endTail: string, d: Doc, rest: string, cur: nat, r: Rows, e2: State)
    returns (e: State)
    requires GoodKey(key) && d.key == key && Spaces(endTail) && |r.up| == |r.keys| == |r.values| && cur < |r.up|
    requires Sound(e2) && e2.cur == |r.up| && Settled(e2) && Like(e2.rows, Build(r, cur, d))
    ensures Sound(e) && e.cur == cur && e.token == key && Like(e.rows, Build(r, cur, d))
    ensures Parse(RenderEnd(key, endTail, rest), e2) == Parse(rest, e)
  {
    hide Parse, Like, Depth, GoodKey, Build, Proper, HasChild, LastChild, Spaces, RenderEnd, TakeText, Settled;
    var b := Build(r, cur, d);
    LikeShape(e2.rows, b);
    SettledRows(e2);
    BuildGrows(r, cur, d);
    BuiltIsLast(r, cur, d);
    KeyRun(key, "");
    e := EndRun(key, endTail, rest, e2, b);
  }

  lemma FreshIsPending(st: State)
    requires Sound(st) && st.token == ""
    ensures Pending(st)
  {
  }

  lemma ChildSettles(st: State)
    requires Sound(st) && HasChild(st.rows.up, st.cur)
    ensures Settled(st) && Pending(st)
  {
  }

  /** Any writable document, from any point of a parse: what it adds is what it means. */
  lemma {:induction false} SourceRun(s: Source, rest: string, st: State, r: Rows) returns (e: State)
    requires Writable(s) && Sound(st) && Almost(st.rows, r, st.cur) && Pending(st)
    ensures Sound(e) && e.cur == st.cur && e.token == Residue(s) && |r.up| == |r.values| == |r.keys| && st.cur < |r.up|
    ensures Like(e.rows, Build(r, st.cur, Meaning(s)))
    ensures Parse(Render(s, rest), st) == Parse(rest, e)
    decreases s, 1
  {
    hide Parse, Like, Almost, Depth, GoodKey, GoodAttrs, GoodText, GoodGap, Spaces, Pending, Settled, Build, Proper,
         HasChild,
         RenderTag, RenderKids, RenderGap, RenderEnd, WritableAll, TagDoc, BuildAll;
    match s
    case Text(key, tail, v, trail, endTail) =>
      if trail == [] {
        PlainText(v);
        e := TextSourceRun(key, tail, v, endTail, rest, st, r);
      } else {
        e := TrailRun(s, rest, st, r);
      }
    case Element(key, attrs, tail, Empty) => e := StartRun(key, attrs, tail, false, rest, st, r);
    case Element(key, attrs, tail, Full(kids, last, endTail)) =>
      var end := RenderEnd(key, endTail, rest);
      var e1 := StartRun(key, attrs, tail, true, RenderKids(kids, RenderGap(last, end)), st, r);
      var r1 := Build(r, st.cur, TagDoc(key, attrs));
      FreshIsPending(e1);
      LikeIsAlmost(e1.rows, r1, e1.cur);
      if kids == [] {
        AttrsSettle(key, attrs, e1, r, st.cur);
      }
      var e2 := KidsRun(kids, last, end, e1, r1);
      ElementBuild(key, attrs, Meanings(kids), r, st.cur);
      e := ClosingRun(key, endTail, Meaning(s), rest, st.cur, r, e2);
  }

  lemma PlainText(v: string)
    requires GoodText(v)
    ensures !Blank(v) && forall i :: 0 <= i < |v| ==> v[i] != '<'
  {
  }

  /** A list of documents, each with its gap before it, and the gap after them. */
  lemma {:induction false} KidsRun(kids: seq<Kid>, last: Gap, rest: string, st: State, r: Rows) returns (e: State)
    requires WritableAll(kids, last, |st.token|) && Sound(st) && Almost(st.rows, r, st.cur) && Pending(st)
    ensures Sound(e) && e.cur == st.cur && |r.up| == |r.values| == |r.keys|
    ensures kids != [] || (Settled(st) && Like(st.rows, r)) ==>
              Settled(e) && Like(e.rows, BuildAll(r, st.cur, Meanings(kids)))
    ensures Parse(RenderKids(kids, RenderGap(last, rest)), st) == Parse(rest, e)
    decreases kids, 0
  {
    hide Parse, Like, Almost, Depth, Pending, Settled, Build, Proper, HasChild, Render, RenderGap, Residue, Meaning,
         Writable, GoodGap;
    LikeIsAlmost(st.rows, r, st.cur);
    SoundShape(st);
    if kids == [] {
      e := GapRun(last, rest, st, r);
    } else {
      var k, more := kids[0], RenderKids(kids[1..], RenderGap(last, rest));
      var st1 := GapRun(k.gap, Render(k.doc, more), st, r);
      var e1 := SourceRun(k.doc, more, st1, r);
      var r1 := Build(r, st.cur, Meaning(k.doc));
      LikeShape(e1.rows, r1);
      BuiltIsLast(r, st.cur, Meaning(k.doc));
      ChildSettles(e1);
      LikeIsAlmost(e1.rows, r1, e1.cur);
      e := KidsRun(kids[1..], last, rest, e1, r1);
      FirstBuilt(r, st.cur, Meaning(k.doc), Meanings(kids[1..]));
    }
  }

  // ---- Main results ----

  /** A configuration file. */
  function File(docs: seq<Kid>, last: Gap): string { RenderKids(docs, RenderGap(last, "")) }

  ghost predicate WritableFile(docs: seq<Kid>, last: Gap) { WritableAll(docs, last, 0) }

  lemma FileRun(docs: seq<Kid>, last: Gap)
    requires WritableFile(docs, last)
    ensures Sound(START)
    ensures var o := Parse(File(docs, last), START);
            && o.Parsed? && o.st.cur == 0 && o.st.opens == o.st.closes
            && Like(o.st.rows, BuildAll(ROOT, 0, Meanings(docs)))
  {
    hide Parse, Like, Almost, BuildAll, Meanings, WritableAll, Depth, Pending, Settled, Proper, Sound, RenderKids;
    StartIsSound();
    StartIsReady();
    LikeIsAlmost(START.rows, ROOT, 0);
    var e := KidsRun(docs, last, "", START, ROOT);
    Turns("", e);
    RootIsTop();
  }

  lemma StartIsReady()
    ensures Like(START.rows, ROOT) && Pending(START) && Settled(START)
  {
  }

  lemma RootIsTop()
    ensures forall st :: Sound(st) && st.cur == 0 ==> st.opens == st.closes
  {
  }

  /** The table a file is parsed to. */
  ghost function Table(docs: seq<Kid>, last: Gap): (r: Rows)
    requires WritableFile(docs, last)
    ensures Proper(r)
  {
    StartIsSound();
    Parse(File(docs, last), START).st.rows
  }

  /** Parsing is the inverse of writing: the documents read back from the tree are the ones meant. */
  lemma ParseReadsBack(docs: seq<Kid>, last: Gap)
    requires WritableFile(docs, last)
    ensures TrimAll(Docs(Table(docs, last), 0, 1)) == TrimAll(Meanings(docs))
  {
    hide Parse, Docs, Meanings, BuildAll, TrimAll, WritableFile, File, Like, Normal, Sound, Depth, Before, Proper;
    StartIsSound();
    FileRun(docs, last);
    var b := BuildAll(ROOT, 0, Meanings(docs));
    BuildAllProper(ROOT, 0, Meanings(docs));
    BeforeSelf(b);
    BuildAllDocs(ROOT, 0, Meanings(docs), b);
    DocsSkip(b, 0, |b.up|, |b.up|);
    assert Meanings(docs) + [] == Meanings(docs);
    LikeNormal(Table(docs, last), b);
    DocsTrim(b, 0, 1);
    DocsTrim(Table(docs, last), 0, 1);
  }

  /** Two files parse to the same tree, up to blank interior values, exactly if they mean the same. */
  lemma SameTreeIffSameMeaning(xs: seq<Kid>, last1: Gap, ys: seq<Kid>, last2: Gap)
    requires WritableFile(xs, last1) && WritableFile(ys, last2)
    ensures Normal(Table(xs, last1)) == Normal(Table(ys, last2)) <==> TrimAll(Meanings(xs)) == TrimAll(Meanings(ys))
  {
    hide Parse, Docs, Meanings, BuildAll, TrimAll, Normal, WritableFile, RenderKids, Like;
    var p1, p2 := Table(xs, last1), Table(ys, last2);
    ParseReadsBack(xs, last1);
    ParseReadsBack(ys, last2);
    DocsTrim(p1, 0, 1);
    DocsTrim(p2, 0, 1);
    NormalTable(xs, last1);
    NormalTable(ys, last2);
  }

  lemma NormalTable(docs: seq<Kid>, last: Gap)
    requires WritableFile(docs, last)
    ensures Normal(Table(docs, last)) == Normal(BuildAll(ROOT, 0, TrimAll(Meanings(docs))))
  {
    hide Parse, Meanings, BuildAll, TrimAll, Normal, File, WritableFile, Like, Sound, Depth, Proper, Pending, Settled;
    StartIsSound();
    FileRun(docs, last);
    StartIsReady();
    assert START.rows == ROOT;
    TrimBuildAll(ROOT, ROOT, 0, Meanings(docs));
    LikeNormal(Table(docs, last), BuildAll(ROOT, 0, Meanings(docs)));
    LikeNormal(BuildAll(ROOT, 0, Meanings(docs)), BuildAll(ROOT, 0, TrimAll(Meanings(docs))));
  }

  /** The three notations of one leaf. */
  function Nested(foo: string, bar: string, v: string): Source
  {
    Element(foo, [], "", Full([Kid([], Text(bar, "", v, [], ""))], [], ""))
  }

  function AsAttribute(foo: string, bar: string, v: string): Source
  {
    Element(foo, [Attr(" ", bar, "", "", v, Bare)], "", Empty)
  }

  function AsId(foo: string, bar: string, v: string): Source
  {
    Element(foo, [], "", Full([Kid([], Element(bar, [Attr(" ", "id", "", "", v, Bare)], "", Empty))], [], ""))
  }

  /** They are the three spellings documented, and they mean the same, except that an attribute named id is no child. */
  lemma ThreeNotations(foo: string, bar: string, v: string)
    ensures Render(Nested(foo, bar, v), "") == "<" + foo + "><" + bar + ">" + v + "</" + bar + "></" + foo + ">"
    ensures Render(AsAttribute(foo, bar, v), "") == "<" + foo + " " + bar + "=" + v + "/>"
    ensures Render(AsId(foo, bar, v), "") == "<" + foo + "><" + bar + " id=" + v + "/></" + foo + ">"
    ensures Meaning(Nested(foo, bar, v)) == Meaning(AsId(foo, bar, v)) == Doc(foo, None, [Doc(bar, Some(v), [])])
    ensures Meaning(AsAttribute(foo, bar, v)) == Meaning(Nested(foo, bar, v)) <==> bar != "id"
  {
    hide Render, Meaning;
    var leaf, id := Text(bar, "", v, [], ""), Element(bar, [Attr(" ", "id", "", "", v, Bare)], "", Empty);
    Wrapped(foo, leaf);
    Wrapped(foo, id);
    LeafText(bar, v, "</" + (foo + ("" + (">" + ""))));
    IdText(bar, v, "</" + (foo + ("" + (">" + ""))));
    AttributeText(foo, bar, v);
    assert Doc(bar, Some(v), []) == [Doc(bar, Some(v), [])][0];
  }

  lemma Wrapped(foo: string, s: Source)
    ensures Render(Element(foo, [], "", Full([Kid([], s)], [], "")), "")
         == "<" + foo + ">" + Render(s, "</" + (foo + ("" + (">" + ""))))
    ensures Meaning(Element(foo, [], "", Full([Kid([], s)], [], ""))) == Doc(foo, None, [Meaning(s)])
  {
    WrappedMeaning(foo, s);
    hide Render, Meaning;
    WrappedText(foo, s);
    Bracketed(foo, Render(s, RenderEnd(foo, "", "")));
  }

  lemma WrappedText(foo: string, s: Source)
    ensures Render(Element(foo, [], "", Full([Kid([], s)], [], "")), "")
         == "<" + (foo + ("" + (">" + Render(s, RenderEnd(foo, "", "")))))
  {
    OneKid(s, RenderEnd(foo, "", ""));
    hide RenderKids, RenderEnd;
    assert RenderGap([], RenderEnd(foo, "", "")) == RenderEnd(foo, "", "");
  }

  lemma Bracketed(foo: string, inner: string)
    ensures "<" + (foo + ("" + (">" + inner))) == "<" + foo + ">" + inner
  {
  }

  lemma WrappedMeaning(foo: string, s: Source)
    ensures Meaning(Element(foo, [], "", Full([Kid([], s)], [], ""))) == Doc(foo, None, [Meaning(s)])
  {
    hide Meanings;
    OneKid(s, "");
    assert [] + [Meaning(s)] == [Meaning(s)];
  }

  lemma OneKid(s: Source, rest: string)
    ensures RenderKids([Kid([], s)], rest) == Render(s, rest) && Meanings([Kid([], s)]) == [Meaning(s)]
  {
    assert [Kid([], s)][1..] == [];
    hide Render, Meaning;
  }

  lemma LeafText(bar: string, v: string, rest: string)
    ensures Render(Text(bar, "", v, [], ""), rest) == "<" + bar + ">" + v + "</" + bar + ">" + rest
    ensures Meaning(Text(bar, "", v, [], "")) == Doc(bar, Some(v), [])
  {
  }

  lemma OneAttrText(a: Attr, rest: string)
    ensures RenderAttrs([a], rest) == RenderAttr(a, rest)
    ensures IdValue([a]) == (if a.key == "id" then Some(a.value) else None)
    ensures AttrDocs([a]) == if a.key == "id" then [] else [Doc(a.key, Some(a.value), [])]
  {
    assert [a][1..] == [];
  }

  lemma IdText(bar: string, v: string, rest: string)
    ensures var s := Element(bar, [Attr(" ", "id", "", "", v, Bare)], "", Empty);
            Render(s, rest) == "<" + bar + " id=" + v + "/>" + rest && Meaning(s) == Doc(bar, Some(v), [])
  {
    hide RenderAttrs, IdValue, AttrDocs;
    OneAttrText(Attr(" ", "id", "", "", v, Bare), "" + ("/>" + rest));
  }

  lemma AttributeText(foo: string, bar: string, v: string)
    ensures Render(AsAttribute(foo, bar, v), "") == "<" + foo + " " + bar + "=" + v + "/>"
    ensures Meaning(AsAttribute(foo, bar, v))
         == if bar == "id" then Doc(foo, Some(v), []) else Doc(foo, None, [Doc(bar, Some(v), [])])
  {
    hide RenderAttrs, IdValue, AttrDocs;
    OneAttrText(Attr(" ", bar, "", "", v, Bare), "" + ("/>" + ""));
  }

  /** Replacing a document in a list by one that means the same keeps the meaning. */
  lemma MeaningsAt(before: seq<Kid>, x: Kid, y: Kid, after: seq<Kid>)
    requires Meaning(x.doc) == Meaning(y.doc)
    ensures Meanings(before + [x] + after) == Meanings(before + [y] + after)
  {
    hide Meaning;
    MeaningsAppend(before + [x], after);
    MeaningsAppend(before + [y], after);
    MeaningsAppend(before, [x]);
    MeaningsAppend(before, [y]);
    assert Meanings([x]) == Meanings([y]);
  }

  lemma {:induction false} MeaningsAppend(xs: seq<Kid>, ys: seq<Kid>)
    ensures Meanings(xs + ys) == Meanings(xs) + Meanings(ys)
    decreases |xs|
  {
    hide Meaning;
    if xs == [] {
      assert xs + ys == ys;
    } else {
      assert (xs + ys)[1..] == xs[1..] + ys;
      MeaningsAppend(xs[1..], ys);
    }
  }

  /** A path of child positions leads somewhere in a document. */
  predicate Leads(s: Source, path: seq<nat>)
    decreases |path|
  {
    path == []
    || (s.Element? && s.body.Full? && path[0] < |s.body.kids| && Leads(s.body.kids[path[0]].doc, path[1..]))
  }

  function Inner(s: Source, path: seq<nat>): Source
    requires Leads(s, path)
    decreases |path|
  {
    if path == [] then s else Inner(s.body.kids[path[0]].doc, path[1..])
  }

  function Replaced(s: Source, path: seq<nat>, y: Source): Source
    requires Leads(s, path)
    decreases |path|
  {
    if path == [] then y
    else
      var i := path[0];
      var k := s.body.kids[i];
      s.(body := s.body.(kids := s.body.kids[i := Kid(k.gap, Replaced(k.doc, path[1..], y))]))
  }

  /** Exchanging spellings at any depth of a document keeps its meaning. */
  lemma {:induction false} MeaningAnywhere(s: Source, path: seq<nat>, y: Source)
    requires Leads(s, path) && Meaning(Inner(s, path)) == Meaning(y)
    ensures Meaning(Replaced(s, path, y)) == Meaning(s)
    decreases |path|
  {
    if path == [] {
    } else {
      hide Meaning, Meanings;
      var i, kids := path[0], s.body.kids;
      var x := kids[i];
      MeaningAnywhere(x.doc, path[1..], y);
      var r := Kid(x.gap, Replaced(x.doc, path[1..], y));
      MeaningsAt(kids[..i], x, r, kids[i + 1..]);
      Spliced(kids, i, r);
      KidsMean(s, kids[i := r]);
    }
  }

  lemma Spliced<T>(s: seq<T>, i: nat, x: T)
    requires i < |s|
    ensures s == s[..i] + [s[i]] + s[i + 1..] && s[i := x] == s[..i] + [x] + s[i + 1..]
  {
  }

  lemma KidsMean(s: Source, kids: seq<Kid>)
    requires s.Element? && s.body.Full? && Meanings(kids) == Meanings(s.body.kids)
    ensures Meaning(s.(body := s.body.(kids := kids))) == Meaning(s)
  {
    hide Meanings, AttrDocs, IdValue;
  }

  /**
   * A document on lines of its own, with any comments: what stands around it is written out in full
   * and means nothing.
   */
  lemma LayoutIsInvisible(foo: string, gap: Gap, s: Source, last: Gap, rest: string)
    ensures Render(Element(foo, [], "", Full([Kid(gap, s)], last, "")), rest)
         == "<" + (foo + ("" + (">" + RenderGap(gap, Render(s, RenderGap(last, RenderEnd(foo, "", rest)))))))
    ensures Meaning(Element(foo, [], "", Full([Kid(gap, s)], last, "")))
         == Meaning(Element(foo, [], "", Full([Kid([], s)], [], "")))
    ensures Writable(Element(foo, [], "", Full([Kid(gap, s)], last, ""))) <==>
              && GoodKey(foo) && GoodGap(gap) && WhiteLength(gap) <= LIMIT && Writable(s)
              && GoodGap(last) && |Residue(s)| + WhiteLength(last) <= LIMIT
  {
    hide GoodKey, GoodGap, RenderEnd;
    var kids := [Kid(gap, s)];
    assert kids[1..] == [] && [Kid([], s)][1..] == [];
    assert Spaces("") && GoodAttrs([], false);
    assert RenderKids([], RenderGap(last, RenderEnd(foo, "", rest))) == RenderGap(last, RenderEnd(foo, "", rest));
    assert WritableAll([], last, |Residue(s)|) <==> GoodGap(last) && |Residue(s)| + WhiteLength(last) <= LIMIT;
  }
}
