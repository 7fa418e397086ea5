/**
 * The configuration syntax character by character: which characters make a text blank, end a name
 * or set off an attribute, and how long a token may be.
 */
module Characters {
  import opened Wrappers
  import opened Strings
  import opened Rows
  import opened Markup
  import opened Documents
  import opened Spelling
  import opened Notation

  // ---- Blank text ----

  lemma BlankIs(w: string)
    ensures Blank(w) <==> forall c :: c in w ==> c in {' ', '\t', '\n', '\U{0C}'}
  {
    forall c ensures IsBlank(c) <==> c in {' ', '\t', '\n', '\U{0C}'} {
    }
    forall i | 0 <= i < |w| ensures w[i] in w {
    }
  }

  lemma SpacesAre(w: string)
    ensures Spaces(w) <==> forall c :: c in w ==> c in {' ', '\t', '\n', '\r', '\U{0B}', '\U{0C}'}
  {
    forall c ensures IsSpace(c) <==> c in {' ', '\t', '\n', '\r', '\U{0B}', '\U{0C}'} {
    }
    forall i | 0 <= i < |w| ensures w[i] in w {
    }
  }

  lemma KeyIs(key: string)
    ensures GoodKey(key)
            <==>
            && 0 < |key| <= 1022 && key != "resin:include" && key[0] !in {'!', '?', '/'}
            && forall c :: c in key ==> c !in {' ', '\t', '\n', '\r', '\U{0B}', '\U{0C}', '/', '>'}
  {
    forall c ensures In(c, TagChar) <==> c !in {' ', '\t', '\n', '\r', '\U{0B}', '\U{0C}', '/', '>'} {
    }
    forall i | 0 <= i < |key| ensures key[i] in key {
    }
  }

  lemma NameIs(name: string)
    ensures GoodName(name)
            <==>
            && 0 < |name| <= 1022 && name != "resin:include"
            && forall c :: c in name ==> c !in {' ', '\t', '\n', '\r', '\U{0B}', '\U{0C}', '/', '>', '='}
  {
    forall c ensures In(c, NameChar) <==> c !in {' ', '\t', '\n', '\r', '\U{0B}', '\U{0C}', '/', '>', '='} {
    }
    forall i | 0 <= i < |name| ensures name[i] in name {
    }
  }

  lemma BareIs(v: string)
    ensures GoodValue(v, Bare)
            <==>
            && 0 < |v| <= 1022 && v[0] !in {'\'', '\"'}
            && forall c :: c in v ==> c !in {' ', '\t', '\n', '\r', '\U{0B}', '\U{0C}', '/', '>'}
  {
    forall c ensures In(c, TagChar) <==> c !in {' ', '\t', '\n', '\r', '\U{0B}', '\U{0C}', '/', '>'} {
    }
    forall i | 0 <= i < |v| ensures v[i] in v {
    }
  }

  // ---- What a file is read as ----

  /** From this state on, a text is read to its end, as this tree; the root's own value does not matter. */
  predicate ReadFrom(text: string, st: State, r: Rows)
    requires Sound(st)
  {
    hide Parse, Sound;
    var o := Parse(text, st);
    && o.Parsed? && o.st.rows.up == r.up && o.st.rows.keys == r.keys
    && |o.st.rows.values| == |r.values| > 0 && o.st.rows.values[1..] == r.values[1..]
  }

  /** A whole file is read as this tree. */
  predicate ReadAs(text: string, r: Rows)
  {
    hide ReadFrom, Sound;
    StartIsSound();
    ReadFrom(text, START, r)
  }

  lemma ReadsAs(text: string, st: State, e: State, r: Rows)
    requires Sound(st) && Sound(e) && Parse(text, st) == Parse("", e)
    requires e.rows.up == r.up && e.rows.keys == r.keys
    requires |e.rows.values| == |r.values| > 0 && e.rows.values[1..] == r.values[1..]
    ensures ReadFrom(text, st, r)
  {
    hide Parse, Sound;
    Turns("", e);
  }

  lemma StartsFresh()
    ensures Sound(START) && Almost(START.rows, ROOT, 0) && Pending(START)
    ensures START.cur == 0 && START.spaceOnly && START.rows == ROOT && START.token == ""
  {
    hide Almost, Pending, Like, Sound;
    StartIsSound();
    StartIsReady();
    LikeIsAlmost(START.rows, ROOT, 0);
  }

  /** A file is read no further, for this reason. */
  predicate StopsFrom(text: string, st: State, why: Halt)
    requires Sound(st)
  {
    hide Parse, Sound;
    var o := Parse(text, st);
    o.Halted? && o.why == why
  }

  predicate Stops(text: string, why: Halt)
  {
    hide StopsFrom, Sound;
    StartIsSound();
    StopsFrom(text, START, why)
  }

  // ---- Text ----

  /**
   * A leaf around text: it has no value exactly if the text is of blanks, tabs, newlines and form
   * feeds, and else the text is its value.
   */
  lemma LeafOfText(key: string, tail: string, w: string, endTail: string)
    requires 0 < |key| <= 1022 && key != "resin:include" && key[0] !in {'!', '?', '/'}
    requires forall c :: c in key ==> c !in {' ', '\t', '\n', '\r', '\U{0B}', '\U{0C}', '/', '>'}
    requires forall c :: c in tail ==> c in {' ', '\t', '\n', '\r', '\U{0B}', '\U{0C}'}
    requires forall c :: c in endTail ==> c in {' ', '\t', '\n', '\r', '\U{0B}', '\U{0C}'}
    requires |w| <= 1022 && '<' !in w
    ensures var blank := forall c :: c in w ==> c in {' ', '\t', '\n', '\U{0C}'};
            ReadAs("<" + key + tail + ">" + w + "</" + key + endTail + ">",
                   Rows([-1, 0], ["", key], [None, if blank then None else Some(w)]))
  {
    hide GoodKey, Spaces, Blank, ReadFrom, Almost, Pending, Sound;
    StartsFresh();
    KeyIs(key);
    BlankIs(w);
    SpacesAre(tail);
    SpacesAre(endTail);
    LeafParsed(key, tail, w, endTail, START);
  }

  lemma {:induction false} LeafParsed(key: string, tail: string, w: string, endTail: string, st: State)
    requires GoodKey(key) && Spaces(tail) && Spaces(endTail) && |w| <= LIMIT && '<' !in w
    requires Sound(st) && Almost(st.rows, ROOT, 0) && Pending(st) && st.cur == 0 && st.spaceOnly
    ensures ReadFrom("<" + key + tail + ">" + w + "</" + key + endTail + ">", st,
                     Rows([-1, 0], ["", key], [None, if Blank(w) then None else Some(w)]))
  {
    assert forall i :: 0 <= i < |w| ==> w[i] != '<';
    var v := if Blank(w) then None else Some(w);
    hide Parse, Like, Depth, Sound, Pending, Settled, Almost, GoodKey, Spaces, Blank, Render, Build, ReadFrom;
    var e := TextSourceRun(key, tail, w, endTail, "", st, ROOT);
    LeafOnly(key, v);
    LeafLike(e.rows, Build(ROOT, 0, Doc(key, v, [])), key, v);
    LeafSpelled(key, tail, w, endTail);
    ReadsAs(Render(Text(key, tail, w, [], endTail), ""), st, e, Rows([-1, 0], ["", key], [None, v]));
  }

  lemma LeafSpelled(key: string, tail: string, w: string, endTail: string)
    ensures Render(Text(key, tail, w, [], endTail), "")
         == "<" + key + tail + ">" + w + "</" + key + endTail + ">"
  {
    var end := "</" + (key + (endTail + (">" + "")));
    assert end == "</" + key + endTail + ">";
    assert RenderGap([], end) == end;
    assert RenderTag(key, [], tail, true, w + end) == key + (tail + (">" + (w + end)));
  }

  lemma LeafOnly(key: string, v: Option<string>)
    ensures Build(ROOT, 0, Doc(key, v, [])) == Rows([-1, 0], ["", key], [None, v])
  {
  }

  lemma LeafLike(a: Rows, b: Rows, key: string, v: Option<string>)
    requires Like(a, b) && b == Rows([-1, 0], ["", key], [None, v])
    ensures a.up == b.up && a.keys == b.keys && |a.values| == 2 && a.values[1..] == b.values[1..]
  {
    assert !HasChild([-1, 0], 1);
  }

  /** Text is read up to 1022 characters, whatever they are. */
  lemma LongText(w: string, rest: string)
    requires |w| > 1022 && '<' !in w
    ensures Stops(w + rest, Overrun)
  {
    hide StopsFrom, Almost, Pending, Sound;
    StartsFresh();
    LongTextFrom(w, rest, START);
  }

  lemma {:induction false} LongTextFrom(w: string, rest: string, st: State)
    requires |w| > 1022 && '<' !in w && Sound(st) && st.token == ""
    ensures StopsFrom(w + rest, st, Overrun)
  {
    hide Parse, Depth, Blank, BracketTurn;
    var more := w[1022..] + rest;
    assert w + rest == w[..1022] + more;
    TextRun(w[..1022], more, st);
    assert "" + w[..1022] == w[..1022];
    var e := st.(token := st.token + w[..1022], spaceOnly := st.spaceOnly && Blank(w[..1022]));
    assert more[0] == w[1022] != '<';
    Turns(more, e);
  }

  // ---- Tags ----

  /** A tag closed at once, with its attributes. */
  lemma {:induction false} TagParsed(key: string, attrs: seq<Attr>, tail: string, st: State)
    requires GoodKey(key) && GoodAttrs(attrs, false) && Spaces(tail)
    requires Sound(st) && st.rows == ROOT && st.cur == 0 && st.spaceOnly
    ensures ReadFrom("<" + RenderTag(key, attrs, tail, false, ""), st, Build(ROOT, 0, TagDoc(key, attrs)))
  {
    hide Parse, ParseTag, Build, TagDoc, Depth, AtInclude, RenderAttrs, Proper, GoodKey, GoodAttrs, Spaces,
         EndTagTurn, AfterBang, AfterFirst, HasChild, ReadFrom;
    SoundShape(st);
    var u := st.(token := "");
    assert TakeText(st) == u;
    var body := RenderTag(key, attrs, tail, false, "");
    TagRun(key, attrs, tail, false, "", ROOT, 0);
    NotAtInclude(key, attrs, false, ROOT, 0);
    var b := Build(ROOT, 0, TagDoc(key, attrs));
    var e := u.(rows := b);
    KeyRun(key, RenderAttrs(attrs, tail + ("/>" + "")));
    assert ("<" + body)[1..] == body && body != "";
    Turns("<" + body, st);
    assert StartTagTurn(body, u) == Go("", e);
    assert NextTurn("<" + body, st) == Go("", e);
    SoundShape(e);
    ReadsAs("<" + body, st, e, b);
  }

  /** Attributes are set off by any white space, of any of the six characters, and a bare value ends there. */
  lemma BareAttributes(key: string, w1: string, n1: string, v1: string, w2: string, n2: string, v2: string,
                       tail: string)
    requires 0 < |key| <= 1022 && key != "resin:include" && key[0] !in {'!', '?', '/'}
    requires forall c :: c in key ==> c !in {' ', '\t', '\n', '\r', '\U{0B}', '\U{0C}', '/', '>'}
    requires w1 != "" && forall c :: c in w1 ==> c in {' ', '\t', '\n', '\r', '\U{0B}', '\U{0C}'}
    requires w2 != "" && forall c :: c in w2 ==> c in {' ', '\t', '\n', '\r', '\U{0B}', '\U{0C}'}
    requires forall c :: c in tail ==> c in {' ', '\t', '\n', '\r', '\U{0B}', '\U{0C}'}
    requires 0 < |n1| <= 1022 && n1 !in {"resin:include", "id"} && 0 < |n2| <= 1022 && n2 !in {"resin:include", "id"}
    requires forall c :: c in n1 + n2 ==> c !in {' ', '\t', '\n', '\r', '\U{0B}', '\U{0C}', '/', '>', '='}
    requires 0 < |v1| <= 1022 && v1[0] !in {'\'', '\"'} && 0 < |v2| <= 1022 && v2[0] !in {'\'', '\"'}
    requires forall c :: c in v1 + v2 ==> c !in {' ', '\t', '\n', '\r', '\U{0B}', '\U{0C}', '/', '>'}
    ensures ReadAs("<" + key + w1 + n1 + "=" + v1 + w2 + n2 + "=" + v2 + tail + "/>",
                   Rows([-1, 0, 1, 1], ["", key, n1, n2], [None, None, Some(v1), Some(v2)]))
  {
    hide GoodKey, GoodName, GoodValue, Spaces, ReadFrom, Almost, Pending, Sound;
    StartsFresh();
    KeyIs(key);
    SpacesAre(w1);
    SpacesAre(w2);
    SpacesAre(tail);
    SpacesAre("");
    InBoth(n1, n2);
    NameIs(n1);
    NameIs(n2);
    InBoth(v1, v2);
    BareIs(v1);
    BareIs(v2);
    TwoParsed(key, w1, n1, v1, w2, n2, v2, tail, START);
  }

  lemma InBoth(s: string, t: string)
    ensures forall c :: c in s + t <==> c in s || c in t
  {
  }

  lemma {:induction false} TwoParsed(key: string, w1: string, n1: string, v1: string, w2: string, n2: string,
                                     v2: string, tail: string, st: State)
    requires GoodKey(key) && Spaces(w1) && w1 != "" && Spaces(w2) && w2 != "" && Spaces(tail) && Spaces("")
    requires GoodName(n1) && GoodName(n2) && n1 != "id" && n2 != "id" && GoodValue(v1, Bare) && GoodValue(v2, Bare)
    requires Sound(st) && st.rows == ROOT && st.cur == 0 && st.spaceOnly
    ensures ReadFrom("<" + key + w1 + n1 + "=" + v1 + w2 + n2 + "=" + v2 + tail + "/>", st,
                     Rows([-1, 0, 1, 1], ["", key, n1, n2], [None, None, Some(v1), Some(v2)]))
  {
    hide GoodKey, GoodName, GoodValue, Spaces, ReadFrom, Sound, Build, TagDoc, RenderTag;
    var attrs := [Attr(w1, n1, "", "", v1, Bare), Attr(w2, n2, "", "", v2, Bare)];
    TwoGood(attrs[0], attrs[1]);
    TagParsed(key, attrs, tail, st);
    TwoSpelled(key, w1, n1, v1, w2, n2, v2, tail);
    TwoBuilt(key, attrs[0], attrs[1]);
  }

  lemma TwoGood(a: Attr, b: Attr)
    requires GoodAttr(a) && GoodAttr(b) && a.lead != "" && b.lead != ""
    ensures GoodAttrs([a, b], false)
  {
    hide GoodAttr;
    assert [a, b][1..] == [b] && [b][1..] == [];
    assert GoodAttrs([b], !a.quote.Bare?);
  }

  lemma TwoSpelled(key: string, w1: string, n1: string, v1: string, w2: string, n2: string, v2: string, tail: string)
    ensures var attrs := [Attr(w1, n1, "", "", v1, Bare), Attr(w2, n2, "", "", v2, Bare)];
            "<" + RenderTag(key, attrs, tail, false, "")
            == "<" + key + w1 + n1 + "=" + v1 + w2 + n2 + "=" + v2 + tail + "/>"
  {
    var a, b := Attr(w1, n1, "", "", v1, Bare), Attr(w2, n2, "", "", v2, Bare);
    var end := tail + ("/>" + "");
    assert [a, b][1..] == [b] && [b][1..] == [];
    assert RenderAttrs([b], end) == RenderAttr(b, end);
    assert RenderAttrs([a, b], end) == RenderAttr(a, RenderAttr(b, end));
    assert RenderTag(key, [a, b], tail, false, "") == key + RenderAttr(a, RenderAttr(b, end));
    hide RenderTag, RenderAttrs, RenderAttr;
    BareSpelled(b, end);
    BareSpelled(a, RenderAttr(b, end));
    assert end == tail + "/>";
  }

  lemma BareSpelled(a: Attr, end: string)
    requires a.quote.Bare? && a.before == "" && a.after == ""
    ensures RenderAttr(a, end) == a.lead + (a.key + ("=" + (a.value + end)))
  {
    assert "" + (a.value + end) == a.value + end;
    assert "" + ("=" + (a.value + end)) == "=" + (a.value + end);
  }

  lemma NothingBuilt(r: Rows, p: nat)
    requires |r.up| == |r.values|
    ensures BuildAll(r, p, []) == r
  {
  }

  lemma TwoBuilt(key: string, a: Attr, b: Attr)
    requires a.key != "id" && b.key != "id"
    ensures Build(ROOT, 0, TagDoc(key, [a, b]))
         == Rows([-1, 0, 1, 1], ["", key, a.key, b.key], [None, None, Some(a.value), Some(b.value)])
  {
    var x, y := Doc(a.key, Some(a.value), []), Doc(b.key, Some(b.value), []);
    assert [a, b][1..] == [b] && [b][1..] == [];
    assert AttrDocs([]) == [] && IdValue([]) == None;
    assert AttrDocs([b]) == [y] + AttrDocs([]) && IdValue([b]) == None;
    assert AttrDocs([a, b]) == [x] + AttrDocs([b]) && IdValue([a, b]) == None;
    assert TagDoc(key, [a, b]) == Doc(key, None, [x, y]);
    var r1 := Rows([-1, 0], ["", key], [None, None]);
    var r2 := Rows([-1, 0, 1], ["", key, a.key], [None, None, Some(a.value)]);
    var r3 := Rows([-1, 0, 1, 1], ["", key, a.key, b.key], [None, None, Some(a.value), Some(b.value)]);
    assert Added(ROOT, 0, key) == r1;
    assert Build(ROOT, 0, Doc(key, None, [x, y])) == BuildAll(r1, 1, [x, y]);
    hide TagDoc, AttrDocs, IdValue, Build, BuildAll;
    LeafBuild(r1, 1, a.key, a.value);
    LeafBuild(r2, 1, b.key, b.value);
    assert Valued(Added(r1, 1, a.key), 2, a.value) == r2;
    assert Valued(Added(r2, 1, b.key), 3, b.value) == r3;
    FirstBuilt(r1, 1, x, [y]);
    FirstBuilt(r2, 1, y, []);
    NothingBuilt(r3, 1);
    assert [x] + [y] == [x, y] && [y] + [] == [y];
  }

  /**
   * A quoted value ends at the same quote, and only there; white space may stand about the equals
   * sign. An attribute named id is the value of the node, any other a node below it.
   */
  lemma QuotedAttribute(key: string, lead: string, name: string, before: string, after: string, q: char, v: string,
                        tail: string)
    requires 0 < |key| <= 1022 && key != "resin:include" && key[0] !in {'!', '?', '/'}
    requires forall c :: c in key ==> c !in {' ', '\t', '\n', '\r', '\U{0B}', '\U{0C}', '/', '>'}
    requires lead != "" && forall c :: c in lead + tail ==> c in {' ', '\t', '\n', '\r', '\U{0B}', '\U{0C}'}
    requires forall c :: c in before + after ==> c in {' ', '\t', '\n', '\r', '\U{0B}', '\U{0C}'}
    requires 0 < |name| <= 1022 && name != "resin:include"
    requires forall c :: c in name ==> c !in {' ', '\t', '\n', '\r', '\U{0B}', '\U{0C}', '/', '>', '='}
    requires (q == '\'' || q == '\"') && |v| <= 1022 && q !in v
    ensures ReadAs("<" + key + lead + name + before + "=" + after + [q] + v + [q] + tail + "/>",
                   if name == "id" then Rows([-1, 0], ["", key], [None, Some(v)])
                   else Rows([-1, 0, 1], ["", key, name], [None, None, Some(v)]))
  {
    hide GoodKey, GoodName, Spaces, ReadFrom, Almost, Pending, Sound;
    StartsFresh();
    KeyIs(key);
    InBoth(lead, tail);
    SpacesAre(lead);
    SpacesAre(tail);
    InBoth(before, after);
    SpacesAre(before);
    SpacesAre(after);
    NameIs(name);
    QuotedParsed(key, Attr(lead, name, before, after, v, if q == '\'' then Single else Double), tail, START);
  }

  lemma {:induction false} QuotedParsed(key: string, a: Attr, tail: string, st: State)
    requires GoodKey(key) && Spaces(a.lead) && a.lead != "" && Spaces(a.before) && Spaces(a.after) && Spaces(tail)
    requires GoodName(a.key) && |a.value| <= LIMIT && !a.quote.Bare?
    requires (if a.quote.Single? then '\'' else '\"') !in a.value
    requires Sound(st) && st.rows == ROOT && st.cur == 0 && st.spaceOnly
    ensures var q := if a.quote.Single? then "'" else "\"";
            ReadFrom("<" + key + a.lead + a.key + a.before + "=" + a.after + q + a.value + q + tail + "/>", st,
                     if a.key == "id" then Rows([-1, 0], ["", key], [None, Some(a.value)])
                     else Rows([-1, 0, 1], ["", key, a.key], [None, None, Some(a.value)]))
  {
    assert GoodValue(a.value, a.quote);
    hide GoodKey, GoodName, GoodValue, Spaces, ReadFrom, Sound, Build, TagDoc, RenderTag;
    assert [a][1..] == [] && GoodAttrs([], true);
    assert GoodAttrs([a], false);
    TagParsed(key, [a], tail, st);
    OneSpelled(key, a, tail);
    OneBuilt(key, a);
  }

  lemma AttrSpelled(a: Attr, q: string, end: string)
    requires q == (if a.quote.Single? then "'" else "\"") && !a.quote.Bare?
    ensures RenderAttr(a, end) == a.lead + (a.key + (a.before + ("=" + (a.after + (q + (a.value + (q + end)))))))
  {
  }

  lemma OneSpelled(key: string, a: Attr, tail: string)
    requires !a.quote.Bare?
    ensures var q := if a.quote.Single? then "'" else "\"";
            "<" + RenderTag(key, [a], tail, false, "")
            == "<" + key + a.lead + a.key + a.before + "=" + a.after + q + a.value + q + tail + "/>"
  {
    var q := if a.quote.Single? then "'" else "\"";
    var end := tail + ("/>" + "");
    hide RenderAttr;
    assert [a][1..] == [] && RenderAttrs([a], end) == RenderAttr(a, end);
    assert RenderTag(key, [a], tail, false, "") == key + RenderAttr(a, end);
    hide RenderTag, RenderAttrs;
    AttrSpelled(a, q, end);
    assert end == tail + "/>";
  }

  lemma OneBuilt(key: string, a: Attr)
    ensures Build(ROOT, 0, TagDoc(key, [a]))
            == if a.key == "id" then Rows([-1, 0], ["", key], [None, Some(a.value)])
               else Rows([-1, 0, 1], ["", key, a.key], [None, None, Some(a.value)])
  {
    OneDoc(key, a);
    hide TagDoc;
    if a.key == "id" {
      LeafBuild(ROOT, 0, key, a.value);
    } else {
      var x := Doc(a.key, Some(a.value), []);
      var r1 := Rows([-1, 0], ["", key], [None, None]);
      assert Added(ROOT, 0, key) == r1;
      assert Build(ROOT, 0, Doc(key, None, [x])) == BuildAll(r1, 1, [x]);
      hide Build, BuildAll;
      LeafBuild(r1, 1, a.key, a.value);
      FirstBuilt(r1, 1, x, []);
      assert [x] + [] == [x];
      NothingBuilt(Build(r1, 1, x), 1);
    }
  }

  lemma OneDoc(key: string, a: Attr)
    ensures TagDoc(key, [a])
         == if a.key == "id" then Doc(key, Some(a.value), []) else Doc(key, None, [Doc(a.key, Some(a.value), [])])
  {
    assert [a][1..] == [] && AttrDocs([]) == [] && IdValue([]) == None;
  }

  /** A tag's name may have 1022 characters, and no more. */
  lemma LongName(key: string, rest: string)
    requires |key| > 1022 && key[0] !in {'!', '?', '/'} && (rest == "" || rest[0] in {' ', '/', '>'})
    requires forall c :: c in key ==> c !in {' ', '\t', '\n', '\r', '\U{0B}', '\U{0C}', '/', '>'}
    ensures Stops("<" + (key + rest), Overrun)
  {
    hide StopsFrom, Almost, Pending, Sound, Token, ParseAttributes;
    LongKey(key, rest);
    StartsFresh();
    BadTagStops(key + rest, START, Overrun);
  }

  lemma LongKey(key: string, rest: string)
    requires |key| > 1022 && (rest == "" || rest[0] in {' ', '/', '>'})
    requires forall c :: c in key ==> c !in {' ', '\t', '\n', '\r', '\U{0B}', '\U{0C}', '/', '>'}
    ensures Proper(ROOT) && ParseTag(key + rest, ROOT, 0) == BadTag(Overrun, ROOT)
  {
    forall i | 0 <= i < |key| ensures In(key[i], TagChar) {
      assert key[i] in key;
    }
    TokenOf(key, rest, TagChar);
  }

  lemma {:induction false} BadTagStops(s: string, st: State, why: Halt)
    requires Sound(st) && st.rows == ROOT && st.cur == 0 && st.spaceOnly && s != "" && s[0] !in {'!', '?', '/'}
    requires Proper(ROOT) && ParseTag(s, ROOT, 0).BadTag? && ParseTag(s, ROOT, 0).why == why
    ensures StopsFrom("<" + s, st, why)
  {
    hide Parse, ParseTag, Depth, AtInclude, EndTagTurn, AfterBang, AfterFirst, Proper;
    SoundShape(st);
    assert ("<" + s)[1..] == s;
    Turns("<" + s, st);
  }

  /** An include directive is where the model stops, and no other tag is. */
  lemma IncludeStops(rest: string)
    ensures Stops("<resin:include/>" + rest, Include)
  {
    hide StopsFrom, Almost, Pending, Sound;
    StartsFresh();
    IncludeFrom(rest, START);
    assert "<" + ("resin:include" + ("/>" + rest)) == "<resin:include/>" + rest;
  }

  lemma IncludeTag(rest: string)
    ensures Proper(ROOT)
    ensures var b := Rows([-1, 0], ["", "resin:include"], [None, None]);
            ParseTag("resin:include" + ("/>" + rest), ROOT, 0) == Closed(rest, b, "") && Proper(b) && AtInclude(b, 0)
  {
    var key, body := "resin:include", "/>" + rest;
    var b := Added(ROOT, 0, key);
    assert b == Rows([-1, 0], ["", key], [None, None]) && AtInclude(b, 0);
    NamedRows(ROOT, 0, key);
    assert forall i :: 0 <= i < |key| ==> In(key[i], TagChar);
    TokenOf(key, body, TagChar);
    EndOfAttributes(body, b, 1);
    NoRun(body, Space);
    hide AtInclude, ParseTag, ParseAttributes, Token;
    TagEnd(key, body, false, rest, ROOT, 0, b);
  }

  lemma {:induction false} IncludeFrom(rest: string, st: State)
    requires Sound(st) && st.rows == ROOT && st.cur == 0 && st.spaceOnly
    ensures StopsFrom("<" + ("resin:include" + ("/>" + rest)), st, Include)
  {
    hide Parse, ParseTag, Depth, AtInclude, EndTagTurn, AfterBang, AfterFirst, Proper;
    var tag := "resin:include" + ("/>" + rest);
    IncludeTag(rest);
    SoundShape(st);
    assert ("<" + tag)[1..] == tag;
    Turns("<" + tag, st);
  }

  // ---- Declarations ----

  lemma {:induction false} NoQuote(s: string, i: nat, j: nat)
    requires i <= j <= |s| && OpenQuote(s, i).None? && forall k :: i <= k < j ==> s[k] !in {'\'', '\"'}
    ensures OpenQuote(s, j).None?
    decreases j
  {
    if i < j {
      NoQuote(s, i, j - 1);
    }
  }

  /** A declaration goes on through any brackets in quotes, and ends at the first one outside. */
  lemma DeclarationOf(a: string, q: char, v: string, b: string, rest: string)
    requires forall c :: c in a + b ==> c !in {'\'', '\"', '>'}
    requires (q == '\'' || q == '\"') && q !in v
    ensures GoodPiece(Declaration(a + [q] + v + [q] + b)) && GoodPiece(Declaration(a))
    ensures AfterDoctype(a + [q] + v + [q] + b + ">" + rest) == AfterDoctype(a + ">" + rest) == rest
  {
    hide AfterDoctype;
    InBoth(a, b);
    PlainEnd(a);
    DeclarationEnded(a, rest);
    assert a + ">" + rest == a + (">" + rest);
    var d := a + [q] + v + [q] + b;
    QuotedEnd(a, q, v, b);
    DeclarationEnded(d, rest);
    assert d + ">" + rest == d + (">" + rest);
  }

  lemma PlainEnd(a: string)
    requires forall c :: c in a ==> c !in {'\'', '\"', '>'}
    ensures FirstEnd(a + ">", |a|)
  {
    var s := a + ">";
    forall k | 0 <= k < |a| ensures s[k] !in {'\'', '\"', '>'} {
      assert s[k] == a[k] && a[k] in a;
    }
    NoQuote(s, 0, |a|);
  }

  lemma QuotedEnd(a: string, q: char, v: string, b: string)
    requires forall c :: c in a || c in b ==> c !in {'\'', '\"', '>'}
    requires (q == '\'' || q == '\"') && q !in v
    ensures var d := a + [q] + v + [q] + b; FirstEnd(d + ">", |d|)
  {
    var d := a + [q] + v + [q] + b;
    var s, i, e := d + ">", |a|, |a| + 1 + |v|;
    forall k | 0 <= k < i ensures s[k] !in {'\'', '\"', '>'} {
      assert s[k] == a[k] && a[k] in a;
    }
    forall k | i < k < e ensures s[k] != q {
      assert s[k] == v[k - i - 1] && v[k - i - 1] in v;
    }
    forall k | e < k < |d| ensures s[k] !in {'\'', '\"', '>'} {
      assert s[k] == b[k - e - 1] && b[k - e - 1] in b;
    }
    assert s[i] == q && s[e] == q && s[|d|] == '>';
    hide OpenQuote;
    Unopened(s);
    NoQuote(s, 0, i);
    forall j: nat | i < j <= e ensures OpenQuote(s, j) == Some(q) {
      Quoted(s, i, q, j);
    }
    ClosedAfter(s, e, q);
    forall j: nat | e < j <= |d| ensures OpenQuote(s, j).None? {
      NoQuote(s, e + 1, j);
    }
  }

  lemma Unopened(s: string)
    ensures OpenQuote(s, 0).None?
  {
  }

  lemma ClosedAfter(s: string, e: nat, q: char)
    requires e < |s| && s[e] == q && OpenQuote(s, e) == Some(q)
    ensures OpenQuote(s, e + 1).None?
  {
  }
}
