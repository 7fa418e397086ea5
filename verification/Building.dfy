/** The parse routines that build the tree, and `cse_parse` itself. */
module Building {
  import opened Wrappers
  import opened Rows
  import opened Markup
  import opened Registry
  import opened Parser

  /** The three kinds of answer `parse_attribute` gives: 0, a failure, or the next character. */
  datatype Code = Zero | Fail(why: Halt) | Next(ch: char)

  /** New nodes are appended; the old ones stay. */
  twostate predicate Grown(t: Tree)
    reads t, t.order
  {
    && t.Valid() && old(t.order) <= t.order
    && forall i :: |old(t.order)| <= i < |t.order| ==> fresh(t.order[i])
  }

  /** The reader, the tree and the code are as an attribute's parse says. */
  ghost predicate AttributeRead(rs: Reader, t: Tree, code: Code, a: Attribute)
    reads rs, t
    requires rs.Valid()
  {
    && t.rows == a.rows
    && match a
       case More(rest, _) =>
         code.Next? && rs.Ahead(Some(code.ch)) == rest && (rs.Real(Some(code.ch)) || code.ch == ' ')
       case Done(rest, _, token) => code == Zero && rs.input[rs.pos..] == rest && rs.token == token
       case BadAttribute(why, _) => code == Fail(why)
  }

  /** The value of an attribute, from the first character after the equals sign and its spaces. */
  method ReadValue(rs: Reader, t: Tree, attr: Node, ghost k: nat, ch: Option<char>) returns (code: Code)
    requires rs.Valid() && rs.Real(ch) && t.Valid() && k < |t.order| && t.order[k] == attr
    modifies rs, t`rows, attr`value
    ensures rs.Valid() && t.Valid()
    ensures AttributeRead(rs, t, code, ParseValue(old(rs.Ahead(ch)), old(t.rows), k))
  {
    hide Token, Rest, In, Newlines, Reader.Ahead, Tree.Valid;
    Shape(t);
    rs.AheadSplit(ch);
    if ch.None? || ch.value == '/' || ch.value == '>' {
      return Fail(Rejected);
    }
    ghost var s := rs.Ahead(ch);
    assert s[1..] == rs.input[rs.pos..];
    var c, fits;
    if ch.value == '\'' || ch.value == '\"' {
      var end := ch.value;
      c := rs.Read();
      c, fits := rs.Collect(c, AllBut(end));
      if !fits {
        return Fail(Overrun);
      }
      rs.AheadSplit(c);
      if c.None? {
        return Fail(Rejected);
      }
      t.SetValue(attr, k, rs.token);
      rs.AheadSplit(Some(' '));
      return Next(' ');
    } else {
      c, fits := rs.Collect(ch, TagChar);
      if !fits {
        return Fail(Overrun);
      }
      t.SetValue(attr, k, rs.token);
      rs.AheadSplit(c);
      if c.None? {
        return Fail(Rejected);
      }
      return Next(c.value);
    }
  }

  /** The rest of an attribute whose name has been read. */
  method ReadAfterName(rs: Reader, t: Tree, attr: Node, ghost k: nat, ch: Option<char>) returns (code: Code)
    requires rs.Valid() && rs.Real(ch) && t.Valid() && k < |t.order| && t.order[k] == attr
    modifies rs, t`rows, attr`value
    ensures rs.Valid() && t.Valid()
    ensures AttributeRead(rs, t, code, AfterName(Rest(old(rs.Ahead(ch)), Space), old(t.rows), k, old(rs.token)))
  {
    hide Token, Rest, Newlines, ParseValue, Linked;
    var c := rs.SkipClass(ch, Space);
    if c != Some('=') {
      NotNewline(c);
      rs.Unread(c);
      return Zero;
    }
    assert rs.Ahead(c)[1..] == rs.input[rs.pos..];
    c := rs.Read();
    c := rs.SkipClass(c, Space);
    code := ReadValue(rs, t, attr, k, c);
  }

  /** The node an attribute's value goes to: the element itself for an id, or a new child. */
  method Target(t: Tree, node: Node, ghost k: nat, name: string) returns (attr: Node, ghost i: nat)
    requires t.Valid() && k < |t.order| && t.order[k] == node
    modifies t, t.order
    ensures Grown(t) && i < |t.order| && t.order[i] == attr
    ensures t.rows == if name == "id" then old(t.rows) else Added(old(t.rows), k, name)
    ensures i == if name == "id" then k else |old(t.rows.up)|
  {
    attr, i := node, k;
    if name != "id" {
      i := |t.order|;
      attr := t.Add(node, k, name);
    }
  }

  /** `parse_attribute` */
  method ReadAttribute(rs: Reader, t: Tree, node: Node, ghost k: nat, ch: Option<char>) returns (code: Code)
    requires rs.Valid() && (rs.Real(ch) || ch == Some(' '))
    requires t.Valid() && k < |t.order| && t.order[k] == node
    modifies rs, t, t.order
    ensures rs.Valid() && Grown(t)
    ensures AttributeRead(rs, t, code, ParseAttribute(old(rs.Ahead(ch)), old(t.rows), k))
  {
    hide Token, Rest, Newlines, AfterName, Tree.Valid, Added, Reader.Ahead, Proper;
    Shape(t);
    SpaceIsSpace();
    var c := rs.SkipClass(ch, Space);
    EmptyToken(rs.Ahead(c), NameChar);
    var fits;
    c, fits := rs.Collect(c, NameChar);
    if !fits {
      return Fail(Overrun);
    }
    if rs.token == "" {
      NotNewline(c);
      rs.Unread(c);
      return Zero;
    }
    var attr;
    ghost var i;
    attr, i := Target(t, node, k, rs.token);
    code := ReadAfterName(rs, t, attr, i, c);
  }

  /** All the attributes of a tag. */
  method ReadAttributes(rs: Reader, t: Tree, node: Node, ghost k: nat, ch: Option<char>) returns (code: Code)
    requires rs.Valid() && (rs.Real(ch) || ch == Some(' '))
    requires t.Valid() && k < |t.order| && t.order[k] == node
    modifies rs, t, t.order
    ensures rs.Valid() && Grown(t) && !code.Next?
    ensures AttributeRead(rs, t, code, ParseAttributes(old(rs.Ahead(ch)), old(t.rows), k))
  {
    hide Newlines, ParseAttribute, Tree.Valid, Reader.Ahead, Reader.Valid, Reader.Real, Proper;
    Shape(t);
    ghost var s0, rows0 := rs.Ahead(ch), t.rows;
    code := ReadAttribute(rs, t, node, k, ch);
    Shape(t);
    Unfold(s0, rows0, k);
    while code.Next?
      invariant rs.Valid() && Grown(t) && Proper(t.rows) && |t.order| == |t.rows.up|
      invariant code.Next? ==>
        && (rs.Real(Some(code.ch)) || code.ch == ' ')
        && ParseAttributes(s0, rows0, k) == ParseAttributes(rs.Ahead(Some(code.ch)), t.rows, k)
      invariant !code.Next? ==> AttributeRead(rs, t, code, ParseAttributes(s0, rows0, k))
      decreases if code.Next? then 1 + |rs.Ahead(Some(code.ch))| else 0
    {
      Unfold(rs.Ahead(Some(code.ch)), t.rows, k);
      code := ReadAttribute(rs, t, node, k, Some(code.ch));
      Shape(t);
    }
  }

  lemma Unfold(s: string, rows: Rows, k: nat)
    requires Proper(rows) && k < |rows.up|
    ensures var a := ParseAttribute(s, rows, k);
            && Proper(a.rows) && k < |a.rows.up| && (a.More? ==> |a.rest| < |s|)
            && ParseAttributes(s, rows, k) == if a.More? then ParseAttributes(a.rest, a.rows, k) else a
  {
  }

  /** The three kinds of answer `parse_tag` gives. */
  datatype TagCode = Open | Empty | Bad(why: Halt)

  ghost predicate TagRead(rs: Reader, t: Tree, code: TagCode, a: Tag)
    reads rs, t
    requires rs.Valid()
  {
    && t.rows == a.rows
    && match a
       case Opened(rest, _, _, token) => code == Open && rs.input[rs.pos..] == rest && rs.token == token
       case Closed(rest, _, token) => code == Empty && rs.input[rs.pos..] == rest && rs.token == token
       case BadTag(why, _) => code == Bad(why)
  }

  /** The end of a tag, once its attributes have been read: what is ahead decides. */
  method ReadTagEnd(rs: Reader) returns (code: TagCode)
    requires rs.Valid()
    modifies rs`pos, rs`line
    ensures rs.Valid()
    ensures var r := Rest(old(rs.input[rs.pos..]), Space);
            if r != "" && r[0] == '>' then code == Open && rs.input[rs.pos..] == r[1..]
            else if |r| > 1 && r[0] == '/' && r[1] == '>' then code == Empty && rs.input[rs.pos..] == r[2..]
            else code == Bad(Rejected)
  {
    hide Newlines, Token, Rest, Reader.Ahead;
    var ch := rs.Read();
    ch := rs.SkipClass(ch, Space);
    rs.AheadSplit(ch);
    if ch == Some('>') {
      return Open;
    } else if ch != Some('/') {
      return Bad(Rejected);
    }
    ghost var r := rs.Ahead(ch);
    ch := rs.Read();
    rs.AheadSplit(ch);
    if ch == Some('>') {
      assert r[1..][1..] == r[2..];
      return Empty;
    }
    return Bad(Rejected);
  }

  /** `parse_tag` */
  method ReadTag(rs: Reader, t: Tree, node: Node, ghost k: nat, ch: Option<char>)
    returns (code: TagCode, child: Node)
    requires rs.Valid() && rs.Real(ch) && t.Valid() && k < |t.order| && t.order[k] == node
    modifies rs, t, t.order
    ensures rs.Valid() && Grown(t)
    ensures TagRead(rs, t, code, ParseTag(old(rs.Ahead(ch)), old(t.rows), k))
    ensures code == Open ==> |old(t.order)| < |t.order| && child == t.order[|old(t.order)|]
  {
    hide Newlines, Token, Rest, Tree.Valid, Reader.Ahead, Reader.Valid, Reader.Real, ParseAttributes, Proper;
    Shape(t);
    var c, fits := rs.Collect(ch, TagChar);
    child := node;
    if !fits {
      return Bad(Overrun), child;
    }
    if rs.token == "" {
      return Bad(Rejected), child;
    }
    ghost var n := |t.order|;
    child := t.Add(node, k, rs.token);
    var a := ReadAttributes(rs, t, child, n, c);
    if a.Fail? {
      return Bad(a.why), child;
    }
    code := ReadTagEnd(rs);
  }

  /** `parse_end_tag` up to the closing bracket. */
  method ReadEndTag(rs: Reader) returns (code: TagCode)
    requires rs.Valid()
    modifies rs
    ensures rs.Valid()
    ensures match ParseEndTag(old(rs.input[rs.pos..]))
            case Ended(rest, token) => code == Open && rs.input[rs.pos..] == rest && rs.token == token
            case BadEnd(why) => code == Bad(why)
  {
    hide Newlines, Token, Rest, Reader.Ahead;
    var ch := rs.Read();
    var fits;
    ch, fits := rs.Collect(ch, TagChar);
    if !fits {
      return Bad(Overrun);
    }
    if rs.token == "" {
      return Bad(Rejected);
    }
    ch := rs.SkipClass(ch, Space);
    rs.AheadSplit(ch);
    return if ch == Some('>') then Open else Bad(Rejected);
  }

  lemma Shape(t: Tree)
    requires t.Valid()
    ensures Proper(t.rows) && |t.order| == |t.rows.up|
  {
  }

  lemma EmptyToken(s: string, k: Class)
    ensures Token(s, k) == "" ==> Rest(s, k) == s
  {
  }

  lemma SpaceIsSpace()
    ensures In(' ', Space)
  {
  }

  lemma NotNewline(c: Option<char>)
    requires c.Some? ==> !In(c.value, Space) || !In(c.value, NameChar)
    ensures c.Some? && !In(c.value, Space) ==> c.value != '\n'
  {
  }

  /** The variables of `cse_parse` are those of a state. */
  ghost predicate InSync(rs: Reader, t: Tree, node: Node, spaceOnly: bool, st: State)
    reads rs, t, t.order
  {
    && rs.Valid() && t.Valid() && Sound(st)
    && t.rows == st.rows && st.cur < |t.order| && t.order[st.cur] == node
    && rs.token == st.token && spaceOnly == st.spaceOnly
  }

  /** The reader and the variables are as a turn says; a stopped parse leaves the tree. */
  ghost predicate Turned(rs: Reader, t: Tree, node: Node, spaceOnly: bool, stop: bool, turn: Turn)
    reads rs, t, t.order
  {
    match turn
    case Go(rest, st) => !stop && InSync(rs, t, node, spaceOnly, st) && rs.input[rs.pos..] == rest
    case Stop(_, st) => stop && rs.Valid() && t.Valid() && t.rows == st.rows
  }

  /** The check for an include directive after a tag. */
  method AtIncludeNode(t: Tree, node: Node, ghost k: nat) returns (b: bool)
    requires t.Valid() && k < |t.order| && t.order[k] == node
    ensures b == AtInclude(t.rows, k)
  {
    assert Linked(t.order, t.rows, k);
    assert HasChild(t.rows.up, k) ==> Linked(t.order, t.rows, LastChild(t.rows.up, k));
    b := node.last != null && node.last.key == INCLUDE;
  }

  /** Text before a tag: dropped while only white space was seen, or the value of a bare node. */
  method KeepText(rs: Reader, t: Tree, node: Node, spaceOnly: bool, ghost st: State)
    requires InSync(rs, t, node, spaceOnly, st)
    modifies rs`token, t`rows, node`value
    ensures InSync(rs, t, node, spaceOnly, TakeText(st))
  {
    hide Depth, Newlines;
    TakeTextKeeps(st);
    assert Linked(t.order, t.rows, st.cur);
    FirstIffLast(t.rows.up, st.cur);
    if spaceOnly {
      rs.token := "";
    } else if node.value.None? && node.first == null {
      t.SetValue(node, st.cur, rs.token);
    }
  }

  /** A start tag in the main loop. */
  method StartTag(rs: Reader, t: Tree, node: Node, spaceOnly: bool, ch: Option<char>, ghost st: State)
    returns (stop: bool, next: Node)
    requires InSync(rs, t, node, spaceOnly, st) && rs.Real(ch)
    modifies rs, t, t.order
    ensures Grown(t) && Turned(rs, t, next, spaceOnly, stop, StartTagTurn(old(rs.Ahead(ch)), st))
  {
    hide ParseTag, Newlines, Reader.Ahead, AtInclude, Tree.Valid, Reader.Valid, Depth, Proper;
    StartTagKeeps(rs.Ahead(ch), st);
    Shape(t);
    var code, child := ReadTag(rs, t, node, st.cur, ch);
    Shape(t);
    if code.Bad? {
      return true, node;
    }
    next := if code == Open then child else node;
    stop := AtIncludeNode(t, next, if code == Open then |old(t.order)| else st.cur);
  }

  /** An end tag in the main loop. */
  method CloseTag(rs: Reader, t: Tree, node: Node, spaceOnly: bool, ghost st: State)
    returns (stop: bool, next: Node)
    requires InSync(rs, t, node, spaceOnly, st)
    modifies rs
    ensures Turned(rs, t, next, spaceOnly, stop, EndTagTurn(old(rs.input[rs.pos..]), st))
  {
    hide ParseEndTag, Newlines, Reader.Ahead, AtInclude, Depth;
    EndTagKeeps(rs.input[rs.pos..], st);
    var code := ReadEndTag(rs);
    assert Linked(t.order, t.rows, st.cur);
    next := node;
    if code.Bad? || node.parent == null {
      return true, next;
    }
    next := node.parent;
    stop := AtIncludeNode(t, next, t.rows.up[st.cur]);
  }

  /** After the bracket and the exclamation mark: a doctype declaration, or a comment. */
  method SkipBang(rs: Reader)
    requires rs.Valid()
    modifies rs`pos, rs`line
    ensures rs.Valid() && rs.input[rs.pos..] == AfterBang(old(rs.input[rs.pos..]))
  {
    hide Newlines, Reader.Ahead, AfterFirst, AfterDoctype;
    ghost var s := rs.input[rs.pos..];
    var ch := rs.Read();
    rs.AheadSplit(ch);
    if ch == Some('D') {
      rs.SkipDoctype();
      return;
    }
    ghost var s1 := rs.input[rs.pos..];
    ch := rs.Read();
    rs.AheadSplit(ch);
    assert rs.input[rs.pos..] == Drop(s, 2) by {
      if |s| >= 2 {
        assert s[1..][1..] == s[2..];
      }
    }
    rs.SkipComment();
  }

  /** One turn of the main loop, from the character it has read. */
  method TakeTurn(rs: Reader, t: Tree, node: Node, spaceOnly: bool, ch: char, ghost st: State)
    returns (stop: bool, next: Node, blank: bool)
    requires InSync(rs, t, node, spaceOnly, st) && rs.Real(Some(ch))
    modifies rs, t, t.order
    ensures Grown(t) && Turned(rs, t, next, blank, stop, NextTurn(old(rs.Ahead(Some(ch))), st))
  {
    hide StartTagTurn, EndTagTurn, AfterBang, AfterFirst, TakeText, Newlines, Depth, Reader.Ahead, Proper,
         Tree.Valid, AtInclude;
    ghost var s := rs.Ahead(Some(ch));
    rs.AheadSplit(Some(ch));
    Shape(t);
    next, blank, stop := node, spaceOnly, false;
    if ch != '<' {
      if |rs.token| >= LIMIT {
        return true, next, blank;
      }
      rs.token := rs.token + [ch];
      if !IsBlank(ch) {
        blank := false;
      }
      return;
    }
    KeepText(rs, t, node, spaceOnly, st);
    ghost var u := TakeText(st);
    var c := rs.Read();
    rs.AheadSplit(c);
    if c == Some('!') {
      SkipBang(rs);
    } else if c == Some('?') {
      rs.SkipPI();
    } else if c == Some('/') {
      stop, next := CloseTag(rs, t, node, spaceOnly, u);
    } else {
      NoTag(u);
      stop, next := StartTag(rs, t, node, spaceOnly, c, u);
    }
  }

  lemma NoTag(st: State)
    requires Sound(st)
    ensures StartTagTurn("", st) == Stop(Rejected, st)
  {
  }

  /**
   * `cse_parse`: the tree it leaves is a proper one and is exactly the table of the functional
   * parse, on every input, whether it ends with the file or early.
   */
  method ParseFile(input: string) returns (t: Tree, ok: bool)
    ensures t.Valid() && fresh(t)
    ensures t.rows == Parse(input, START).st.rows
    ensures ok == Parse(input, START).Parsed?
  {
    hide Newlines, NextTurn, Parse, Depth, Reader.Ahead, Tree.Valid, Reader.Real, Proper, Sound;
    var rs := new Reader(input);
    t := new Tree();
    ghost var st := START;
    StartIsSound();
    var node, spaceOnly := t.root, true;
    assert input[0..] == input;
    while true
      invariant fresh(rs) && fresh(t) && (forall i :: 0 <= i < |t.order| ==> fresh(t.order[i])) && rs.input == input
      invariant InSync(rs, t, node, spaceOnly, st)
      invariant Parse(input, START) == Parse(rs.input[rs.pos..], st)
      decreases |input| - rs.pos
    {
      ghost var s := rs.input[rs.pos..];
      Turns(s, st);
      var ch := rs.Read();
      rs.AheadSplit(ch);
      if ch.None? {
        return t, true;
      }
      ghost var turn := NextTurn(s, st);
      var stop;
      stop, node, spaceOnly := TakeTurn(rs, t, node, spaceOnly, ch.value, st);
      if stop {
        return t, false;
      }
      st := turn.st;
    }
  }
}
