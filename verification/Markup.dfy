/**
 * The configuration syntax as functions on what is left of the input: tokens, attributes, tags,
 * comments, and the parse of a whole file into a table of nodes.
 */
module Markup {
  import opened Wrappers
  import opened Rows
  import opened Strings

  /** The longest token the first buffer holds. A longer one makes the buffer grow, which loses it. */
  const LIMIT := 1022
  const INCLUDE := "resin:include"

  /** The character classes tokens are made of. */
  datatype Class = Space | NameChar | TagChar | AllBut(end: char)

  predicate IsSpace(c: char) { c in " \t\n\r\U{0B}\U{0C}" }

  /** What the main loop takes for white space; `isspace` knows two characters more. */
  predicate IsBlank(c: char) { c in " \t\n\U{0C}" }

  predicate In(c: char, k: Class)
  {
    match k
    case Space => IsSpace(c)
    case NameChar => !IsSpace(c) && c != '=' && c != '/' && c != '>'
    case TagChar => !IsSpace(c) && c != '/' && c != '>'
    case AllBut(end) => c != end
  }

  /** The longest run of the class at the start, and what follows it. */
  function Token(s: string, k: Class): (t: string)
    ensures t <= s
    ensures |t| < |s| ==> !In(s[|t|], k)
    ensures forall i :: 0 <= i < |t| ==> In(t[i], k)
  {
    if s == "" || !In(s[0], k) then "" else [s[0]] + Token(s[1..], k)
  }

  function Rest(s: string, k: Class): (r: string)
    ensures |r| == |s| - |Token(s, k)|
  {
    s[|Token(s, k)|..]
  }

  /** A run that ends where a character outside the class follows is the token. */
  lemma {:induction false} TokenOf(t: string, s: string, k: Class)
    requires forall i :: 0 <= i < |t| ==> In(t[i], k)
    requires s == "" || !In(s[0], k)
    ensures Token(t + s, k) == t && Rest(t + s, k) == s
  {
    if t == "" {
      assert t + s == s;
    } else {
      TokenOf(t[1..], s, k);
      assert (t + s)[1..] == t[1..] + s;
    }
  }

  /** Why a parse ends early. */
  datatype Halt = Rejected | Overrun | NullParent | Include

  datatype Attribute =
    | More(rest: string, rows: Rows)
    | Done(rest: string, rows: Rows, token: string)
    | BadAttribute(why: Halt, rows: Rows)

  /** `parse_attribute`; an attribute named id is the value of the node itself. */
  function ParseAttribute(s: string, rows: Rows, node: nat): (a: Attribute)
    requires Proper(rows) && node < |rows.up|
    ensures a.More? ==> |a.rest| < |s|
    ensures a.Done? ==> |a.rest| <= |s|
    ensures Proper(a.rows) && rows.up <= a.rows.up && (a.BadAttribute? ==> a.why != NullParent)
  {
    var s1 := Rest(s, Space);
    var name, s2 := Token(s1, NameChar), Rest(s1, NameChar);
    if |name| > LIMIT then BadAttribute(Overrun, rows)
    else if name == "" then Done(s1, rows, "")
    else
      var rows1 := if name == "id" then rows else Added(rows, node, name);
      var attr := if name == "id" then node else |rows.up|;
      AfterName(Rest(s2, Space), rows1, attr, name)
  }

  /** After an attribute's name: a value follows an equals sign. */
  function AfterName(s: string, rows: Rows, attr: nat, name: string): (a: Attribute)
    requires Proper(rows) && attr < |rows.up|
    ensures a.More? || a.Done? ==> |a.rest| <= |s|
    ensures Proper(a.rows) && a.rows.up == rows.up && (a.BadAttribute? ==> a.why != NullParent)
  {
    if s == "" || s[0] != '=' then Done(s, rows, name) else ParseValue(Rest(s[1..], Space), rows, attr)
  }

  /** What follows the equals sign: a quoted or a bare value. */
  function ParseValue(s: string, rows: Rows, attr: nat): (a: Attribute)
    requires Proper(rows) && attr < |rows.up|
    ensures a.More? ==> |a.rest| <= |s|
    ensures !a.Done? && Proper(a.rows) && a.rows.up == rows.up && (a.BadAttribute? ==> a.why != NullParent)
  {
    if s == "" || s[0] == '/' || s[0] == '>' then BadAttribute(Rejected, rows)
    else if s[0] == '\'' || s[0] == '\"' then
      var v, r := Token(s[1..], AllBut(s[0])), Rest(s[1..], AllBut(s[0]));
      if |v| > LIMIT then BadAttribute(Overrun, rows)
      else if r == "" then BadAttribute(Rejected, rows)
      else More(" " + r[1..], Valued(rows, attr, v))
    else
      var v, r := Token(s, TagChar), Rest(s, TagChar);
      if |v| > LIMIT then BadAttribute(Overrun, rows)
      else if r == "" then BadAttribute(Rejected, Valued(rows, attr, v))
      else More(r, Valued(rows, attr, v))
  }

  function ParseAttributes(s: string, rows: Rows, node: nat): (a: Attribute)
    requires Proper(rows) && node < |rows.up|
    ensures !a.More?
    ensures a.Done? ==> |a.rest| <= |s|
    ensures Proper(a.rows) && rows.up <= a.rows.up && (a.BadAttribute? ==> a.why != NullParent)
    decreases |s|
  {
    var a := ParseAttribute(s, rows, node);
    if a.More? then ParseAttributes(a.rest, a.rows, node) else a
  }

  datatype Tag =
    | Opened(rest: string, rows: Rows, child: nat, token: string)
    | Closed(rest: string, rows: Rows, token: string)
    | BadTag(why: Halt, rows: Rows)

  /** `parse_tag`, from the first character after the bracket. */
  function ParseTag(s: string, rows: Rows, cur: nat): (t: Tag)
    requires Proper(rows) && cur < |rows.up|
    ensures !t.BadTag? ==> |t.rest| < |s| && rows.up + [cur] <= t.rows.up
    ensures Proper(t.rows) && rows.up <= t.rows.up && (t.Opened? ==> t.child == |rows.up|)
    ensures t.BadTag? ==> t.why != NullParent
  {
    var name := Token(s, TagChar);
    if |name| > LIMIT then BadTag(Overrun, rows)
    else if name == "" then BadTag(Rejected, rows)
    else
      var a := ParseAttributes(Rest(s, TagChar), Added(rows, cur, name), |rows.up|);
      if a.BadAttribute? then BadTag(a.why, a.rows)
      else
        var r := Rest(a.rest, Space);
        if r != "" && r[0] == '>' then Opened(r[1..], a.rows, |rows.up|, a.token)
        else if |r| > 1 && r[0] == '/' && r[1] == '>' then Closed(r[2..], a.rows, a.token)
        else BadTag(Rejected, a.rows)
  }

  datatype EndTag = Ended(rest: string, token: string) | BadEnd(why: Halt)

  /** `parse_end_tag`: any name closes the current node. */
  function ParseEndTag(s: string): (e: EndTag)
    ensures if e.Ended? then |e.rest| < |s| else e.why != NullParent
  {
    var name := Token(s, TagChar);
    var r := Rest(Rest(s, TagChar), Space);
    if |name| > LIMIT then BadEnd(Overrun)
    else if name == "" || r == "" || r[0] != '>' then BadEnd(Rejected)
    else Ended(r[1..], name)
  }

  /** What follows the first occurrence of a terminator; nothing if there is none. */
  function AfterFirst(s: string, end: string): (r: string)
    ensures |r| <= |s|
  {
    var m := Find(s, end);
    if m.None? then "" else s[m.value + |end|..]
  }

  /** `skip_doctype`: to the first closing bracket outside quotes. */
  function AfterDoctype(s: string): (r: string)
    ensures |r| <= |s|
    decreases |s|
  {
    if s == "" then ""
    else if s[0] == '>' then s[1..]
    else if s[0] == '\"' || s[0] == '\'' then
      var r := Rest(s[1..], AllBut(s[0]));
      if r == "" then "" else AfterDoctype(r[1..])
    else AfterDoctype(s[1..])
  }

  /** The quote that is open before position i. */
  function OpenQuote(s: string, i: nat): Option<char>
    requires i <= |s|
  {
    if i == 0 then None
    else
      var q, c := OpenQuote(s, i - 1), s[i - 1];
      if q.Some? then (if c == q.value then None else q) else if c == '\"' || c == '\'' then Some(c) else None
  }

  /** A closing bracket outside quotes. */
  predicate DeclarationEnds(s: string, m: nat)
  {
    m < |s| && s[m] == '>' && OpenQuote(s, m).None?
  }

  ghost predicate FirstEnd(s: string, m: nat)
  {
    DeclarationEnds(s, m) && forall j: nat :: j < m ==> !DeclarationEnds(s, j)
  }

  /** Inside quotes nothing ends, up to the closing quote. */
  lemma {:induction false} Quoted(s: string, i: nat, q: char, j: nat)
    requires i < |s| && s[i] == q && (q == '\"' || q == '\'') && OpenQuote(s, i).None?
    requires i < j <= |s| && forall k :: i < k < j ==> s[k] != q
    ensures OpenQuote(s, j) == Some(q)
    decreases j
  {
    if j == i + 1 {
    } else {
      Quoted(s, i, q, j - 1);
    }
  }

  /** From outside quotes: what follows the first end of the declaration, or nothing if there is none. */
  lemma {:induction false} DoctypeFrom(s: string, i: nat)
    requires i <= |s| && OpenQuote(s, i).None? && forall j: nat :: j < i ==> !DeclarationEnds(s, j)
    ensures forall m: nat :: FirstEnd(s, m) ==> AfterDoctype(s[i..]) == s[m + 1..]
    ensures (forall m: nat :: !DeclarationEnds(s, m)) ==> AfterDoctype(s[i..]) == ""
    decreases |s| - i
  {
    hide Token;
    if i == |s| {
    } else if s[i] == '>' {
      assert DeclarationEnds(s, i) && s[i..][1..] == s[i + 1..];
      forall m: nat | FirstEnd(s, m) ensures m == i {
        assert !(i < m);
      }
    } else if s[i] == '\"' || s[i] == '\'' {
      var end := i + 1 + |Token(s[i + 1..], AllBut(s[i]))|;
      QuotedPart(s, i);
      hide AfterDoctype, OpenQuote;
      if end < |s| {
        DoctypeFrom(s, end + 1);
      }
    } else {
      assert s[i..][1..] == s[i + 1..];
      DoctypeFrom(s, i + 1);
    }
  }

  /** A quoted part of a declaration is passed over; nothing ends in it. */
  lemma QuotedPart(s: string, i: nat)
    requires i < |s| && (s[i] == '\"' || s[i] == '\'') && OpenQuote(s, i).None?
    ensures var end := i + 1 + |Token(s[i + 1..], AllBut(s[i]))|;
            && i < end <= |s|
            && (forall j: nat :: i <= j <= end ==> !DeclarationEnds(s, j))
            && AfterDoctype(s[i..]) == (if end < |s| then AfterDoctype(s[end + 1..]) else "")
            && (end < |s| ==> OpenQuote(s, end + 1).None?)
  {
    var q, t := s[i], Token(s[i + 1..], AllBut(s[i]));
    var end := i + 1 + |t|;
    assert s[i..][1..] == s[i + 1..] && Rest(s[i + 1..], AllBut(q)) == s[end..];
    hide Token, AfterDoctype;
    forall k | i < k < end ensures s[k] != q {
      assert s[k] == s[i + 1..][k - i - 1] == t[k - i - 1];
    }
    forall j: nat | i < j <= end ensures OpenQuote(s, j) == Some(q) {
      Quoted(s, i, q, j);
    }
    if end < |s| {
      assert s[end] == s[i + 1..][|t|] == q;
      assert s[end..][1..] == s[end + 1..];
    }
    QuotedSkip(s[i..], s[end..]);
  }

  lemma QuotedSkip(s: string, r: string)
    requires s != "" && (s[0] == '\"' || s[0] == '\'') && r == Rest(s[1..], AllBut(s[0]))
    ensures AfterDoctype(s) == if r == "" then "" else AfterDoctype(r[1..])
  {
  }

  /** A declaration is skipped exactly through its first closing bracket outside quotes, or to the end of the file. */
  lemma DoctypeEnds(s: string)
    ensures forall m: nat :: FirstEnd(s, m) ==> AfterDoctype(s) == s[m + 1..]
    ensures (forall m: nat :: !DeclarationEnds(s, m)) ==> AfterDoctype(s) == ""
  {
    DoctypeFrom(s, 0);
    assert s[0..] == s;
  }

  function Drop(s: string, n: nat): string { if |s| < n then "" else s[n..] }

  /** After "<!": a doctype declaration, or two characters and a comment. */
  function AfterBang(s: string): (r: string)
    ensures |r| <= |s|
  {
    if s != "" && s[0] == 'D' then AfterDoctype(s[1..]) else AfterFirst(Drop(s, 2), "-->")
  }

  /** The variables of `cse_parse`, with the numbers of tags opened and closed so far. */
  datatype State = State(rows: Rows, cur: nat, token: string, spaceOnly: bool, opens: nat, closes: nat)

  const START := State(ROOT, 0, "", true, 0, 0)

  ghost predicate Sound(st: State)
  {
    Proper(st.rows) && st.cur < |st.rows.up| && Depth(st.rows, st.cur) + st.closes == st.opens
  }

  /** The text before a tag becomes the value of a node that has neither value nor child. */
  function TakeText(st: State): State
    requires Proper(st.rows) && st.cur < |st.rows.up|
  {
    if st.spaceOnly then st.(token := "")
    else if st.rows.values[st.cur].None? && !HasChild(st.rows.up, st.cur) then
      st.(rows := Valued(st.rows, st.cur, st.token))
    else st
  }

  /** The current node's last child is an include directive. */
  predicate AtInclude(rows: Rows, cur: nat)
    requires Proper(rows) && cur < |rows.up|
  {
    HasChild(rows.up, cur) && rows.keys[LastChild(rows.up, cur)] == INCLUDE
  }

  datatype Outcome = Parsed(st: State) | Halted(why: Halt, st: State)

  /** One construct of the main loop: a character of text, or everything up to the end of a tag. */
  datatype Turn = Go(rest: string, st: State) | Stop(why: Halt, st: State)

  function TextTurn(s: string, st: State): Turn
    requires s != "" && s[0] != '<'
  {
    if |st.token| >= LIMIT then Stop(Overrun, st)
    else Go(s[1..], st.(token := st.token + [s[0]], spaceOnly := st.spaceOnly && IsBlank(s[0])))
  }

  function Checked(rest: string, st: State): Turn
    requires Proper(st.rows) && st.cur < |st.rows.up|
  {
    if AtInclude(st.rows, st.cur) then Stop(Include, st) else Go(rest, st)
  }

  function StartTagTurn(s: string, st: State): Turn
    requires Proper(st.rows) && st.cur < |st.rows.up|
  {
    var t := ParseTag(s, st.rows, st.cur);
    match t
    case BadTag(why, rows) => Stop(why, st.(rows := rows))
    case Opened(rest, rows, child, token) =>
      Checked(rest, st.(rows := rows, cur := child, token := token, opens := st.opens + 1))
    case Closed(rest, rows, token) => Checked(rest, st.(rows := rows, token := token))
  }

  function EndTagTurn(s: string, st: State): Turn
    requires Proper(st.rows) && st.cur < |st.rows.up|
  {
    var e := ParseEndTag(s);
    match e
    case BadEnd(why) => Stop(why, st)
    case Ended(rest, token) =>
      if st.rows.up[st.cur] < 0 then Stop(NullParent, st)
      else Checked(rest, st.(cur := st.rows.up[st.cur], token := token, closes := st.closes + 1))
  }

  /** After an opening bracket. */
  function BracketTurn(s: string, st: State): Turn
    requires Proper(st.rows) && st.cur < |st.rows.up|
  {
    if s == "" then Stop(Rejected, st)
    else if s[0] == '!' then Go(AfterBang(s[1..]), st)
    else if s[0] == '?' then Go(AfterFirst(s[1..], "?>"), st)
    else if s[0] == '/' then EndTagTurn(s[1..], st)
    else StartTagTurn(s, st)
  }

  function NextTurn(s: string, st: State): (t: Turn)
    requires s != "" && Proper(st.rows) && st.cur < |st.rows.up|
  {
    if s[0] == '<' then BracketTurn(s[1..], TakeText(st)) else TextTurn(s, st)
  }

  /** A turn that leaves a proper tree and a current node as deep as tags are open. */
  ghost predicate Keeps(s: string, t: Turn)
  {
    && Sound(t.st)
    && (t.Go? ==> |t.rest| <= |s|)
    && (t.Stop? && t.why == NullParent ==> t.st.opens == t.st.closes && t.st.rows.up[t.st.cur] < 0)
  }

  lemma StartTagKeeps(s: string, st: State)
    requires Sound(st)
    ensures Keeps(s, StartTagTurn(s, st))
  {
    hide ParseTag, AtInclude;
    var t := ParseTag(s, st.rows, st.cur);
    DepthPrefix(st.rows, t.rows, st.cur);
    if t.Opened? {
      assert (st.rows.up + [st.cur])[t.child] == st.cur;
      assert t.rows.up[t.child] == st.cur;
    }
  }

  lemma EndTagKeeps(s: string, st: State)
    requires Sound(st)
    ensures Keeps(s, EndTagTurn(s, st))
  {
  }

  lemma TakeTextKeeps(st: State)
    requires Sound(st)
    ensures Sound(TakeText(st))
  {
    hide HasChild;
    DepthPrefix(st.rows, TakeText(st).rows, st.cur);
  }

  lemma TurnKeeps(s: string, st: State)
    requires s != "" && Sound(st)
    ensures Keeps(s[1..], NextTurn(s, st))
  {
    hide StartTagTurn, EndTagTurn, AfterBang, AfterFirst, TakeText;
    if s[0] == '<' {
      var u, r := TakeText(st), s[1..];
      TakeTextKeeps(st);
      if r != "" && r[0] == '/' {
        EndTagKeeps(r[1..], u);
      } else if r != "" {
        StartTagKeeps(r, u);
      }
    } else {
      TextKeeps(s, st);
    }
  }

  lemma TextKeeps(s: string, st: State)
    requires s != "" && s[0] != '<' && Sound(st)
    ensures Keeps(s[1..], TextTurn(s, st))
  {
  }

  /** `cse_parse`: turn after turn to the end of the input. */
  function Parse(s: string, st: State): (o: Outcome)
    requires Sound(st)
    ensures Sound(o.st)
    decreases |s|
  {
    if s == "" then Parsed(st) else
      TurnKeeps(s, st);
      var t := NextTurn(s, st);
      if t.Stop? then Halted(t.why, t.st) else Parse(t.rest, t.st)
  }

  /**
   * On any input the parse keeps one proper tree whose current node is as deep as there are open
   * tags; it runs into a missing parent only by closing more tags than were opened.
   */
  lemma {:induction false} ParseKeeps(s: string, st: State)
    requires Sound(st)
    ensures Sound(Parse(s, st).st)
    ensures Parse(s, st).Halted? && Parse(s, st).why == NullParent ==>
              Parse(s, st).st.opens == Parse(s, st).st.closes && Parse(s, st).st.cur == 0
    decreases |s|
  {
    if s == "" {
    } else {
      TurnKeeps(s, st);
      var t := NextTurn(s, st);
      if t.Go? {
        ParseKeeps(t.rest, t.st);
      }
    }
  }

  lemma StartIsSound()
    ensures Sound(START)
  {
  }

  /** The parse, one turn at a time. */
  lemma Turns(s: string, st: State)
    requires Sound(st)
    ensures Proper(st.rows) && st.cur < |st.rows.up|
    ensures s == "" ==> Parse(s, st) == Parsed(st)
    ensures s != "" ==>
      var turn := NextTurn(s, st);
      && Sound(turn.st) && (turn.Go? ==> |turn.rest| < |s|)
      && Parse(s, st) == if turn.Stop? then Halted(turn.why, turn.st) else Parse(turn.rest, turn.st)
  {
    if s != "" {
      TurnKeeps(s, st);
    }
  }

  /** An end tag is next, and no tag is open. */
  predicate ClosesRoot(s: string, st: State)
  {
    |s| >= 2 && s[0] == '<' && s[1] == '/' && ParseEndTag(s[2..]).Ended? && st.opens == st.closes
  }

  lemma RootIsUnopened(st: State)
    requires Sound(st)
    ensures TakeText(st).cur == st.cur && TakeText(st).rows.up == st.rows.up
    ensures st.rows.up[st.cur] < 0 <==> st.opens == st.closes
  {
    hide HasChild;
  }

  /** A turn runs into the missing parent exactly at an end tag while no tag is open. */
  lemma NullParentTurn(s: string, st: State)
    requires Sound(st) && s != ""
    ensures NextTurn(s, st).Stop? && NextTurn(s, st).why == NullParent <==> ClosesRoot(s, st)
  {
    hide ParseTag, ParseEndTag, TakeText, AtInclude, AfterBang, AfterFirst, Depth;
    RootIsUnopened(st);
    if |s| >= 2 {
      assert s[1..][1..] == s[2..];
    }
  }

  datatype Point = Point(rest: string, st: State)

  /** Where the parse is after n turns, if it gets there. */
  function AfterTurns(s: string, st: State, n: nat): (p: Option<Point>)
    requires Sound(st)
    ensures p.Some? ==> Sound(p.value.st)
    decreases n
  {
    if n == 0 then Some(Point(s, st))
    else if s == "" then None
    else
      TurnKeeps(s, st);
      var t := NextTurn(s, st);
      if t.Stop? then None else AfterTurns(t.rest, t.st, n - 1)
  }

  predicate RootAfter(s: string, st: State, n: nat)
    requires Sound(st)
  {
    var p := AfterTurns(s, st, n);
    p.Some? && ClosesRoot(p.value.rest, p.value.st)
  }

  /** The parse comes to an end tag while no tag is open. */
  ghost predicate ComesToRoot(s: string, st: State)
    requires Sound(st)
  {
    exists n: nat :: RootAfter(s, st, n)
  }

  lemma ComesToRootStep(s: string, st: State)
    requires Sound(st) && s != ""
    ensures Sound(NextTurn(s, st).st)
    ensures ComesToRoot(s, st) <==>
              ClosesRoot(s, st) || (NextTurn(s, st).Go? && ComesToRoot(NextTurn(s, st).rest, NextTurn(s, st).st))
  {
    hide NextTurn, ClosesRoot, Depth;
    TurnKeeps(s, st);
    var t := NextTurn(s, st);
    assert RootAfter(s, st, 0) <==> ClosesRoot(s, st);
    if ComesToRoot(s, st) {
      var n: nat :| RootAfter(s, st, n);
      if n > 0 {
        assert RootAfter(t.rest, t.st, n - 1);
      }
    }
    if t.Go? && ComesToRoot(t.rest, t.st) {
      var n: nat :| RootAfter(t.rest, t.st, n);
      assert RootAfter(s, st, n + 1);
    }
  }

  /** The parse of any input runs into the missing parent exactly if it comes to an end tag while no tag is open. */
  lemma {:induction false} NullParentIff(s: string, st: State)
    requires Sound(st)
    ensures Parse(s, st).Halted? && Parse(s, st).why == NullParent <==> ComesToRoot(s, st)
    decreases |s|
  {
    hide NextTurn, ClosesRoot, Depth, ComesToRoot;
    if s == "" {
      NoTurns(st);
    } else {
      Turns(s, st);
      NullParentTurn(s, st);
      ComesToRootStep(s, st);
      if NextTurn(s, st).Go? {
        NullParentIff(NextTurn(s, st).rest, NextTurn(s, st).st);
      }
    }
  }

  lemma NoTurns(st: State)
    requires Sound(st)
    ensures !ComesToRoot("", st)
  {
  }

  /** The shortest such file. */
  lemma ClosingTooMuch()
    ensures Sound(START)
    ensures Parse("</a>", START).Halted? && Parse("</a>", START).why == NullParent
  {
    StartIsSound();
    EndTagOfA();
    HaltsAtRoot("</a>", START);
  }

  lemma HaltsAtRoot(s: string, st: State)
    requires Sound(st) && ClosesRoot(s, st)
    ensures Parse(s, st).Halted? && Parse(s, st).why == NullParent
  {
    hide Parse, NextTurn, Depth;
    NullParentTurn(s, st);
    Turns(s, st);
  }

  lemma EndTagOfA()
    ensures ClosesRoot("</a>", START)
  {
    assert "</a>"[2..] == "a" + ">";
    TokenOf("a", ">", TagChar);
    TokenOf("", ">", Space);
    assert "" + ">" == ">";
  }
}
