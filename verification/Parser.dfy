/**
 * The configuration parser as it runs: one character at a time through a line-counting reader
 * with pushback, a token buffer, and nodes linked in place; each routine against its function.
 */
module Parser {
  import opened Wrappers
  import opened Strings
  import opened Markup

  function Newlines(s: string): nat
  {
    if s == "" then 0 else Newlines(s[..|s| - 1]) + if s[|s| - 1] == '\n' then 1 else 0
  }

  /** One for each line end. */
  lemma {:induction false} NewlinesJoin(a: string, b: string)
    ensures Newlines(a + "\n" + b) == Newlines(a) + 1 + Newlines(b)
    ensures '\n' !in a ==> Newlines(a) == 0
    decreases |a| + 2 * |b|
  {
    var s := a + "\n" + b;
    if b == "" {
      assert s[..|s| - 1] == a && s[|s| - 1] == '\n';
      if a != "" {
        NewlinesJoin(a[..|a| - 1], "");
      }
    } else {
      assert s[..|s| - 1] == a + "\n" + b[..|b| - 1] && s[|s| - 1] == b[|b| - 1];
      NewlinesJoin(a, b[..|b| - 1]);
    }
  }

  /** `rstream_t`: the file, the position in it, the line counter, and the token buffer. */
  class Reader {
    const input: string
    var pos: nat
    var line: nat
    var token: string

    ghost predicate Valid()
      reads this`pos, this`line
    {
      pos <= |input| && line == 1 + Newlines(input[..pos])
    }

    constructor (input: string)
      ensures Valid() && this.input == input && pos == 0 && token == ""
    {
      this.input, pos, line, token := input, 0, 1, "";
    }

    /** What is still to be read, behind a character already taken. */
    ghost function Ahead(ch: Option<char>): string
      reads this`pos, this`line
      requires Valid()
    {
      (if ch.Some? then [ch.value] else "") + input[pos..]
    }

    /** The character is the last one read, or the input is at its end. */
    ghost predicate Real(ch: Option<char>)
      reads this`pos, this`line
      requires Valid()
    {
      if ch.Some? then pos > 0 && input[pos - 1] == ch.value else pos == |input|
    }

    /** `buf_read`: the next character, counting lines; none at the end of the file. */
    method Read() returns (ch: Option<char>)
      requires Valid()
      modifies this`pos, this`line
      ensures Valid() && Real(ch) && Ahead(ch) == old(input[pos..])
      ensures pos == old(pos) + if ch.Some? then 1 else 0
    {
      if pos == |input| {
        return None;
      }
      ch := Some(input[pos]);
      assert input[..pos + 1][..pos] == input[..pos];
      if ch.value == '\n' {
        line := line + 1;
      }
      pos := pos + 1;
    }

    /** `ungetc`: the line counter stays right because no newline is ever pushed back. */
    method Unread(ch: Option<char>)
      requires Valid() && Real(ch) && ch != Some('\n')
      modifies this`pos
      ensures Valid() && input[pos..] == old(Ahead(ch))
    {
      if ch.Some? {
        assert input[..pos][..pos - 1] == input[..pos - 1];
        pos := pos - 1;
      }
    }

    lemma AheadSplit(ch: Option<char>)
      requires Valid()
      ensures ch.Some? ==> Ahead(ch) == [ch.value] + input[pos..] && Ahead(ch)[1..] == input[pos..]
      ensures ch.None? && Real(ch) ==> Ahead(ch) == ""
    {
    }

    /** A loop that reads past a class of characters. */
    method SkipClass(ch: Option<char>, k: Class) returns (c: Option<char>)
      requires Valid() && (Real(ch) || (ch.Some? && In(ch.value, k)))
      modifies this`pos, this`line
      ensures Valid() && Real(c) && Ahead(c) == old(Rest(Ahead(ch), k))
      ensures c.Some? ==> !In(c.value, k)
    {
      hide Token, Rest, Newlines;
      c := ch;
      ghost var s := Ahead(c);
      while c.Some? && In(c.value, k)
        invariant Valid() && (Real(c) || (c.Some? && In(c.value, k)))
        invariant Rest(Ahead(c), k) == Rest(s, k)
        decreases |Ahead(c)|
      {
        RestStep(Ahead(c), k);
        assert Ahead(c)[1..] == input[pos..];
        c := Read();
      }
      RestStops(Ahead(c), k);
    }

    /** A loop that collects a token; false when the buffer would have to grow. */
    method Collect(ch: Option<char>, k: Class) returns (c: Option<char>, fits: bool)
      requires Valid() && Real(ch)
      modifies this`pos, this`line, this`token
      ensures Valid() && Real(c)
      ensures fits == (|Token(old(Ahead(ch)), k)| <= LIMIT)
      ensures fits ==> token == Token(old(Ahead(ch)), k) && Ahead(c) == Rest(old(Ahead(ch)), k)
      ensures fits && c.Some? ==> !In(c.value, k)
      ensures fits && token == "" ==> c == ch
    {
      hide Token, Rest, Newlines, In, Ahead;
      c, token := ch, "";
      ghost var s := Ahead(c);
      while c.Some? && In(c.value, k)
        invariant Valid() && Real(c) && |token| <= LIMIT && (token == "" ==> c == ch)
        invariant Token(s, k) == token + Token(Ahead(c), k) && Rest(s, k) == Rest(Ahead(c), k)
        decreases |Ahead(c)|
      {
        AheadSplit(c);
        CollectStep(s, token, Ahead(c), k);
        if |token| >= LIMIT {
          return c, false;
        }
        token := token + [c.value];
        c := Read();
      }
      AheadSplit(c);
      RestStops(Ahead(c), k);
      fits := true;
    }

    /** The inner loop of `skip_comment`, after a dash: through the end of the comment, or past the dashes. */
    method SkipDashes(ghost start: nat) returns (ch: Option<char>, found: bool)
      requires Valid() && Real(Some('-')) && start < pos && NoneIn(input, "-->", start, pos - 1)
      modifies this`pos, this`line
      ensures Valid() && pos >= old(pos) && (ch.Some? ==> pos > old(pos))
      ensures found ==> input[pos..] == AfterFirst(input[start..], "-->")
      ensures !found ==> Real(ch) && ch != Some('-') && NoneIn(input, "-->", start, pos)
    {
      hide Find, Newlines, At, AfterFirst, Ahead, NoneIn;
      ch := Read();
      AfterDash(ch, start);
      while ch == Some('-')
        invariant Valid() && Real(ch) && start < pos && pos >= old(pos) && (ch.Some? ==> pos > old(pos))
        invariant ch == Some('-') ==> start < pos - 1 && input[pos - 2] == '-' && NoneIn(input, "-->", start, pos - 2)
        invariant ch != Some('-') ==> NoneIn(input, "-->", start, pos)
        decreases |input| - pos, ch.Some?
      {
        ch := Read();
        if ch == Some('>') {
          CommentEnds(start);
          return ch, true;
        }
        NotAt(input, "-->", start, if ch.Some? then pos - 3 else pos - 2, 2);
        AfterDash(ch, start);
      }
      found := false;
    }

    /** `skip_comment`: exactly through the first end of a comment, or to the end of the file. */
    method SkipComment()
      requires Valid()
      modifies this`pos, this`line
      ensures Valid() && input[pos..] == AfterFirst(old(input[pos..]), "-->")
    {
      hide Find, Newlines, At, AfterFirst, Ahead, NoneIn;
      ghost var start := pos;
      NoneYet(start);
      ghost var end := "-->";
      var ch := Read();
      while ch.Some?
        invariant Valid() && Real(ch) && start <= pos && (ch.Some? ==> start < pos)
        invariant NoneIn(input, end, start, if ch.Some? then pos - 1 else pos)
        decreases |input| - pos, ch.Some?
      {
        if ch != Some('-') {
          NotAt(input, end, start, pos - 1, 0);
        }
        while ch == Some('-')
          invariant Valid() && Real(ch) && start < pos
          invariant NoneIn(input, end, start, if ch == Some('-') then pos - 1 else pos)
          decreases |input| - pos, ch.Some?
        {
          var found;
          ch, found := SkipDashes(start);
          if found {
            return;
          }
        }
        ch := Read();
      }
      NoneAtEnd(end, start);
    }

    /** One dash, then a character: no comment ends here unless that is a dash as well. */
    lemma AfterDash(ch: Option<char>, start: nat)
      requires Valid() && Real(ch)
      requires var q := if ch.Some? then pos - 2 else pos - 1; start <= q && NoneIn(input, "-->", start, q)
      ensures ch != Some('-') ==> NoneIn(input, "-->", start, pos)
    {
      if ch.None? {
        NotAt(input, "-->", start, pos - 1, 1);
      } else if ch.value != '-' {
        NotAt(input, "-->", start, pos - 2, 1);
        NotAt(input, "-->", start, pos - 1, 0);
      }
    }

    lemma NoneYet(start: nat)
      ensures NoneIn(input, "-->", start, start) && NoneIn(input, "?>", start, start)
    {
    }

    lemma EndsHere(end: string, start: nat, m: nat)
      requires Valid() && start <= m && m + |end| == pos && input[m..pos] == end && NoneIn(input, end, start, m)
      ensures input[pos..] == AfterFirst(input[start..], end)
    {
      forall k | 0 <= k < |end| ensures input[m + k] == end[k] {
        assert input[m..pos][k] == end[k];
      }
      FindFrom(input, end, start, m);
    }

    lemma CommentEnds(start: nat)
      requires Valid() && start + 3 <= pos && NoneIn(input, "-->", start, pos - 3)
      requires input[pos - 3] == '-' && input[pos - 2] == '-' && input[pos - 1] == '>'
      ensures input[pos..] == AfterFirst(input[start..], "-->")
    {
      assert input[pos - 3..pos] == "-->";
      EndsHere("-->", start, pos - 3);
    }

    lemma PIEnds(start: nat)
      requires Valid() && start + 2 <= pos && NoneIn(input, "?>", start, pos - 2)
      requires input[pos - 2] == '?' && input[pos - 1] == '>'
      ensures input[pos..] == AfterFirst(input[start..], "?>")
    {
      assert input[pos - 2..pos] == "?>";
      EndsHere("?>", start, pos - 2);
    }

    lemma NoneAtEnd(end: string, start: nat)
      requires Valid() && pos == |input| && start <= pos && end != "" && NoneIn(input, end, start, pos)
      ensures AfterFirst(input[start..], end) == "" == input[pos..]
    {
      FindNone(input, end, start);
    }

    /** `skip_pi` */
    method SkipPI()
      requires Valid()
      modifies this`pos, this`line
      ensures Valid() && input[pos..] == AfterFirst(old(input[pos..]), "?>")
    {
      hide Find, Newlines, At, AfterFirst, Ahead, NoneIn;
      ghost var start := pos;
      NoneYet(start);
      ghost var end := "?>";
      var ch := Read();
      while ch.Some?
        invariant Valid() && Real(ch) && start <= pos && (ch.Some? ==> start < pos)
        invariant NoneIn(input, end, start, if ch.Some? then pos - 1 else pos)
        decreases |input| - pos, ch.Some?
      {
        if ch != Some('?') {
          NotAt(input, end, start, pos - 1, 0);
        }
        while ch == Some('?')
          invariant Valid() && Real(ch) && start < pos
          invariant NoneIn(input, end, start, if ch == Some('?') then pos - 1 else pos)
          decreases |input| - pos, ch.Some?
        {
          ch := Read();
          if ch == Some('>') {
            PIEnds(start);
            return;
          }
          NotAt(input, end, start, if ch.Some? then pos - 2 else pos - 1, 1);
          if ch.Some? && ch.value != '?' {
            NotAt(input, end, start, pos - 1, 0);
          }
        }
        ch := Read();
      }
      NoneAtEnd(end, start);
    }

    /** `skip_doctype` */
    method SkipDoctype()
      requires Valid()
      modifies this`pos, this`line
      ensures Valid() && input[pos..] == AfterDoctype(old(input[pos..]))
    {
      hide Newlines, Token, Rest;
      ghost var s := input[pos..];
      var ch := Read();
      while ch.Some?
        invariant Valid() && Real(ch)
        invariant AfterDoctype(s) == AfterDoctype(Ahead(ch))
        decreases |Ahead(ch)|
      {
        assert Ahead(ch)[1..] == input[pos..];
        if ch.value == '>' {
          return;
        } else if ch.value == '\"' || ch.value == '\'' {
          var quote := ch.value;
          ch := Read();
          ch := SkipClass(ch, AllBut(quote));
          assert ch.Some? ==> Ahead(ch)[1..] == input[pos..];
        }
        if ch.Some? {
          ch := Read();
        }
      }
    }
  }

  lemma RestStep(s: string, k: Class)
    requires s != "" && In(s[0], k)
    ensures Token(s, k) == [s[0]] + Token(s[1..], k) && Rest(s, k) == Rest(s[1..], k)
  {
  }

  lemma CollectStep(s: string, token: string, a: string, k: Class)
    requires a != "" && In(a[0], k) && Token(s, k) == token + Token(a, k) && Rest(s, k) == Rest(a, k)
    ensures Token(s, k) == token + [a[0]] + Token(a[1..], k) && Rest(s, k) == Rest(a[1..], k)
  {
  }

  lemma RestStops(s: string, k: Class)
    ensures s == "" || !In(s[0], k) ==> Token(s, k) == "" && Rest(s, k) == s
  {
  }
}
