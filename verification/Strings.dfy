/** `strstr`, and what it finds in joined strings. */
module Strings {
  import opened Wrappers

  predicate At(s: string, pat: string, i: nat)
  {
    i + |pat| <= |s| && forall k :: 0 <= k < |pat| ==> s[i + k] == pat[k]
  }

  lemma AtMeaning(s: string, pat: string, i: nat)
    ensures At(s, pat, i) <==> i + |pat| <= |s| && s[i..i + |pat|] == pat
  {
    if At(s, pat, i) {
      assert s[i..i + |pat|] == pat;
    } else if i + |pat| <= |s| {
      var k :| 0 <= k < |pat| && s[i + k] != pat[k];
      assert s[i..i + |pat|][k] != pat[k];
    }
  }

  /** What is found is what is there, and nothing is missed. */
  lemma FoundIffThere(s: string, pat: string)
    ensures Find(s, pat).Some? <==> exists a, b :: s == a + pat + b
  {
    hide At;
    if Find(s, pat).Some? {
      var i := Find(s, pat).value;
      CutAt(s, pat, i);
      assert s == s[..i] + pat + s[i + |pat|..];
    }
    if a, b :| s == a + pat + b {
      ThereAt(a, pat, b);
    }
  }

  lemma CutAt(s: string, pat: string, i: nat)
    requires At(s, pat, i)
    ensures i + |pat| <= |s| && s == s[..i] + pat + s[i + |pat|..]
  {
    AtMeaning(s, pat, i);
    assert s == s[..i] + s[i..i + |pat|] + s[i + |pat|..];
  }

  lemma ThereAt(a: string, pat: string, b: string)
    ensures At(a + pat + b, pat, |a|)
  {
    assert forall k :: 0 <= k < |pat| ==> (a + pat + b)[|a| + k] == pat[k];
  }

  lemma AtTail(s: string, pat: string)
    requires s != []
    ensures forall i: nat :: i > 0 ==> (At(s, pat, i) <==> At(s[1..], pat, i - 1))
  {
  }

  /** The first occurrence of pat in s. */
  function Find(s: string, pat: string): (m: Option<nat>)
    ensures m.Some? ==> At(s, pat, m.value) && forall i :: 0 <= i < m.value ==> !At(s, pat, i)
    ensures m.None? ==> forall i: nat :: !At(s, pat, i)
    decreases |s|
  {
    if At(s, pat, 0) then Some(0)
    else if s == [] then None
    else
      var m := Find(s[1..], pat);
      AtTail(s, pat);
      if m.None? then None else Some(m.value + 1)
  }

  /**
   * A pattern whose first character does not recur in it cannot straddle the join: its first
   * occurrence in s + pat + t is the one that was appended.
   */
  lemma FindAppended(s: string, pat: string, t: string)
    requires pat != [] && (forall i :: 0 < i < |pat| ==> pat[i] != pat[0])
    requires Find(s, pat).None?
    ensures Find(s + pat + t, pat) == Some(|s|)
  {
    var all := s + pat + t;
    forall i: nat | i < |s|
      ensures !At(all, pat, i)
    {
      NotBeforeJoin(s, pat, t, i);
    }
    assert At(all, pat, |s|);
    FindUnique(all, pat, |s|);
  }

  lemma NotBeforeJoin(s: string, pat: string, t: string, i: nat)
    requires pat != [] && (forall k :: 0 < k < |pat| ==> pat[k] != pat[0])
    requires i < |s| && !At(s, pat, i)
    ensures !At(s + pat + t, pat, i)
  {
    var all := s + pat + t;
    if i + |pat| <= |s| {
      var k :| 0 <= k < |pat| && s[i + k] != pat[k];
      assert all[i + k] == s[i + k];
    } else {
      var k := |s| - i;
      assert all[i + k] == pat[0] != pat[k];
    }
  }

  lemma FindUnique(s: string, pat: string, m: nat)
    requires At(s, pat, m) && forall i: nat :: i < m ==> !At(s, pat, i)
    ensures Find(s, pat) == Some(m)
  {
  }

  lemma FindEmpty(s: string)
    ensures Find(s, "") == Some(0)
  {
  }

  /** No occurrence starts at any position in a range. */
  ghost predicate NoneIn(s: string, pat: string, from: nat, to: nat)
  {
    forall j: nat :: from <= j < to ==> !At(s, pat, j)
  }

  /** A character that does not fit rules one more position out. */
  lemma NotAt(s: string, pat: string, from: nat, j: nat, k: nat)
    requires k < |pat| && (j + k >= |s| || s[j + k] != pat[k])
    requires NoneIn(s, pat, from, j)
    ensures NoneIn(s, pat, from, j + 1)
  {
  }

  lemma AtShifted(s: string, pat: string, from: nat, i: nat)
    requires from <= |s| && from <= i
    ensures At(s, pat, i) <==> At(s[from..], pat, i - from)
  {
  }

  /** The first occurrence at or after a position, found in the whole string. */
  lemma FindFrom(s: string, pat: string, from: nat, m: nat)
    requires from <= m && At(s, pat, m) && NoneIn(s, pat, from, m)
    ensures Find(s[from..], pat) == Some(m - from)
  {
    AtShifted(s, pat, from, m);
    forall j: nat | j < m - from ensures !At(s[from..], pat, j) {
      AtShifted(s, pat, from, from + j);
    }
    FindUnique(s[from..], pat, m - from);
  }

  lemma FindNone(s: string, pat: string, from: nat)
    requires from <= |s| && NoneIn(s, pat, from, |s| + 1)
    ensures Find(s[from..], pat) == None
  {
    forall j: nat ensures !At(s[from..], pat, j) {
      if from + j <= |s| {
        AtShifted(s, pat, from, from + j);
      }
    }
  }
}
