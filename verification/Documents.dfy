/**
 * Documents without their notation, the tables they build, and the way back from a table. Trees
 * are compared up to blank values of interior nodes.
 */
module Documents {
  import opened Wrappers
  import opened Rows
  import opened Markup

  /** A document without its notation. */
  datatype Doc = Doc(key: string, value: Option<string>, kids: seq<Doc>)

  /** The table a document builds below the node at position p. */
  function Build(r: Rows, p: nat, d: Doc): (b: Rows)
    requires |r.up| == |r.values|
    ensures |b.up| == |b.values| >= |r.up|
    decreases d, 1
  {
    var child := |r.up|;
    var r1 := Added(r, p, d.key);
    BuildAll(if d.value.None? then r1 else Valued(r1, child, d.value.value), child, d.kids)
  }

  function BuildAll(r: Rows, p: nat, ds: seq<Doc>): (b: Rows)
    requires |r.up| == |r.values|
    ensures |b.up| == |b.values| >= |r.up|
    decreases ds, 0
  {
    if ds == [] then r else BuildAll(Build(r, p, ds[0]), p, ds[1..])
  }

  // ---- Trees up to blank values of interior nodes ----

  predicate Blank(s: string) { forall i :: 0 <= i < |s| ==> IsBlank(s[i]) }

  /** The same tree, but interior nodes of the first may have a blank value the second lacks. */
  ghost predicate Like(a: Rows, b: Rows)
  {
    && a.up == b.up && a.keys == b.keys && |a.values| == |b.values| == |a.up|
    && forall i :: 0 <= i < |a.values| ==>
         a.values[i] == b.values[i]
         || (HasChild(a.up, i) && b.values[i].None? && a.values[i].Some? && Blank(a.values[i].value))
  }

  /** The table with blank values of interior nodes left out. */
  function Normal(r: Rows): (n: Rows)
    requires |r.up| == |r.values|
  {
    r.(values := seq(|r.values|, i requires 0 <= i < |r.values| =>
      if HasChild(r.up, i) && r.values[i].Some? && Blank(r.values[i].value) then None else r.values[i]))
  }

  lemma LikeNormal(a: Rows, b: Rows)
    requires Like(a, b)
    ensures Normal(a) == Normal(b)
  {
  }

  /** A child once there stays. */
  lemma ChildStays(up: seq<int>, q: int, i: nat)
    ensures HasChild(up, i) ==> HasChild(up + [q], i)
    ensures HasChild(up + [i], i)
  {
    ChildBeforeAppend(up, q, i, |up|);
    assert (up + [i])[|up|] == i;
    assert (up + [q])[|up|] == q;
  }

  lemma LikeAdded(a: Rows, b: Rows, p: nat, key: string)
    requires Like(a, b)
    ensures Like(Added(a, p, key), Added(b, p, key))
  {
    hide HasChild;
    forall i: nat ensures HasChild(a.up, i) ==> HasChild(a.up + [p], i) {
      ChildStays(a.up, p, i);
    }
  }

  lemma LikeValued(a: Rows, b: Rows, i: nat, v: string)
    requires Like(a, b) && i < |a.values|
    ensures Like(Valued(a, i, v), Valued(b, i, v))
  {
  }

  lemma LikeShape(a: Rows, b: Rows)
    requires Like(a, b)
    ensures a.up == b.up && a.keys == b.keys && |a.up| == |a.values| == |b.values|
  {
  }

  // ---- Shapes of built tables ----

  lemma LeafBuild(r: Rows, p: nat, key: string, v: string)
    requires |r.up| == |r.values|
    ensures Build(r, p, Doc(key, Some(v), [])) == Valued(Added(r, p, key), |r.up|, v)
  {
  }

  /** b has the rows of r and then rows whose parents are at or after a position. */
  ghost predicate Grows(r: Rows, b: Rows, from: nat)
  {
    && r.up <= b.up && r.keys <= b.keys && |b.up| == |b.keys| == |b.values|
    && forall i :: |r.up| <= i < |b.up| ==> b.up[i] >= from
  }

  lemma {:induction false} BuildGrows(r: Rows, p: nat, d: Doc)
    requires |r.up| == |r.keys| == |r.values| && p < |r.up|
    ensures var b := Build(r, p, d);
            && Grows(Added(r, p, d.key), b, |r.up|) && Grows(r, b, p)
            && |r.up| < |b.up| && b.up[|r.up|] == p && b.keys[|r.up|] == d.key
    decreases d, 1
  {
    var r1 := Added(r, p, d.key);
    var r2 := if d.value.None? then r1 else Valued(r1, |r.up|, d.value.value);
    BuildAllGrows(r2, |r.up|, d.kids);
    assert r1.up[|r.up|] == p && r1.keys[|r.up|] == d.key;
  }

  lemma {:induction false} BuildAllGrows(r: Rows, p: nat, ds: seq<Doc>)
    requires |r.up| == |r.keys| == |r.values| && p < |r.up|
    ensures Grows(r, BuildAll(r, p, ds), p)
    decreases ds, 0
  {
    if ds == [] {
    } else {
      BuildGrows(r, p, ds[0]);
      BuildAllGrows(Build(r, p, ds[0]), p, ds[1..]);
    }
  }

  lemma LastIs(up: seq<int>, p: nat, c: nat)
    requires c < |up| && up[c] == p && forall i :: c < i < |up| ==> up[i] != p
    ensures LastChild(up, p) == c
  {
  }

  /** The node a document builds is its parent's last child. */
  lemma BuiltIsLast(r: Rows, p: nat, d: Doc)
    requires |r.up| == |r.keys| == |r.values| && p < |r.up|
    ensures LastChild(Build(r, p, d).up, p) == |r.up| < |Build(r, p, d).keys|
    ensures Build(r, p, d).keys[|r.up|] == d.key
    ensures HasChild(Build(r, p, d).up, p)
  {
    BuildGrows(r, p, d);
    LastIs(Build(r, p, d).up, p, |r.up|);
  }

  lemma {:induction false} BuildAllAppend(r: Rows, p: nat, ds: seq<Doc>, es: seq<Doc>)
    requires |r.up| == |r.values|
    ensures BuildAll(r, p, ds + es) == BuildAll(BuildAll(r, p, ds), p, es)
    decreases |ds|
  {
    if ds == [] {
      assert ds + es == es;
    } else {
      assert (ds + es)[0] == ds[0] && (ds + es)[1..] == ds[1..] + es;
      BuildAllAppend(Build(r, p, ds[0]), p, ds[1..], es);
    }
  }

  lemma {:induction false} BuildProper(r: Rows, p: nat, d: Doc)
    requires Proper(r) && p < |r.up|
    ensures Proper(Build(r, p, d)) && |r.up| < |Build(r, p, d).up|
    decreases d, 1
  {
    var r1 := Added(r, p, d.key);
    BuildAllProper(if d.value.None? then r1 else Valued(r1, |r.up|, d.value.value), |r.up|, d.kids);
  }

  lemma {:induction false} BuildAllProper(r: Rows, p: nat, ds: seq<Doc>)
    requires Proper(r) && p < |r.up|
    ensures Proper(BuildAll(r, p, ds)) && |r.up| <= |BuildAll(r, p, ds).up|
    decreases ds, 0
  {
    if ds == [] {
    } else {
      BuildProper(r, p, ds[0]);
      BuildAllProper(Build(r, p, ds[0]), p, ds[1..]);
    }
  }

  lemma KidsHaveParent(r: Rows, p: nat, ds: seq<Doc>)
    requires |r.up| == |r.keys| == |r.values| && p < |r.up| && HasChild(r.up, p)
    ensures HasChild(BuildAll(r, p, ds).up, p)
  {
    hide BuildAll;
    BuildAllGrows(r, p, ds);
    var c := LastChild(r.up, p);
    assert BuildAll(r, p, ds).up[c] == p;
  }

  /** Building on like tables gives like tables. */
  lemma {:induction false} LikeBuild(a: Rows, b: Rows, p: nat, d: Doc)
    requires Like(a, b) && p < |a.up|
    ensures Like(Build(a, p, d), Build(b, p, d))
    decreases d, 1
  {
    hide Like;
    LikeShape(a, b);
    var child := |a.up|;
    LikeAdded(a, b, p, d.key);
    if d.value.Some? {
      LikeValued(Added(a, p, d.key), Added(b, p, d.key), child, d.value.value);
    }
    LikeBuildAll(if d.value.None? then Added(a, p, d.key) else Valued(Added(a, p, d.key), child, d.value.value),
                 if d.value.None? then Added(b, p, d.key) else Valued(Added(b, p, d.key), child, d.value.value),
                 child, d.kids);
  }

  lemma {:induction false} LikeBuildAll(a: Rows, b: Rows, p: nat, ds: seq<Doc>)
    requires Like(a, b) && p < |a.up|
    ensures Like(BuildAll(a, p, ds), BuildAll(b, p, ds))
    decreases ds, 0
  {
    hide Like, Build;
    LikeShape(a, b);
    if ds == [] {
    } else {
      LikeBuild(a, b, p, ds[0]);
      LikeBuildAll(Build(a, p, ds[0]), Build(b, p, ds[0]), p, ds[1..]);
    }
  }

  // ---- Back from the table ----

  /** The documents below node p, from its first child at or after a position. */
  function Docs(r: Rows, p: int, from: nat): seq<Doc>
    requires |r.up| == |r.keys| == |r.values|
    decreases |r.up| - from
  {
    var c := ChildFrom(r.up, p, from);
    if c < 0 then [] else [Doc(r.keys[c], r.values[c], Docs(r, c, c + 1))] + Docs(r, p, c + 1)
  }

  /** A document without blank values on elements that have children. */
  function Trim(d: Doc): Doc
    decreases d, 1
  {
    Doc(d.key, if d.kids != [] && d.value.Some? && Blank(d.value.value) then None else d.value, TrimAll(d.kids))
  }

  function TrimAll(ds: seq<Doc>): seq<Doc>
    decreases ds, 0
  {
    if ds == [] then [] else [Trim(ds[0])] + TrimAll(ds[1..])
  }

  lemma DocsSkip(r: Rows, p: int, i: nat, j: nat)
    requires |r.up| == |r.keys| == |r.values| && i <= j <= |r.up| && forall k :: i <= k < j ==> r.up[k] != p
    ensures Docs(r, p, i) == Docs(r, p, j)
    ensures j == |r.up| ==> Docs(r, p, i) == []
  {
  }

  lemma DocsAt(r: Rows, p: int, c: nat)
    requires |r.up| == |r.keys| == |r.values| && c < |r.up| && r.up[c] == p
    ensures Docs(r, p, c) == [Doc(r.keys[c], r.values[c], Docs(r, c, c + 1))] + Docs(r, p, c + 1)
  {
  }

  lemma {:induction false} BuildValues(r: Rows, p: nat, d: Doc)
    requires |r.up| == |r.values|
    ensures r.values + [d.value] <= Build(r, p, d).values
    decreases d, 1
  {
    var r1 := Added(r, p, d.key);
    var r2 := if d.value.None? then r1 else Valued(r1, |r.up|, d.value.value);
    BuildAllValues(r2, |r.up|, d.kids);
    assert r2.values == r.values + [d.value];
  }

  lemma {:induction false} BuildAllValues(r: Rows, p: nat, ds: seq<Doc>)
    requires |r.up| == |r.values|
    ensures r.values <= BuildAll(r, p, ds).values
    decreases ds, 0
  {
    if ds == [] {
    } else {
      BuildValues(r, p, ds[0]);
      BuildAllValues(Build(r, p, ds[0]), p, ds[1..]);
    }
  }

  /** The table begins with b, and no later row has its parent between two positions. */
  ghost predicate Before(b: Rows, full: Rows, lo: nat)
  {
    && |full.up| == |full.keys| == |full.values|
    && b.up <= full.up && b.keys <= full.keys && b.values <= full.values
    && forall i :: |b.up| <= i < |full.up| ==> !(lo <= full.up[i] < |b.up|)
  }

  lemma BeforeSelf(b: Rows)
    requires Proper(b)
    ensures Before(b, b, 1)
  {
  }

  /** The rows one document built. */
  lemma RowsOf(r: Rows, p: nat, d: Doc, full: Rows)
    requires |r.up| == |r.keys| == |r.values| && p < |r.up| && Before(Build(r, p, d), full, |r.up|)
    ensures var b := Build(r, p, d);
            && |r.up| < |b.up| && full.up[|r.up|] == p && full.keys[|r.up|] == d.key && full.values[|r.up|] == d.value
            && (forall k :: |r.up| < k < |b.up| ==> full.up[k] >= |r.up|)
            && (forall k :: |b.up| <= k < |full.up| ==> full.up[k] != |r.up|)
  {
    hide Build;
    var child, b := |r.up|, Build(r, p, d);
    BuildGrows(r, p, d);
    BuildValues(r, p, d);
    assert b.values[child] == (r.values + [d.value])[child] && full.values[child] == b.values[child];
    assert forall k :: child < k < |b.up| ==> full.up[k] == b.up[k];
  }

  /** Reading back what one document built. */
  lemma {:induction false} BuildDocs(r: Rows, p: nat, d: Doc, full: Rows)
    requires |r.up| == |r.keys| == |r.values| && p < |r.up| && Before(Build(r, p, d), full, |r.up|)
    ensures Docs(full, p, |r.up|) == [d] + Docs(full, p, |Build(r, p, d).up|)
    decreases d, 1
  {
    hide BuildAll, Docs;
    var child, b := |r.up|, Build(r, p, d);
    var r1 := Added(r, p, d.key);
    var r2 := if d.value.None? then r1 else Valued(r1, child, d.value.value);
    RowsOf(r, p, d, full);
    DocsAt(full, p, child);
    BuildAllDocs(r2, child, d.kids, full);
    DocsSkip(full, child, |b.up|, |full.up|);
    DocsSkip(full, p, child + 1, |b.up|);
    assert d.kids + [] == d.kids;
  }

  lemma {:induction false} BuildAllDocs(r: Rows, p: nat, ds: seq<Doc>, full: Rows)
    requires |r.up| == |r.keys| == |r.values| && p < |r.up| && Before(BuildAll(r, p, ds), full, |r.up|)
    ensures Docs(full, p, |r.up|) == ds + Docs(full, p, |BuildAll(r, p, ds).up|)
    decreases ds, 0
  {
    hide Build, Docs;
    if ds == [] {
      assert ds + Docs(full, p, |r.up|) == Docs(full, p, |r.up|);
    } else {
      var r1 := Build(r, p, ds[0]);
      FirstBefore(r, p, ds, full);
      BuildDocs(r, p, ds[0], full);
      BuildAllDocs(r1, p, ds[1..], full);
      assert ds == [ds[0]] + ds[1..];
    }
  }

  /** The rows of the first document come before all that follows. */
  lemma FirstBefore(r: Rows, p: nat, ds: seq<Doc>, full: Rows)
    requires ds != [] && |r.up| == |r.keys| == |r.values| && p < |r.up| && Before(BuildAll(r, p, ds), full, |r.up|)
    ensures var r1 := Build(r, p, ds[0]);
            && |r1.up| == |r1.keys| == |r1.values| > p && Before(r1, full, |r.up|)
            && BuildAll(r1, p, ds[1..]) == BuildAll(r, p, ds) && Before(BuildAll(r1, p, ds[1..]), full, |r1.up|)
  {
    hide Build;
    var r1, b := Build(r, p, ds[0]), BuildAll(r, p, ds);
    BuildGrows(r, p, ds[0]);
    assert b == BuildAll(r1, p, ds[1..]);
    hide BuildAll;
    BuildAllApart(r1, p, ds[1..]);
    BuildAllGrows(r1, p, ds[1..]);
    BuildAllValues(r1, p, ds[1..]);
    forall i | |r1.up| <= i < |full.up| ensures !(|r.up| <= full.up[i] < |r1.up|) {
      if i < |b.up| {
        assert full.up[i] == b.up[i];
      }
    }
  }

  /** New rows hang on the given node or on new ones. */
  lemma {:induction false} BuildAllApart(r: Rows, p: nat, ds: seq<Doc>)
    requires |r.up| == |r.keys| == |r.values| && p < |r.up|
    ensures var b := BuildAll(r, p, ds);
            forall i :: |r.up| <= i < |b.up| ==> b.up[i] == p || b.up[i] >= |r.up|
    decreases |ds|
  {
    hide Build;
    if ds == [] {
    } else {
      var r1, b := Build(r, p, ds[0]), BuildAll(r, p, ds);
      BuildGrows(r, p, ds[0]);
      BuildAllApart(r1, p, ds[1..]);
      BuildAllGrows(r1, p, ds[1..]);
      assert b == BuildAll(r1, p, ds[1..]);
      forall i | |r.up| <= i < |b.up| ensures b.up[i] == p || b.up[i] >= |r.up| {
        if i == |r.up| {
          assert b.up[i] == r1.up[i] == p;
        } else if i < |r1.up| {
          assert b.up[i] == r1.up[i] && i >= |Added(r, p, ds[0].key).up|;
          assert r1.up[i] >= |r.up|;
        } else {
          assert b.up[i] == p || b.up[i] >= |r1.up|;
        }
      }
    }
  }

  lemma NewIsLeaf(a: Rows, p: nat)
    requires Proper(a) && p < |a.up|
    ensures !HasChild(a.up + [p], |a.up|)
  {
  }

  /** A blank value put on a node that gets a child next. */
  lemma LikeBlank(a: Rows, b: Rows, p: nat, v: string, key: string)
    requires Like(a, b) && p < |a.values| && a.values[p].None? && Blank(v) && !HasChild(a.up, p)
    ensures Like(Added(Valued(a, p, v), p, key), Added(b, p, key))
  {
    hide HasChild;
    forall i: nat ensures HasChild(a.up, i) ==> HasChild(a.up + [p], i) {
      ChildStays(a.up, p, i);
    }
    ChildStays(a.up, p, p);
  }

  /** Trimming a document is leaving the blank values of interior rows out of its table. */
  lemma {:induction false} TrimBuild(a: Rows, b: Rows, p: nat, d: Doc)
    requires Proper(a) && a.up == b.up && |b.values| == |b.up| && p < |a.up|
    requires Like(Added(a, p, d.key), Added(b, p, d.key))
    ensures Like(Build(a, p, d), Build(b, p, Trim(d)))
    decreases d, 1
  {
    hide Like, Blank, HasChild;
    var child := |a.up|;
    var a1, b1 := Added(a, p, d.key), Added(b, p, d.key);
    if d.value.None? {
      TrimBuildAll(a1, b1, child, d.kids);
    } else {
      var a2 := Valued(a1, child, d.value.value);
      if d.kids == [] || !Blank(d.value.value) {
        LikeValued(a1, b1, child, d.value.value);
        TrimBuildAll(a2, Valued(b1, child, d.value.value), child, d.kids);
      } else {
        var k := d.kids[0];
        NewIsLeaf(a, p);
        LikeBlank(a1, b1, child, d.value.value, k.key);
        TrimBuild(a2, b1, child, k);
        BuildProper(a2, child, k);
        LikeShape(Build(a2, child, k), Build(b1, child, Trim(k)));
        TrimBuildAll(Build(a2, child, k), Build(b1, child, Trim(k)), child, d.kids[1..]);
        assert TrimAll(d.kids)[1..] == TrimAll(d.kids[1..]);
      }
    }
  }

  lemma {:induction false} TrimBuildAll(a: Rows, b: Rows, p: nat, ds: seq<Doc>)
    requires Proper(a) && Like(a, b) && p < |a.up|
    ensures Like(BuildAll(a, p, ds), BuildAll(b, p, TrimAll(ds)))
    decreases ds, 0
  {
    hide Like, Build, Trim;
    LikeShape(a, b);
    if ds == [] {
    } else {
      LikeAdded(a, b, p, ds[0].key);
      TrimBuild(a, b, p, ds[0]);
      BuildProper(a, p, ds[0]);
      LikeShape(Build(a, p, ds[0]), Build(b, p, Trim(ds[0])));
      TrimBuildAll(Build(a, p, ds[0]), Build(b, p, Trim(ds[0])), p, ds[1..]);
      assert TrimAll(ds)[1..] == TrimAll(ds[1..]);
    }
  }

  lemma ChildAfter(r: Rows, c: nat)
    requires Proper(r) && c < |r.up|
    ensures HasChild(r.up, c) <==> ChildFrom(r.up, c, c + 1) >= 0
  {
  }

  lemma OneMoreDoc(d: Doc, ds: seq<Doc>)
    ensures TrimAll([d] + ds) == [Trim(d)] + TrimAll(ds)
  {
  }

  lemma {:induction false} DocsTrim(r: Rows, p: int, from: nat)
    requires Proper(r)
    ensures Docs(Normal(r), p, from) == TrimAll(Docs(r, p, from))
    decreases |r.up| - from
  {
    hide HasChild, ChildFrom, Blank, Trim, TrimAll;
    var c := ChildFrom(r.up, p, from);
    if c < 0 {
      NoDocs();
    } else {
      DocsTrim(r, c, c + 1);
      DocsTrim(r, p, c + 1);
      NormalValue(r, c);
      OneMoreDoc(Doc(r.keys[c], r.values[c], Docs(r, c, c + 1)), Docs(r, p, c + 1));
    }
  }

  lemma NoDocs()
    ensures TrimAll([]) == []
  {
  }

  /** A node's value is left out of the normal table as it is of the trimmed document. */
  lemma NormalValue(r: Rows, c: nat)
    requires Proper(r) && c < |r.up|
    ensures |Normal(r).up| == |Normal(r).keys| == |Normal(r).values| == |r.up|
    ensures Trim(Doc(r.keys[c], r.values[c], Docs(r, c, c + 1)))
         == Doc(r.keys[c], Normal(r).values[c], TrimAll(Docs(r, c, c + 1)))
  {
    ChildAfter(r, c);
    hide HasChild, ChildFrom, Blank, TrimAll;
  }

  // ---- Lookups ----

  lemma SameNormal(a: Rows, b: Rows)
    requires Proper(a) && Proper(b) && Normal(a) == Normal(b)
    ensures a.up == b.up && a.keys == b.keys
    ensures forall i :: 0 <= i < |a.values| && !HasChild(a.up, i) ==> a.values[i] == b.values[i]
  {
    hide HasChild;
    assert a.up == Normal(a).up && b.up == Normal(b).up;
    forall i | 0 <= i < |a.values| && !HasChild(a.up, i) ensures a.values[i] == b.values[i] {
      assert Normal(a).values[i] == a.values[i] && Normal(b).values[i] == b.values[i];
    }
  }

  /** On such trees every lookup finds the same node, and the same value where it has no children. */
  lemma {:induction false} LookupsAgree(a: Rows, b: Rows, i: int, key: string)
    requires Proper(a) && Proper(b) && Normal(a) == Normal(b) && -1 <= i < |a.up|
    ensures a.up == b.up && Link(a, i, key) == Link(b, i, key)
    ensures var l := Link(a, i, key);
            l >= 0 && !HasChild(a.up, l) ==> a.values[l] == b.values[l]
    decreases if i < 0 then 0 else |a.up| - i
  {
    SameNormal(a, b);
    if i >= 0 && a.keys[i] != key {
      LookupsAgree(a, b, NextSibling(a.up, i), key);
    }
  }
}
