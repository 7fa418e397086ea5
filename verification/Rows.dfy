/**
 * The registry as a table: nodes in the order they were created, each with the position of its
 * parent, its key and its value. The links a node carries are functions of this table.
 */
module Rows {
  import opened Wrappers

  datatype Rows = Rows(up: seq<int>, keys: seq<string>, values: seq<Option<string>>)

  const ROOT := Rows([-1], [""], [None])

  /** One tree: the root comes first, and every other node after its parent. */
  ghost predicate Proper(r: Rows)
  {
    && |r.up| == |r.keys| == |r.values| > 0
    && r.up[0] == -1
    && forall i :: 0 < i < |r.up| ==> 0 <= r.up[i] < i
  }

  function Added(r: Rows, parent: nat, key: string): Rows
  {
    Rows(r.up + [parent], r.keys + [key], r.values + [None])
  }

  function Valued(r: Rows, i: nat, v: string): Rows
    requires i < |r.values|
  {
    r.(values := r.values[i := Some(v)])
  }

  /** The first node at or after position j whose parent is p, or -1. */
  function ChildFrom(up: seq<int>, p: int, j: nat): (c: int)
    ensures c == -1 || j <= c < |up|
    ensures c >= 0 ==> up[c] == p
    ensures forall i :: j <= i < (if c >= 0 then c else |up|) ==> up[i] != p
    decreases |up| - j
  {
    if j >= |up| then -1 else if up[j] == p then j else ChildFrom(up, p, j + 1)
  }

  /** The last node before position j whose parent is p, or -1. */
  function ChildBefore(up: seq<int>, p: int, j: nat): (c: int)
    requires j <= |up|
    ensures -1 <= c < j
    ensures c >= 0 ==> up[c] == p
    ensures forall i :: c < i < j ==> up[i] != p
    decreases j
  {
    if j == 0 then -1 else if up[j - 1] == p then j - 1 else ChildBefore(up, p, j - 1)
  }

  function FirstChild(up: seq<int>, i: nat): int { ChildFrom(up, i, 0) }

  function LastChild(up: seq<int>, i: nat): int { ChildBefore(up, i, |up|) }

  function NextSibling(up: seq<int>, i: nat): int
    requires i < |up|
  {
    ChildFrom(up, up[i], i + 1)
  }

  function PrevSibling(up: seq<int>, i: nat): int
    requires i < |up|
  {
    ChildBefore(up, up[i], i)
  }

  predicate HasChild(up: seq<int>, i: nat) { LastChild(up, i) >= 0 }

  lemma {:induction false} ChildFromAppend(up: seq<int>, q: int, p: int, j: nat)
    requires j <= |up|
    ensures ChildFrom(up + [q], p, j)
         == if ChildFrom(up, p, j) >= 0 then ChildFrom(up, p, j) else if q == p then |up| else -1
    decreases |up| - j
  {
    if j < |up| {
      ChildFromAppend(up, q, p, j + 1);
    }
  }

  lemma {:induction false} ChildBeforeAppend(up: seq<int>, q: int, p: int, j: nat)
    requires j <= |up|
    ensures ChildBefore(up + [q], p, j) == ChildBefore(up, p, j)
    decreases j
  {
    if j == 0 {
    } else {
      ChildBeforeAppend(up, q, p, j - 1);
    }
  }

  /** What a new last child of p changes: p's last child, perhaps its first, and one next link. */
  lemma AppendLinks(up: seq<int>, p: nat, i: nat)
    requires p < |up| && i < |up| && (forall k :: 0 <= k < |up| ==> up[k] < |up|)
    ensures var next := up + [p];
            && FirstChild(next, i) == (if i == p && FirstChild(up, p) < 0 then |up| else FirstChild(up, i))
            && LastChild(next, i) == (if i == p then |up| else LastChild(up, i))
            && NextSibling(next, i) == (if i == LastChild(up, p) then |up| else NextSibling(up, i))
            && PrevSibling(next, i) == PrevSibling(up, i)
  {
    var next := up + [p];
    ChildFromAppend(up, p, i, 0);
    ChildBeforeAppend(up, p, i, |up|);
    ChildFromAppend(up, p, up[i], i + 1);
    ChildBeforeAppend(up, p, up[i], i);
    assert next[|up|] == p;
  }

  lemma AppendNew(up: seq<int>, p: nat)
    requires p < |up| && (forall k :: 0 <= k < |up| ==> up[k] < |up|)
    ensures var next := up + [p];
            && FirstChild(next, |up|) == -1 && LastChild(next, |up|) == -1
            && NextSibling(next, |up|) == -1 && PrevSibling(next, |up|) == LastChild(up, p)
  {
    var next := up + [p];
    ChildFromAppend(up, p, |up|, 0);
    ChildBeforeAppend(up, p, |up|, |up|);
    ChildBeforeAppend(up, p, p, |up|);
    assert next[|up|] == p;
  }

  /** A node has a first child exactly if it has a last one. */
  lemma FirstIffLast(up: seq<int>, i: nat)
    ensures FirstChild(up, i) >= 0 <==> LastChild(up, i) >= 0
  {
  }

  /** Next and previous are inverse, the ends of a sibling list are first and last. */
  lemma SiblingLinks(r: Rows, i: nat)
    requires Proper(r) && i < |r.up|
    ensures var n := NextSibling(r.up, i);
            if n >= 0 then r.up[n] == r.up[i] && PrevSibling(r.up, n) == i
            else i > 0 ==> LastChild(r.up, r.up[i]) == i
    ensures var n := PrevSibling(r.up, i);
            if n >= 0 then r.up[n] == r.up[i] && NextSibling(r.up, n) == i
            else i > 0 ==> FirstChild(r.up, r.up[i]) == i
    ensures i == 0 ==> NextSibling(r.up, 0) < 0 && PrevSibling(r.up, 0) < 0
  {
  }

  function Depth(r: Rows, i: nat): nat
    requires i < |r.up| && (forall k :: 0 <= k < |r.up| ==> -1 <= r.up[k] < k)
    decreases i
  {
    if r.up[i] < 0 then 0 else 1 + Depth(r, r.up[i])
  }

  /** A node's depth does not depend on what is created later. */
  lemma {:induction false} DepthPrefix(r: Rows, more: Rows, i: nat)
    requires Proper(r) && Proper(more) && r.up <= more.up && i < |r.up|
    ensures Depth(more, i) == Depth(r, i)
    decreases i
  {
    if r.up[i] >= 0 {
      DepthPrefix(r, more, r.up[i]);
    }
  }

  /** `cse_next_link` from position i: the first sibling at or after i with the key, or -1. */
  function Link(r: Rows, i: int, key: string): (l: int)
    requires Proper(r) && -1 <= i < |r.up|
    ensures -1 <= l < |r.up|
    ensures l >= 0 ==> 0 <= i <= l && r.keys[l] == key && r.up[l] == r.up[i]
    decreases if i < 0 then 0 else |r.up| - i
  {
    if i < 0 then -1 else if r.keys[i] == key then i else Link(r, NextSibling(r.up, i), key)
  }

  /** The link is the first sibling with the key: none before it has the key, and it is found if there is one. */
  lemma {:induction false} LinkIsFirst(r: Rows, i: nat, key: string, j: nat)
    requires Proper(r) && i <= j < |r.up| && r.up[j] == r.up[i] && r.keys[j] == key
    ensures i <= Link(r, i, key) <= j
    decreases |r.up| - i
  {
    if r.keys[i] != key {
      LinkIsFirst(r, NextSibling(r.up, i), key, j);
    }
  }

  /** The value of the first sibling at or after i with the key. */
  function ValueOf(r: Rows, i: int, key: string): Option<string>
    requires Proper(r) && -1 <= i < |r.up|
  {
    var l := Link(r, i, key);
    if l < 0 then None else r.values[l]
  }
}
