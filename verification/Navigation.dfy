/** Depth-first navigation over a linked document: next and previous node, next and previous page. */
module Navigation {
  import opened Wrappers

  /** The links a DOM node carries, and whether it is a page element. */
  datatype Links = Links(
    parentNode: Option<nat>,
    firstChild: Option<nat>,
    lastChild: Option<nat>,
    previousSibling: Option<nat>,
    nextSibling: Option<nat>,
    isPage: bool)

  type Dom = map<nat, Links>

  /** A finite ordered tree of node ids. */
  datatype Tree = Tree(id: nat, kids: seq<Tree>)

  /** Document order: a node, then its children's subtrees one after the other. */
  function Preorder(t: Tree): (order: seq<nat>)
    ensures order != []
    decreases t, 1
  {
    [t.id] + PreorderAll(t.kids)
  }

  function PreorderAll(ts: seq<Tree>): seq<nat>
    decreases ts, 0
  {
    if ts == [] then [] else Preorder(ts[0]) + PreorderAll(ts[1..])
  }

  function FirstId(ts: seq<Tree>): Option<nat> { if ts == [] then None else Some(ts[0].id) }

  function LastId(ts: seq<Tree>): Option<nat> { if ts == [] then None else Some(ts[|ts| - 1].id) }

  /** The links of every node of the tree are those a DOM gives it. */
  ghost predicate Linked(d: Dom, t: Tree, parent: Option<nat>, prev: Option<nat>, next: Option<nat>)
    decreases t, 1
  {
    && t.id in d
    && d[t.id].parentNode == parent && d[t.id].previousSibling == prev && d[t.id].nextSibling == next
    && d[t.id].firstChild == FirstId(t.kids) && d[t.id].lastChild == LastId(t.kids)
    && LinkedAll(d, t.kids, Some(t.id), None)
  }

  ghost predicate LinkedAll(d: Dom, ts: seq<Tree>, parent: Option<nat>, prev: Option<nat>)
    decreases ts, 0
  {
    ts == []
    || (Linked(d, ts[0], parent, prev, FirstId(ts[1..])) && LinkedAll(d, ts[1..], parent, Some(ts[0].id)))
  }

  /** A whole document: nothing above the root or beside it. */
  ghost predicate Document(d: Dom, t: Tree)
  {
    Linked(d, t, None, None, None)
  }

  // ---- The document laid out in document order, each node with the positions of its relatives ----

  /** `end`: just past the node's subtree; `up`, `before`, `tail`: parent, previous sibling, last child, or -1. */
  datatype Spot = Spot(id: nat, up: int, before: int, tail: int, end: nat)

  function Size(t: Tree): nat { |Preorder(t)| }

  function TailOf(ts: seq<Tree>, base: nat): int
  {
    if ts == [] then -1 else if |ts| == 1 then base else TailOf(ts[1..], base + Size(ts[0]))
  }

  function Layout(t: Tree, base: nat, up: int, before: int): (spots: seq<Spot>)
    ensures |spots| == Size(t) > 0
    decreases t, 1
  {
    [Spot(t.id, up, before, TailOf(t.kids, base + 1), base + Size(t))] + LayoutAll(t.kids, base + 1, base, -1)
  }

  function LayoutAll(ts: seq<Tree>, base: nat, up: int, before: int): (spots: seq<Spot>)
    ensures |spots| == |PreorderAll(ts)|
    decreases ts, 0
  {
    if ts == [] then [] else
      Layout(ts[0], base, up, before) + LayoutAll(ts[1..], base + Size(ts[0]), up, base)
  }

  /** The layout lists the nodes in document order. */
  lemma {:induction false} LayoutIds(t: Tree, base: nat, up: int, before: int)
    ensures forall k :: 0 <= k < Size(t) ==> Layout(t, base, up, before)[k].id == Preorder(t)[k]
    decreases t, 1
  {
    LayoutAllIds(t.kids, base + 1, base, -1);
  }

  lemma {:induction false} LayoutAllIds(ts: seq<Tree>, base: nat, up: int, before: int)
    ensures forall k :: 0 <= k < |PreorderAll(ts)| ==> LayoutAll(ts, base, up, before)[k].id == PreorderAll(ts)[k]
    decreases ts, 0
  {
    if ts == [] {
    } else {
      LayoutIds(ts[0], base, up, before);
      LayoutAllIds(ts[1..], base + Size(ts[0]), up, base);
    }
  }

  /** What the links of the node at position p say, in positions. */
  ghost predicate Fact(d: Dom, spots: seq<Spot>, p: nat)
    requires p < |spots|
  {
    var s := spots[p];
    && s.id in d && -1 <= s.up < p < s.end <= |spots|
    && (if s.up < 0 then p == 0 && s.end == |spots| && d[s.id].parentNode == None && d[s.id].nextSibling == None
        else
          && d[s.id].parentNode == Some(spots[s.up].id) && s.end <= spots[s.up].end <= |spots|
          && d[s.id].nextSibling == if s.end < spots[s.up].end then Some(spots[s.end].id) else None)
    && d[s.id].firstChild == (if p + 1 < s.end then Some(spots[p + 1].id) else None)
    && (if s.tail < 0 then s.end == p + 1 && d[s.id].lastChild == None
        else p < s.tail < |spots| && spots[s.tail].end == s.end && d[s.id].lastChild == Some(spots[s.tail].id))
    && (if s.before < 0 then s.up == p - 1 && d[s.id].previousSibling == None
        else s.before < p && spots[s.before].end == p && d[s.id].previousSibling == Some(spots[s.before].id))
  }

  /** The surroundings of a run of siblings that starts at position base below position up. */
  ghost predicate Around(d: Dom, spots: seq<Spot>, base: nat, end: nat, up: int, before: int, parent: Option<nat>,
                         prev: Option<nat>)
  {
    && base <= end <= |spots|
    && 0 <= up < base && spots[up].end == end && parent == Some(spots[up].id)
    && -1 <= before < base
    && (if before < 0 then up == base - 1 && prev == None
        else spots[before].end == base && prev == Some(spots[before].id))
  }

  lemma LayoutHead(t: Tree, base: nat, up: int, before: int)
    ensures Layout(t, base, up, before)[0].id == t.id
    ensures Layout(t, base, up, before)[0].end == base + Size(t)
  {
  }

  lemma LayoutCons(ts: seq<Tree>, base: nat, up: int, before: int)
    requires ts != []
    ensures LayoutAll(ts, base, up, before)
         == Layout(ts[0], base, up, before) + LayoutAll(ts[1..], base + Size(ts[0]), up, base)
    ensures |PreorderAll(ts)| == Size(ts[0]) + |PreorderAll(ts[1..])|
  {
  }

  lemma {:induction false} TailIsLast(ts: seq<Tree>, base: nat, up: int, before: int)
    requires ts != []
    ensures var tail := TailOf(ts, base);
            && base <= tail < base + |PreorderAll(ts)|
            && LayoutAll(ts, base, up, before)[tail - base].end == base + |PreorderAll(ts)|
            && Some(LayoutAll(ts, base, up, before)[tail - base].id) == LastId(ts)
    decreases |ts|
  {
    hide Layout, LayoutAll, Preorder, PreorderAll, Size;
    NoSiblings(ts[1..]);
    LayoutCons(ts, base, up, before);
    LayoutHead(ts[0], base, up, before);
    if |ts| > 1 {
      TailIsLast(ts[1..], base + Size(ts[0]), up, base);
    }
  }

  /** Siblings, one at a time. */
  lemma Siblings(d: Dom, ts: seq<Tree>, base: nat, up: int, before: int, parent: Option<nat>, prev: Option<nat>)
    requires ts != [] && LinkedAll(d, ts, parent, prev)
    ensures |PreorderAll(ts)| == Size(ts[0]) + |PreorderAll(ts[1..])|
    ensures LayoutAll(ts, base, up, before)
         == Layout(ts[0], base, up, before) + LayoutAll(ts[1..], base + Size(ts[0]), up, base)
    ensures Linked(d, ts[0], parent, prev, FirstId(ts[1..])) && LinkedAll(d, ts[1..], parent, Some(ts[0].id))
    ensures LinkedAll(d, ts[0].kids, Some(ts[0].id), None)
    ensures Layout(ts[0], base, up, before)[0].id == ts[0].id
    ensures Layout(ts[0], base, up, before)[0].end == base + Size(ts[0])
  {
  }

  lemma NoSiblings(ts: seq<Tree>)
    ensures ts == [] ==> PreorderAll(ts) == []
  {
  }

  /** One subtree of a laid-out document whose surroundings are known. */
  lemma {:induction false} SubtreeFacts(d: Dom, t: Tree, spots: seq<Spot>, base: nat, up: int, before: int)
    requires base + Size(t) <= |spots| && spots[base..base + Size(t)] == Layout(t, base, up, before)
    requires LinkedAll(d, t.kids, Some(t.id), None)
    requires Fact(d, spots, base)
    ensures forall p :: base <= p < base + Size(t) ==> Fact(d, spots, p)
    decreases t, 1
  {
    var n := Size(t);
    assert spots[base] == spots[base..base + n][0];
    assert spots[base + 1..base + n] == spots[base..base + n][1..] == LayoutAll(t.kids, base + 1, base, -1);
    SiblingFacts(d, t.kids, spots, base + 1, base, -1, Some(t.id), None);
  }

  /** The siblings from position base on. */
  lemma {:induction false} SiblingFacts(d: Dom, ts: seq<Tree>, spots: seq<Spot>, base: nat, up: int, before: int,
                                        parent: Option<nat>, prev: Option<nat>)
    requires Around(d, spots, base, base + |PreorderAll(ts)|, up, before, parent, prev)
    requires spots[base..base + |PreorderAll(ts)|] == LayoutAll(ts, base, up, before)
    requires LinkedAll(d, ts, parent, prev)
    ensures forall p :: base <= p < base + |PreorderAll(ts)| ==> Fact(d, spots, p)
    decreases ts, 0
  {
    hide Fact, TailOf, Layout, LayoutAll, Preorder, PreorderAll, Linked, LinkedAll, Size, FirstId;
    NoSiblings(ts);
    if ts == [] {
    } else {
      Siblings(d, ts, base, up, before, parent, prev);
      var t, rest := ts[0], ts[1..];
      var mid, end := base + Size(t), base + |PreorderAll(ts)|;
      var seg := spots[base..end];
      assert spots[base..mid] == seg[..Size(t)] == Layout(t, base, up, before);
      assert spots[mid..end] == seg[Size(t)..] == LayoutAll(rest, mid, up, base);
      assert spots[base] == Layout(t, base, up, before)[0];
      HeadFact(d, t, rest, spots, base, up, before, parent, prev);
      SubtreeFacts(d, t, spots, base, up, before);
      SiblingFacts(d, rest, spots, mid, up, base, parent, Some(t.id));
    }
  }

  /** The first of the siblings. */
  lemma HeadFact(d: Dom, t: Tree, rest: seq<Tree>, spots: seq<Spot>, base: nat, up: int, before: int,
                 parent: Option<nat>, prev: Option<nat>)
    requires Around(d, spots, base, base + Size(t) + |PreorderAll(rest)|, up, before, parent, prev)
    requires spots[base..base + Size(t)] == Layout(t, base, up, before)
    requires spots[base + Size(t)..base + Size(t) + |PreorderAll(rest)|] == LayoutAll(rest, base + Size(t), up, base)
    requires Linked(d, t, parent, prev, FirstId(rest))
    ensures Fact(d, spots, base)
  {
    var mid := base + Size(t);
    var kids := LayoutAll(t.kids, base + 1, base, -1);
    assert spots[base] == spots[base..mid][0];
    assert spots[base + 1..mid] == spots[base..mid][1..] == kids;
    if rest != [] {
      assert spots[mid] == LayoutAll(rest, mid, up, base)[0];
    }
    KidsFact(t, spots, base, mid);
  }

  /** First and last child, in positions. */
  lemma KidsFact(t: Tree, spots: seq<Spot>, base: nat, mid: nat)
    requires mid == base + Size(t) <= |spots|
    requires spots[base + 1..mid] == LayoutAll(t.kids, base + 1, base, -1)
    ensures if t.kids == [] then mid == base + 1 else
              && base + 1 < mid && FirstId(t.kids) == Some(spots[base + 1].id)
              && var tail := TailOf(t.kids, base + 1);
                 base < tail < mid && spots[tail].end == mid && LastId(t.kids) == Some(spots[tail].id)
  {
    var kids := LayoutAll(t.kids, base + 1, base, -1);
    if t.kids != [] {
      TailIsLast(t.kids, base + 1, base, -1);
      assert spots[base + 1] == spots[base + 1..mid][0] == kids[0];
      var tail := TailOf(t.kids, base + 1);
      assert spots[tail] == spots[base + 1..mid][tail - base - 1];
    }
  }

  ghost function Spots(t: Tree): (spots: seq<Spot>)
    ensures |spots| == Size(t) > 0
  {
    Layout(t, 0, -1, -1)
  }

  /** A document's links say what its layout says. */
  lemma DocumentFacts(d: Dom, t: Tree)
    requires Document(d, t)
    ensures forall p :: 0 <= p < Size(t) ==> Fact(d, Spots(t), p)
    ensures forall p :: 0 <= p < Size(t) ==> Spots(t)[p].id == Preorder(t)[p]
  {
    LayoutIds(t, 0, -1, -1);
    var spots := Spots(t);
    assert spots[0..Size(t)] == spots;
    RootFact(d, t);
    SubtreeFacts(d, t, spots, 0, -1, -1);
  }

  lemma RootFact(d: Dom, t: Tree)
    requires Document(d, t)
    ensures Fact(d, Spots(t), 0)
  {
    hide LayoutAll, PreorderAll, LinkedAll;
    var spots := Spots(t);
    assert spots[1..Size(t)] == LayoutAll(t.kids, 1, 0, -1);
    KidsFact(t, spots, 0, Size(t));
    if t.kids == [] {
      assert TailOf(t.kids, 1) == -1;
    }
  }

  /** The links alone keep every two positions apart. */
  lemma {:induction false} PositionsDiffer(d: Dom, t: Tree, p: nat, q: nat)
    requires Document(d, t) && p < Size(t) && q < Size(t) && Preorder(t)[p] == Preorder(t)[q]
    ensures p == q
    decreases p + q
  {
    hide Spots, Preorder, Document;
    DocumentFacts(d, t);
    var spots := Spots(t);
    assert Fact(d, spots, p) && Fact(d, spots, q);
    assert spots[p].id == spots[q].id;
    if spots[p].up >= 0 && spots[q].up >= 0 {
      PositionsDiffer(d, t, spots[p].up, spots[q].up);
      if spots[p].before >= 0 && spots[q].before >= 0 {
        PositionsDiffer(d, t, spots[p].before, spots[q].before);
      }
    }
  }

  // ---- The navigation functions ----

  /** The node after position k of the order, or none. */
  function After(order: seq<nat>, k: nat): Option<nat> { if k + 1 < |order| then Some(order[k + 1]) else None }

  function Before(order: seq<nat>, k: nat): Option<nat>
    requires k < |order|
  {
    if k > 0 then Some(order[k - 1]) else None
  }

  /** `getNext`: the first child, or the next sibling of the nearest ancestor that has one. */
  method GetNext(d: Dom, here: Option<nat>, ghost t: Tree, ghost k: nat) returns (next: Option<nat>)
    requires Document(d, t) && (here.Some? ==> k < Size(t) && Preorder(t)[k] == here.value)
    ensures here.None? ==> next == None
    ensures here.Some? ==> next == After(Preorder(t), k)
  {
    hide Spots, Preorder, Document;
    if here.None? {
      return None;
    }
    DocumentFacts(d, t);
    ghost var spots := Spots(t);
    assert Fact(d, spots, k);
    if d[here.value].firstChild.Some? {
      return d[here.value].firstChild;
    }
    var node := here;
    ghost var p: int := k;
    while node.Some?
      invariant node.Some? ==> 0 <= p < |spots| && spots[p].id == node.value && spots[p].end == k + 1
      invariant node.None? ==> k + 1 == |spots|
      decreases node.Some?, p
    {
      assert Fact(d, spots, p);
      if d[node.value].nextSibling.Some? {
        return d[node.value].nextSibling;
      }
      node := d[node.value].parentNode;
      if node.Some? {
        p := spots[p].up;
      }
    }
    return None;
  }

  /** `getPrevious`: the deepest last descendant of the previous sibling, or the parent. */
  method GetPrevious(d: Dom, here: Option<nat>, ghost t: Tree, ghost k: nat) returns (previous: Option<nat>)
    requires Document(d, t) && (here.Some? ==> k < Size(t) && Preorder(t)[k] == here.value)
    ensures here.None? ==> previous == None
    ensures here.Some? ==> previous == Before(Preorder(t), k)
  {
    hide Spots, Preorder, Document;
    if here.None? {
      return None;
    }
    DocumentFacts(d, t);
    ghost var spots := Spots(t);
    assert Fact(d, spots, k);
    if d[here.value].previousSibling.Some? {
      var node := d[here.value].previousSibling.value;
      ghost var p := spots[k].before;
      assert Fact(d, spots, p);
      while d[node].lastChild.Some?
        invariant 0 <= p < k && spots[p].id == node && spots[p].end == k && node in d
        decreases k - p
      {
        assert Fact(d, spots, p);
        node := d[node].lastChild.value;
        p := spots[p].tail;
        assert Fact(d, spots, p);
      }
      assert Fact(d, spots, p);
      return Some(node);
    }
    return d[here.value].parentNode;
  }

  lemma RootFirst(t: Tree)
    ensures Size(t) > 0 && Preorder(t)[0] == t.id
  {
  }

  /** Iterating `getNext` from the root visits every node once, in document order, and stops. */
  method VisitAll(d: Dom, t: Tree) returns (visited: seq<nat>)
    requires Document(d, t)
    ensures visited == Preorder(t)
    ensures forall i, j :: 0 <= i < j < |visited| ==> visited[i] != visited[j]
  {
    hide Spots, Preorder, Document;
    forall i, j | 0 <= i < j < Size(t) ensures Preorder(t)[i] != Preorder(t)[j] {
      if Preorder(t)[i] == Preorder(t)[j] {
        PositionsDiffer(d, t, i, j);
      }
    }
    visited := [];
    RootFirst(t);
    var here := Some(t.id);
    while here.Some?
      invariant |visited| <= Size(t) && visited == Preorder(t)[..|visited|]
      invariant here == if |visited| < Size(t) then Some(Preorder(t)[|visited|]) else None
      decreases Size(t) - |visited|
    {
      ghost var k := |visited|;
      visited := visited + [here.value];
      here := GetNext(d, here, t, k);
    }
  }

  /** `getPrevious` undoes `getNext` at every node. */
  method StepAndBack(d: Dom, t: Tree, k: nat) returns (there: Option<nat>, back: Option<nat>)
    requires Document(d, t) && k < Size(t)
    ensures there.Some? <==> k + 1 < Size(t)
    ensures there.Some? ==> back == Some(Preorder(t)[k])
  {
    hide Spots, Preorder, Document;
    there := GetNext(d, Some(Preorder(t)[k]), t, k);
    back := GetPrevious(d, there, t, k + 1);
  }

  /** `getNext` undoes `getPrevious` at every node. */
  method BackAndStep(d: Dom, t: Tree, k: nat) returns (there: Option<nat>, back: Option<nat>)
    requires Document(d, t) && k < Size(t)
    ensures there.Some? <==> k > 0
    ensures there.Some? ==> back == Some(Preorder(t)[k])
  {
    hide Spots, Preorder, Document;
    there := GetPrevious(d, Some(Preorder(t)[k]), t, k);
    back := None;
    if there.Some? {
      back := GetNext(d, there, t, k - 1);
    }
  }

  predicate Page(d: Dom, id: nat) { id in d && d[id].isPage }

  /** r is the position of the nearest page after k. */
  ghost predicate NextPage(d: Dom, order: seq<nat>, k: nat, r: nat)
  {
    k < r < |order| && Page(d, order[r]) && forall j :: k < j < r ==> !Page(d, order[j])
  }

  ghost predicate NoPageIn(d: Dom, order: seq<nat>, from: nat, to: nat)
  {
    to <= |order| && forall j :: from <= j < to ==> !Page(d, order[j])
  }

  /** `getNextPage`: r is where the page was found. */
  method GetNextPage(d: Dom, here: nat, ghost t: Tree, ghost k: nat) returns (page: Option<nat>, ghost r: nat)
    requires Document(d, t) && k < Size(t) && Preorder(t)[k] == here
    ensures page.Some? ==> NextPage(d, Preorder(t), k, r) && page.value == Preorder(t)[r]
    ensures page.None? ==> NoPageIn(d, Preorder(t), k + 1, Size(t))
  {
    hide Spots, Preorder, Document;
    DocumentFacts(d, t);
    page := GetNext(d, Some(here), t, k);
    r := k + 1;
    while page.Some?
      invariant k < r <= Size(t) && page == (if r < Size(t) then Some(Preorder(t)[r]) else None)
      invariant NoPageIn(d, Preorder(t), k + 1, r)
      decreases Size(t) - r
    {
      assert Fact(d, Spots(t), r);
      if d[page.value].isPage {
        return;
      }
      page := GetNext(d, page, t, r);
      r := r + 1;
    }
  }

  /** `getPreviousPage`: r is where the page was found. */
  method GetPreviousPage(d: Dom, here: nat, ghost t: Tree, ghost k: nat) returns (page: Option<nat>, ghost r: nat)
    requires Document(d, t) && k < Size(t) && Preorder(t)[k] == here
    ensures page.Some? ==>
      r < k && page.value == Preorder(t)[r] && Page(d, page.value) && NoPageIn(d, Preorder(t), r + 1, k)
    ensures page.None? ==> NoPageIn(d, Preorder(t), 0, k)
  {
    hide Spots, Preorder, Document;
    DocumentFacts(d, t);
    page := GetPrevious(d, Some(here), t, k);
    r := k;
    while page.Some?
      invariant r <= k && page == Before(Preorder(t), r)
      invariant NoPageIn(d, Preorder(t), r, k)
      decreases r
    {
      r := r - 1;
      assert Fact(d, Spots(t), r);
      if d[page.value].isPage {
        return;
      }
      page := GetPrevious(d, page, t, r);
    }
  }

  /** From a page, the next page's previous page is the page itself; and the other way round. */
  method PageAndBack(d: Dom, t: Tree, k: nat) returns (there: Option<nat>, back: Option<nat>)
    requires Document(d, t) && k < Size(t) && Page(d, Preorder(t)[k])
    ensures there.Some? ==> back == Some(Preorder(t)[k])
    ensures there.None? <==> NoPageIn(d, Preorder(t), k + 1, Size(t))
  {
    hide Spots, Preorder, Document;
    ghost var r, q;
    there, r := GetNextPage(d, Preorder(t)[k], t, k);
    back := None;
    if there.Some? {
      back, q := GetPreviousPage(d, there.value, t, r);
    }
  }

  method PageBackAndForth(d: Dom, t: Tree, k: nat) returns (there: Option<nat>, back: Option<nat>)
    requires Document(d, t) && k < Size(t) && Page(d, Preorder(t)[k])
    ensures there.Some? ==> back == Some(Preorder(t)[k])
    ensures there.None? <==> NoPageIn(d, Preorder(t), 0, k)
  {
    hide Spots, Preorder, Document;
    ghost var r, q;
    there, r := GetPreviousPage(d, Preorder(t)[k], t, k);
    back := None;
    if there.Some? {
      back, q := GetNextPage(d, there.value, t, r);
    }
  }
}
