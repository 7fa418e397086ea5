/** The registry in the heap: nodes linked to parent, siblings, first and last child. */
module Registry {
  import opened Wrappers
  import opened Rows

  class Node {
    var parent: Node?
    var next: Node?
    var prev: Node?
    var first: Node?
    var last: Node?
    var key: string
    var value: Option<string>

    constructor (key: string)
      ensures this.key == key && value == None
      ensures parent == null && next == null && prev == null && first == null && last == null
    {
      this.key, value := key, None;
      parent, next, prev, first, last := null, null, null, null, null;
    }
  }

  ghost function NodeAt(order: seq<Node>, i: int): Node?
    requires i < |order|
  {
    if i < 0 then null else order[i]
  }

  /** What a node says, as a value. */
  datatype Fields = Fields(parent: Node?, next: Node?, prev: Node?, first: Node?, last: Node?,
                           key: string, value: Option<string>)

  ghost function Says(n: Node): Fields
    reads n
  {
    Fields(n.parent, n.next, n.prev, n.first, n.last, n.key, n.value)
  }

  /** What the table says the node at position i should say. */
  ghost function Due(order: seq<Node>, r: Rows, i: nat): Fields
    requires Proper(r) && |order| == |r.up| && i < |order|
  {
    Fields(NodeAt(order, r.up[i]), NodeAt(order, NextSibling(r.up, i)), NodeAt(order, PrevSibling(r.up, i)),
           NodeAt(order, FirstChild(r.up, i)), NodeAt(order, LastChild(r.up, i)), r.keys[i], r.values[i])
  }

  ghost predicate Linked(order: seq<Node>, r: Rows, i: nat)
    requires Proper(r) && |order| == |r.up| && i < |order|
    reads order[i]
  {
    Says(order[i]) == Due(order, r, i)
  }

  /** What a new row needs of the table, and keeps of it. */
  lemma TableShape(r: Rows, k: nat, key: string)
    requires Proper(r) && k < |r.up|
    ensures |r.up| == |r.keys| == |r.values| && (forall i :: 0 <= i < |r.up| ==> -1 <= r.up[i] < |r.up|)
    ensures Proper(Added(r, k, key))
    ensures LastChild(r.up, k) < |r.up| && FirstChild(r.up, k) < |r.up|
  {
  }

  lemma LinkBounds(r: Rows, i: nat)
    requires Proper(r) && i < |r.up|
    ensures NextSibling(r.up, i) < |r.up| && PrevSibling(r.up, i) < i
    ensures FirstChild(r.up, i) < |r.up| && LastChild(r.up, i) < |r.up|
    ensures FirstChild(r.up, i) >= 0 ==> r.up[FirstChild(r.up, i)] == i && PrevSibling(r.up, FirstChild(r.up, i)) < 0
    ensures LastChild(r.up, i) >= 0 ==> r.up[LastChild(r.up, i)] == i && NextSibling(r.up, LastChild(r.up, i)) < 0
  {
  }

  lemma LastIs(order: seq<Node>, r: Rows, k: nat)
    requires Proper(r) && |order| == |r.up| && k < |order|
    ensures LastChild(r.up, k) < |order| && Due(order, r, k).last == NodeAt(order, LastChild(r.up, k))
  {
  }

  /** What a new last child of the node at k changes of what an old node should say. */
  lemma DueAfterAdd(order: seq<Node>, r: Rows, k: nat, child: Node, key: string, i: nat)
    requires Proper(r) && |order| == |r.up| && k < |order| && i < |order|
    ensures Proper(Added(r, k, key))
    ensures var f := Due(order, r, i);
            Due(order + [child], Added(r, k, key), i)
            == f.(next := if i == LastChild(r.up, k) then child else f.next,
                  last := if i == k then child else f.last,
                  first := if i == k && LastChild(r.up, k) < 0 then child else f.first)
  {
    hide ChildFrom, ChildBefore, FirstChild, LastChild, NextSibling, PrevSibling, Proper;
    TableShape(r, k, key);
    FirstIffLast(r.up, k);
    AppendLinks(r.up, k, i);
    LinkBounds(r, i);
  }

  lemma DueOfNew(order: seq<Node>, r: Rows, k: nat, child: Node, key: string)
    requires Proper(r) && |order| == |r.up| && k < |order|
    ensures Proper(Added(r, k, key))
    ensures Due(order + [child], Added(r, k, key), |order|)
         == Fields(order[k], null, NodeAt(order, LastChild(r.up, k)), null, null, key, None)
  {
    hide ChildFrom, ChildBefore, FirstChild, LastChild, NextSibling, PrevSibling, Proper;
    TableShape(r, k, key);
    AppendNew(r.up, k);
  }

  /** The tree under construction: its nodes in order of creation, and the table they realize. */
  class Tree {
    const root: Node
    ghost var order: seq<Node>
    ghost var rows: Rows

    ghost predicate Valid()
      reads this, order
    {
      && Proper(rows) && |order| == |rows.up| && order[0] == root
      && (forall i, j :: 0 <= i < j < |order| ==> order[i] != order[j])
      && forall i :: 0 <= i < |order| ==> Linked(order, rows, i)
    }

    constructor ()
      ensures Valid() && fresh(root) && order == [root] && rows == ROOT
    {
      root := new Node("");
      new;
      order, rows := [root], ROOT;
    }

    /** `registry_add`: a new last child of the node at position k. */
    method Add(node: Node, ghost k: nat, key: string) returns (child: Node)
      requires Valid() && k < |order| && order[k] == node
      modifies this, order
      ensures Valid() && fresh(child)
      ensures order == old(order) + [child] && rows == Added(old(rows), k, key)
    {
      hide Due, LastChild, Proper;
      ghost var rows0, order0 := rows, order;
      TableShape(rows, k, key);
      assert Linked(order, rows, k);
      LastIs(order, rows, k);
      child := new Node(key);
      child.parent := node;
      child.prev := node.last;
      if node.last != null {
        node.last.next := child;
        node.last := child;
      } else {
        node.first := child;
        node.last := child;
      }
      order, rows := order + [child], Added(rows, k, key);
      DueOfNew(order0, rows0, k, child, key);
      forall i | 0 <= i < |order0| ensures Linked(order, rows, i) {
        DueAfterAdd(order0, rows0, k, child, key, i);
        assert old(Linked(order, rows, i));
        assert LastChild(rows0.up, k) >= 0 && i != LastChild(rows0.up, k) ==> order[i] != order[LastChild(rows0.up, k)];
        assert i != k ==> order[i] != order[k];
      }
      assert Linked(order, rows, |order0|);
    }

    /** An assignment to a node's value. */
    method SetValue(node: Node, ghost k: nat, v: string)
      requires Valid() && k < |order| && order[k] == node
      modifies this`rows, node`value
      ensures Valid() && rows == Valued(old(rows), k, v)
    {
      node.value := Some(v);
      rows := Valued(rows, k, v);
      forall i | 0 <= i < |order| ensures Linked(order, rows, i) {
        assert old(Linked(order, rows, i));
        assert i != k ==> order[i] != order[k];
      }
    }

    /**
     * What a valid tree is, in links only: next and prev are inverse, first and last are the ends
     * of the children, every child points back to its parent, and parents are created earlier, so
     * that there are no cycles and no sharing.
     */
    lemma ProperLinks(i: nat)
      requires Valid() && i < |order|
      ensures var n := order[i];
              && (n.next != null ==> n.next.prev == n && n.next.parent == n.parent)
              && (n.prev != null ==> n.prev.next == n && n.prev.parent == n.parent)
              && (n.first != null ==> n.first.parent == n && n.first.prev == null)
              && (n.last != null ==> n.last.parent == n && n.last.next == null)
              && (n.first == null <==> n.last == null)
              && (n.parent == null <==> n == root)
              && (n.parent != null ==>
                    && (n.next == null ==> n.parent.last == n) && (n.prev == null ==> n.parent.first == n)
                    && n.parent in order[..i])
    {
      hide ChildFrom, ChildBefore, FirstChild, LastChild, NextSibling, PrevSibling;
      LinkBounds(rows, i);
      assert Linked(order, rows, i);
      SiblingLinks(rows, i);
      FirstIffLast(rows.up, i);
      var up := rows.up;
      assert NextSibling(up, i) >= 0 ==> Linked(order, rows, NextSibling(up, i));
      assert PrevSibling(up, i) >= 0 ==> Linked(order, rows, PrevSibling(up, i));
      assert FirstChild(up, i) >= 0 ==> Linked(order, rows, FirstChild(up, i));
      assert LastChild(up, i) >= 0 ==> Linked(order, rows, LastChild(up, i));
      assert up[i] >= 0 ==> Linked(order, rows, up[i]);
    }
  }

  /** `cse_next_link` */
  method NextLink(t: Tree, node: Node?, ghost i: int, key: string) returns (link: Node?)
    requires t.Valid() && -1 <= i < |t.order| && node == NodeAt(t.order, i)
    ensures link == NodeAt(t.order, Link(t.rows, i, key))
  {
    link := node;
    ghost var p := i;
    while link != null
      invariant -1 <= p < |t.order| && link == NodeAt(t.order, p)
      invariant Link(t.rows, p, key) == Link(t.rows, i, key)
      decreases if p < 0 then 0 else |t.order| - p
    {
      assert Linked(t.order, t.rows, p);
      if link.key == key {
        return;
      }
      link := link.next;
      p := NextSibling(t.rows.up, p);
    }
  }

  /** `cse_find_value` */
  method FindValue(t: Tree, node: Node?, ghost i: int, key: string) returns (value: Option<string>)
    requires t.Valid() && -1 <= i < |t.order| && node == NodeAt(t.order, i)
    ensures value == ValueOf(t.rows, i, key)
  {
    var here := node;
    ghost var p := i;
    while here != null
      invariant -1 <= p < |t.order| && here == NodeAt(t.order, p)
      invariant Link(t.rows, p, key) == Link(t.rows, i, key)
      decreases if p < 0 then 0 else |t.order| - p
    {
      assert Linked(t.order, t.rows, p);
      if here.key == key {
        return here.value;
      }
      here := here.next;
      p := NextSibling(t.rows.up, p);
    }
    return None;
  }
}
