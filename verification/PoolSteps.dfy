/** The pool operations on the plugin's records are the atomic steps of the descriptor world. */
module PoolSteps {
  import opened Sruns
  import opened Descriptors
  import opened OpenRuns
  import Scheduler

  /** The world as one request sees it through the plugin's records. */
  ghost predicate Shows(w: World, id: nat, p: Scheduler.Process, s: Scheduler.Stream, c: Scheduler.Config)
    reads p, s, c
  {
    && w.list == c.srunList && w.updateCount == c.updateCount
    && id in w.streams && w.streams[id] == Holder(s.socket, s.srun, s.updateCount)
    && forall fd :: (id, fd) in w.cleanups <==> (s.pool, fd) in p.cleanups
  }

  /** The descriptors closed since a moment. */
  function Since(closed: seq<int>, n: nat): set<int>
    requires n <= |closed|
  {
    Elements(closed[n..])
  }

  /** `cse_close` is the step Close. */
  method Close(p: Scheduler.Process, s: Scheduler.Stream, c: Scheduler.Config, ghost w: World, ghost id: nat)
    requires Inv(w) && Shows(w, id, p, s, c)
    modifies p`closed, p`cleanups, s`socket
    ensures old(p.closed) <= p.closed
    ensures var w' := Next(w, Step.Close(id));
            Shows(w', id, p, s, c) && w'.live == w.live - Since(p.closed, |old(p.closed)|)
  {
    Scheduler.Close(p, s);
    OneClosed(p.closed, |old(p.closed)|, w.streams[id].socket);
    ClosedIs(w, id);
  }

  /** `cse_recycle` is the step Recycle. */
  method Recycle(p: Scheduler.Process, s: Scheduler.Stream, c: Scheduler.Config, ghost w: World, ghost id: nat)
    requires Inv(w) && Shows(w, id, p, s, c) && c.Valid() && s.srun < |c.srunList|
    modifies p`closed, p`cleanups, s`socket, c`srunList
    ensures old(p.closed) <= p.closed
    ensures var w' := Next(w, Step.Recycle(id));
            Shows(w', id, p, s, c) && w'.live == w.live - Since(p.closed, |old(p.closed)|)
  {
    Scheduler.Recycle(p, s, c);
    if Poolable(w, id) {
      assert p.closed[|old(p.closed)|..] == [];
    } else {
      OneClosed(p.closed, |old(p.closed)|, w.streams[id].socket);
      ClosedIs(w, id);
    }
  }

  lemma OneClosed(closed: seq<int>, n: nat, fd: int)
    requires n + 1 == |closed| && closed[n] == fd
    ensures Since(closed, n) == {fd}
  {
    assert closed[n..] == [fd];
    assert [fd][0] in Elements([fd]);
  }

  /** What a close leaves open. */
  lemma ClosedIs(w: World, id: nat)
    requires Inv(w) && id in w.streams
    ensures CloseStream(w, id).live == w.live - {w.streams[id].socket}
  {
  }

  /** The pools of the first n runners drained, one after the other. */
  function Drains(n: nat): seq<Step> { if n == 0 then [] else Drains(n - 1) + [DrainPool(n - 1)] }

  /** Such a run closes exactly what those pools held, and touches nothing else. */
  lemma {:induction false} DrainsRun(w: World, n: nat)
    requires Inv(w) && n <= |w.list|
    ensures Legal(w, Drains(n))
    ensures var e := Run(w, Drains(n));
            && Inv(e) && |e.list| == |w.list|
            && e == w.(list := e.list, live := w.live - Elements(Scheduler.Pools(w.list, n)))
            && forall k :: 0 <= k < |w.list| ==> e.list[k] == if k < n then w.list[k].(sockets := []) else w.list[k]
    decreases n
  {
    hide Inv, Elements;
    if n == 0 {
      ElementsEmpty();
      assert w.live - {} == w.live;
    } else {
      DrainsRun(w, n - 1);
      var e, i := Run(w, Drains(n - 1)), n - 1;
      var r := w.list[i];
      StepKeeps(e, DrainPool(i));
      assert Next(e, DrainPool(i)) == Emptied(e, i, r.(sockets := []));
      EmptiedIs(e, i, r.(sockets := []));
      OneStep(e, DrainPool(i));
      RunAppend(w, Drains(n - 1), [DrainPool(i)]);
      ElementsAppend(Scheduler.Pools(w.list, n - 1), Reversed(r.sockets));
      SameElements(r.sockets);
      assert w.live - Elements(Scheduler.Pools(w.list, n - 1)) - Elements(r.sockets)
          == w.live - (Elements(Scheduler.Pools(w.list, n - 1)) + Elements(r.sockets));
    }
  }

  lemma OneStep(w: World, s: Step)
    requires Enabled(w, s)
    ensures Legal(w, [s]) && Run(w, [s]) == Next(w, s)
  {
    assert [s][1..] == [];
  }

  /** `cse_close_child` is such a run, over the runners in use. */
  method CloseChild(p: Scheduler.Process, c: Scheduler.Config, ghost w: World)
    requires Inv(w) && c.Valid() && w.list == c.srunList
    modifies p`closed, c`srunList
    ensures old(p.closed) <= p.closed
    ensures Legal(w, Drains(c.srunSize))
    ensures var w' := Run(w, Drains(c.srunSize));
            w'.list == c.srunList && w'.live == w.live - Since(p.closed, |old(p.closed)|)
  {
    DrainsRun(w, c.srunSize);
    Scheduler.CloseChild(p, c);
    assert p.closed[|old(p.closed)|..] == Scheduler.Pools(w.list, c.srunSize);
  }
}
