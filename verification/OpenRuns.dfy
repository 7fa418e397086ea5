/**
 * One `open_connection` call is a run of the atomic steps, so the invariant over all
 * interleavings speaks about the sweeps as well.
 */
module OpenRuns {
  import opened Sruns
  import opened Choice
  import opened Descriptors

  /** The atomic steps of one iteration of a sweep. */
  function VisitSteps(phase: Phase, id: nat, r: Srun, i: nat, now: nat, dial: Dial): seq<Step>
  {
    if !Allowed(phase, r) then []
    else if Fresh(r, now) || phase.PoolsOnly? || (phase.Timed? && Waiting(r, now)) then [TryReuse(id, i, now)]
    else
      var fd := dial(i, phase.Blocking?);
      [TryReuse(id, i, now), TryConnect(id, i, fd)]
      + if fd >= 0 || phase.Blocking? then [Stamp(i, fd < 0, now)] else []
  }

  function SweepSteps(phase: Phase, id: nat, list: seq<Srun>, order: seq<nat>, now: nat, dial: Dial): seq<Step>
    requires Within(order, list)
    decreases |order|
  {
    if order == [] then [] else
      var v := Visit(phase, list, order[0], now, dial);
      VisitSteps(phase, id, list[order[0]], order[0], now, dial)
      + if v.outcome != Nobody then [] else SweepSteps(phase, id, v.list, order[1..], now, dial)
  }

  function OpenSteps(id: nat, list: seq<Srun>, order: seq<nat>, now: nat, sessionless: bool, dial: Dial): seq<Step>
    requires Within(order, list)
  {
    var pools := if sessionless then Sweep(PoolsOnly, list, order, now, dial) else Swept(list, [], Nobody);
    var early := Early(list, order, now, sessionless, dial);
    (if sessionless then SweepSteps(PoolsOnly, id, list, order, now, dial) else [])
    + (if pools.outcome != Nobody then [] else SweepSteps(Timed(sessionless), id, pools.list, order, now, dial))
    + (if early.outcome != Nobody then [] else SweepSteps(Blocking, id, early.list, order, now, dial))
  }

  lemma {:induction false} RunAppend(w: World, a: seq<Step>, b: seq<Step>)
    requires Legal(w, a) && Legal(Run(w, a), b)
    ensures Legal(w, a + b) && Run(w, a + b) == Run(Run(w, a), b)
    decreases |a|
  {
    if a == [] {
      assert a + b == b;
    } else {
      assert (a + b)[0] == a[0] && (a + b)[1..] == a[1..] + b;
      RunAppend(Next(w, a[0]), a[1..], b);
    }
  }

  /** The stream of this request holds nothing yet. */
  ghost predicate Waits(w: World, id: nat)
  {
    Inv(w) && id in w.streams && w.streams[id].socket < 0
  }

  /** A descriptor the system hands out is not open at that moment. */
  ghost predicate FreshAnswer(w: World, v: Swept)
  {
    v.outcome.Connected? ==> v.outcome.fd !in w.live - Elements(v.closed)
  }

  /** The steps can be taken, and end as the values say. */
  ghost predicate Realizes(w: World, id: nat, steps: seq<Step>, v: Swept)
  {
    && Legal(w, steps)
    && var e := Run(w, steps);
       && Inv(e) && id in e.streams && e.list == v.list
       && e.streams == w.streams[id := e.streams[id]] && e.cleanups == w.cleanups && e.updateCount == w.updateCount
       && match v.outcome
          case Nobody => e.streams[id].socket < 0 && e.live == w.live - Elements(v.closed)
          case Reused(i, fd) => e.streams[id] == Holder(fd, i, w.updateCount) && e.live == w.live - Elements(v.closed)
          case Connected(i, fd, _) => e.streams[id] == Holder(fd, i, 0) && e.live == w.live - Elements(v.closed) + {fd}
  }

  lemma ReuseRuns(w: World, id: nat, i: nat, now: nat)
    requires Waits(w, id) && i < |w.list|
    ensures Realizes(w, id, [TryReuse(id, i, now)], Reusing(w.list, i, now))
  {
    hide Inv, CloseSeq;
    var s := TryReuse(id, i, now);
    var a := Reusing(w.list, i, now);
    StepKeeps(w, s);
    assert Legal(w, [s]) && Run(w, [s]) == Next(w, s) by {
      assert [s][1..] == [];
    }
    if a.outcome == Nobody {
      assert Next(w, s) == Emptied(w, i, Drained(w.list[i], now));
      EmptiedIs(w, i, Drained(w.list[i], now));
      SameElements(w.list[i].sockets);
    } else {
      assert Elements([]) == {};
    }
  }

  lemma SameElements(s: seq<int>)
    ensures Elements(Reversed(s)) == Elements(s)
  {
    forall x | x in Elements(s) ensures x in Elements(Reversed(s)) {
      var k :| 0 <= k < |s| && s[k] == x;
      assert Reversed(s)[|s| - 1 - k] == x;
    }
  }

  /** A connect and the stamp that follows it, after a failed reuse. */
  lemma DialRuns(w: World, id: nat, i: nat, now: nat, last: bool, dial: Dial)
    requires Waits(w, id) && i < |w.list|
    requires FreshAnswer(w, Dialing(Swept(w.list, [], Nobody), i, now, last, dial))
    ensures var fd := dial(i, last);
            var steps := [TryConnect(id, i, fd)] + if fd >= 0 || last then [Stamp(i, fd < 0, now)] else [];
            Realizes(w, id, steps, Dialing(Swept(w.list, [], Nobody), i, now, last, dial))
  {
    hide Inv;
    var fd := dial(i, last);
    assert Elements([]) == {};
    var s := TryConnect(id, i, fd);
    StepKeeps(w, s);
    var w1 := Next(w, s);
    assert Legal(w, [s]) && Run(w, [s]) == w1 by {
      assert [s][1..] == [];
    }
    if fd >= 0 || last {
      var t := Stamp(i, fd < 0, now);
      StepKeeps(w1, t);
      assert Legal(w1, [t]) && Run(w1, [t]) == Next(w1, t) by {
        assert [t][1..] == [];
      }
      RunAppend(w, [s], [t]);
    } else {
      assert [s] + [] == [s];
    }
  }

  /** Steps that realize one result, then another from where the first ends. */
  lemma RealizesThen(w: World, id: nat, a: seq<Step>, v: Swept, b: seq<Step>, u: Swept)
    requires Realizes(w, id, a, v) && v.outcome == Nobody && Realizes(Run(w, a), id, b, u)
    ensures Realizes(w, id, a + b, Before(v.closed, u))
  {
    hide Inv, Legal, Run, Elements;
    RunAppend(w, a, b);
    ElementsAppend(v.closed, u.closed);
  }

  lemma ElementsAppend(a: seq<int>, b: seq<int>)
    ensures Elements(a + b) == Elements(a) + Elements(b)
  {
    forall x | x in Elements(a) ensures x in Elements(a + b) {
      var k :| 0 <= k < |a| && a[k] == x;
      assert (a + b)[k] == x;
    }
    forall x | x in Elements(b) ensures x in Elements(a + b) {
      var k :| 0 <= k < |b| && b[k] == x;
      assert (a + b)[|a| + k] == x;
    }
  }

  /** The state is unchanged by no steps. */
  lemma SkipRuns(w: World, id: nat)
    requires Waits(w, id)
    ensures Realizes(w, id, [], Swept(w.list, [], Nobody))
  {
  }

  lemma VisitRuns(w: World, phase: Phase, id: nat, i: nat, now: nat, dial: Dial)
    requires Waits(w, id) && i < |w.list|
    requires FreshAnswer(w, Visit(phase, w.list, i, now, dial))
    ensures Realizes(w, id, VisitSteps(phase, id, w.list[i], i, now, dial), Visit(phase, w.list, i, now, dial))
  {
    hide Inv, Legal, Run, Elements, Realizes;
    var r := w.list[i];
    if !Allowed(phase, r) {
      SkipRuns(w, id);
    } else {
      ReuseRuns(w, id, i, now);
      var a := Reusing(w.list, i, now);
      if !(Fresh(r, now) || phase.PoolsOnly? || (phase.Timed? && Waiting(r, now))) {
        var last := phase.Blocking?;
        RealizesNobody(w, id, [TryReuse(id, i, now)], a);
        var w1 := Run(w, [TryReuse(id, i, now)]);
        var u := Dialing(Swept(a.list, [], Nobody), i, now, last, dial);
        assert Elements([]) == {} by { ElementsEmpty(); }
        DialRuns(w1, id, i, now, last, dial);
        var fd := dial(i, last);
        var rest := if fd >= 0 || last then [Stamp(i, fd < 0, now)] else [];
        RealizesThen(w, id, [TryReuse(id, i, now)], a, [TryConnect(id, i, fd)] + rest, u);
        assert Before(a.closed, u) == Visit(phase, w.list, i, now, dial) by {
          assert a.closed + [] == a.closed;
        }
        assert [TryReuse(id, i, now)] + ([TryConnect(id, i, fd)] + rest)
            == [TryReuse(id, i, now), TryConnect(id, i, fd)] + rest;
      }
    }
  }

  lemma ElementsEmpty()
    ensures Elements([]) == {}
  {
  }

  lemma RealizesNobody(w: World, id: nat, steps: seq<Step>, v: Swept)
    requires Realizes(w, id, steps, v) && v.outcome == Nobody
    ensures Legal(w, steps) && Waits(Run(w, steps), id)
    ensures Run(w, steps).list == v.list && Run(w, steps).live == w.live - Elements(v.closed)
  {
  }

  lemma {:induction false} SweepRuns(w: World, phase: Phase, id: nat, order: seq<nat>, now: nat, dial: Dial)
    requires Waits(w, id) && Within(order, w.list)
    requires FreshAnswer(w, Sweep(phase, w.list, order, now, dial))
    ensures Realizes(w, id, SweepSteps(phase, id, w.list, order, now, dial), Sweep(phase, w.list, order, now, dial))
    decreases |order|
  {
    hide Inv, Legal, Run, Elements, Realizes, Visit, VisitSteps;
    if order == [] {
      SkipRuns(w, id);
    } else {
      var i, rest := order[0], order[1..];
      var v := Visit(phase, w.list, i, now, dial);
      var a := VisitSteps(phase, id, w.list[i], i, now, dial);
      if v.outcome != Nobody {
        VisitRuns(w, phase, id, i, now, dial);
        assert a + [] == a;
      } else {
        VisitRuns(w, phase, id, i, now, dial);
        RealizesNobody(w, id, a, v);
        var u := Sweep(phase, v.list, rest, now, dial);
        ElementsAppend(v.closed, u.closed);
        SweepRuns(Run(w, a), phase, id, rest, now, dial);
        RealizesThen(w, id, a, v, SweepSteps(phase, id, v.list, rest, now, dial), u);
      }
    }
  }

  /** One more sweep after steps that realized a result. */
  lemma ThenRuns(w: World, id: nat, a: seq<Step>, v: Swept, phase: Phase, order: seq<nat>, now: nat, dial: Dial)
    requires Within(order, v.list) && Realizes(w, id, a, v)
    requires FreshAnswer(w, Then(v, phase, order, now, dial))
    ensures Realizes(w, id, a + (if v.outcome != Nobody then [] else SweepSteps(phase, id, v.list, order, now, dial)),
                     Then(v, phase, order, now, dial))
  {
    hide Inv, Legal, Run, Elements, Realizes, Sweep, SweepSteps;
    if v.outcome != Nobody {
      assert a + [] == a;
    } else {
      RealizesNobody(w, id, a, v);
      var u := Sweep(phase, v.list, order, now, dial);
      ElementsAppend(v.closed, u.closed);
      SweepRuns(Run(w, a), phase, id, order, now, dial);
      RealizesThen(w, id, a, v, SweepSteps(phase, id, v.list, order, now, dial), u);
    }
  }

  /**
   * Every call of `open_connection` is a legal run that ends with the runners, the open
   * descriptors and the stream's socket that the sweeps compute; in particular it closes each
   * timed-out descriptor once and leaves the invariant standing.
   */
  lemma OpenRunsAsSteps(w: World, id: nat, order: seq<nat>, now: nat, sessionless: bool, dial: Dial)
    requires Waits(w, id) && Within(order, w.list)
    requires FreshAnswer(w, Open(w.list, order, now, sessionless, dial))
    ensures Realizes(w, id, OpenSteps(id, w.list, order, now, sessionless, dial),
                     Open(w.list, order, now, sessionless, dial))
  {
    hide Inv, Legal, Run, Elements, Realizes, Sweep, SweepSteps;
    var pools := if sessionless then Sweep(PoolsOnly, w.list, order, now, dial) else Swept(w.list, [], Nobody);
    var a := if sessionless then SweepSteps(PoolsOnly, id, w.list, order, now, dial) else [];
    if sessionless {
      SweepRuns(w, PoolsOnly, id, order, now, dial);
    } else {
      SkipRuns(w, id);
    }
    ThenRuns(w, id, a, pools, Timed(sessionless), order, now, dial);
    var b := a + if pools.outcome != Nobody then []
                 else SweepSteps(Timed(sessionless), id, pools.list, order, now, dial);
    ThenRuns(w, id, b, Early(w.list, order, now, sessionless, dial), Blocking, order, now, dial);
  }
}
