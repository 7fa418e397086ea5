/**
 * Which runner a request gets, said without sweeps or state: the first runner in visiting
 * order that belongs to the best non-empty class. The sweeps are proved to make this choice,
 * and to leave the runners as the plugin promises.
 */
module Choice {
  import opened Wrappers
  import opened Rotation
  import opened Sruns

  /** The first element of the order that is in the set. */
  function First(order: seq<nat>, good: set<nat>): (f: Option<nat>)
    ensures f.None? <==> forall k :: k in order ==> k !in good
    ensures f.Some? ==> f.value in good && f.value in order
  {
    if order == [] then None
    else if order[0] in good then Some(order[0])
    else First(order[1..], good)
  }

  /** The request may use this runner in this sweep at all. */
  predicate Allowed(phase: Phase, r: Srun)
  {
    r.isBackup ==> !phase.PoolsOnly? && phase != Timed(true)
  }

  /** The runner serves in this sweep: a fresh pooled socket, or a connect that succeeds. */
  predicate Serves(phase: Phase, r: Srun, i: nat, now: nat, dial: Dial)
  {
    Allowed(phase, r) &&
    (|| Fresh(r, now)
     || (phase.Timed? && !Waiting(r, now) && dial(i, false) >= 0)
     || (phase.Blocking? && dial(i, true) >= 0))
  }

  function Servers(phase: Phase, list: seq<Srun>, now: nat, dial: Dial): set<nat>
  {
    set i: nat | i < |list| && Serves(phase, list[i], i, now, dial)
  }

  /** Last-resort servers in terms of the runners at the start of the call: stale pools are gone by then. */
  function LastServers(list: seq<Srun>, now: nat, sessionless: bool, dial: Dial): set<nat>
  {
    set i: nat | i < |list| && (dial(i, true) >= 0 || (sessionless && list[i].isBackup && Fresh(list[i], now)))
  }

  /** How a serving runner serves: from its pool if that is fresh. */
  function Served(r: Srun, i: nat, now: nat, dial: Dial, lastResort: bool): Outcome
  {
    if Fresh(r, now) then Reused(i, Top(r)) else Connected(i, dial(i, lastResort), lastResort)
  }

  /** The outcome of a request, by priority. */
  function Choose(list: seq<Srun>, order: seq<nat>, now: nat, sessionless: bool, dial: Dial): Outcome
  {
    var pooled := if sessionless then First(order, Servers(PoolsOnly, list, now, dial)) else None;
    var timely := First(order, Servers(Timed(sessionless), list, now, dial));
    var last := First(order, LastServers(list, now, sessionless, dial));
    if pooled.Some? then Reused(pooled.value, Top(list[pooled.value]))
    else if timely.Some? then Served(list[timely.value], timely.value, now, dial, false)
    else if last.Some? then
      var r := list[last.value];
      if sessionless && r.isBackup && Fresh(r, now) then Reused(last.value, Top(r))
      else Connected(last.value, dial(last.value, true), true)
    else Nobody
  }

  /** What an unsuccessful visit leaves of a runner. */
  function Left(phase: Phase, r: Srun, now: nat): Srun
  {
    if !Allowed(phase, r) then r
    else if phase.PoolsOnly? || (phase.Timed? && Waiting(r, now)) then Drained(r, now)
    else if phase.Timed? then Dialed(Drained(r, now))
    else Dead(Dialed(Drained(r, now)), now)
  }

  /** Only runners named by the order may differ. */
  ghost predicate SameElsewhere(a: seq<Srun>, b: seq<Srun>, order: seq<nat>)
  {
    |a| == |b| && forall j: nat :: j < |a| && j !in order ==> a[j] == b[j]
  }

  /** The runner that serves: alive, stamped, and short of exactly the descriptor handed out. */
  ghost predicate Won(list: seq<Srun>, w: Swept, now: nat, dial: Dial)
  {
    match w.outcome
    case Nobody => true
    case Reused(i, fd) =>
      && i < |list| == |w.list| && Fresh(list[i], now) && fd == Top(list[i])
      && w.list[i] == Taken(list[i], now)
    case Connected(i, fd, last) =>
      && i < |list| == |w.list| && fd == dial(i, last) >= 0
      && w.list[i] == Alive(Dialed(Drained(list[i], now)), now)
  }

  lemma {:induction false} FirstAgrees(order: seq<nat>, a: set<nat>, b: set<nat>)
    requires forall k :: k in order ==> (k in a <==> k in b)
    ensures First(order, a) == First(order, b)
  {
    if order == [] {
    } else {
      assert order[0] in order;
      FirstAgrees(order[1..], a, b);
    }
  }

  lemma DistinctTail(order: seq<nat>)
    requires order != [] && Distinct(order)
    ensures Distinct(order[1..]) && order[0] !in order[1..]
  {
  }

  /** One visit, without its code: who serves, how, and what is left. */
  lemma VisitMeaning(phase: Phase, list: seq<Srun>, i: nat, now: nat, dial: Dial)
    requires i < |list|
    ensures var v := Visit(phase, list, i, now, dial);
            && v.list == list[i := v.list[i]]
            && Won(list, v, now, dial)
            && v.outcome == (if Serves(phase, list[i], i, now, dial)
                             then Served(list[i], i, now, dial, phase.Blocking?) else Nobody)
            && (v.outcome == Nobody ==> v.list[i] == Left(phase, list[i], now))
  {
  }

  lemma ServersAgree(phase: Phase, list: seq<Srun>, i: nat, r: Srun, rest: seq<nat>, now: nat, dial: Dial)
    requires i < |list| && i !in rest
    ensures First(rest, Servers(phase, list, now, dial)) == First(rest, Servers(phase, list[i := r], now, dial))
  {
    FirstAgrees(rest, Servers(phase, list, now, dial), Servers(phase, list[i := r], now, dial));
  }

  /** A sweep stops at the first runner in order that serves. */
  lemma {:induction false} SweepChooses(phase: Phase, list: seq<Srun>, order: seq<nat>, now: nat, dial: Dial)
    requires Within(order, list) && Distinct(order)
    ensures var f := First(order, Servers(phase, list, now, dial));
            Sweep(phase, list, order, now, dial).outcome
            == if f.Some? then Served(list[f.value], f.value, now, dial, phase.Blocking?) else Nobody
    decreases |order|
  {
    hide Visit;
    if order == [] {
    } else {
      DistinctTail(order);
      VisitMeaning(phase, list, order[0], now, dial);
      var v := Visit(phase, list, order[0], now, dial);
      if v.outcome == Nobody {
        SweepChooses(phase, v.list, order[1..], now, dial);
        ServersAgree(phase, list, order[0], v.list[order[0]], order[1..], now, dial);
      }
    }
  }

  lemma {:induction false} SweepState(phase: Phase, list: seq<Srun>, order: seq<nat>, now: nat, dial: Dial)
    requires Within(order, list) && Distinct(order)
    ensures var w := Sweep(phase, list, order, now, dial);
            && SameElsewhere(list, w.list, order)
            && Won(list, w, now, dial)
            && (w.outcome == Nobody ==> forall j :: j in order ==> w.list[j] == Left(phase, list[j], now))
    decreases |order|
  {
    hide Visit, Serves, Served;
    if order == [] {
    } else {
      DistinctTail(order);
      VisitMeaning(phase, list, order[0], now, dial);
      var v := Visit(phase, list, order[0], now, dial);
      if v.outcome == Nobody {
        SweepState(phase, v.list, order[1..], now, dial);
      }
    }
  }

  /** A runner passed over by the first sweep looks the same to the second. */
  lemma PassingKeepsStanding(r: Srun, i: nat, now: nat, dial: Dial)
    requires !Serves(PoolsOnly, r, i, now, dial)
    ensures var q := Left(PoolsOnly, r, now);
            && Serves(Timed(true), q, i, now, dial) == Serves(Timed(true), r, i, now, dial)
            && Left(Timed(true), q, now) == Left(Timed(true), r, now)
            && (Serves(Timed(true), r, i, now, dial) ==>
                  Served(q, i, now, dial, false) == Served(r, i, now, dial, false))
  {
  }

  /** The first two sweeps. */
  function Early(list: seq<Srun>, order: seq<nat>, now: nat, sessionless: bool, dial: Dial): (w: Swept)
    requires Within(order, list)
    ensures |w.list| == |list|
    ensures w.outcome != Nobody ==> w.outcome.host in order && w.outcome.host < |list|
  {
    Then(if sessionless then Sweep(PoolsOnly, list, order, now, dial) else Swept(list, [], Nobody),
         Timed(sessionless), order, now, dial)
  }

  lemma EarlyState(list: seq<Srun>, order: seq<nat>, now: nat, sessionless: bool, dial: Dial)
    requires Within(order, list) && Distinct(order)
    ensures var w := Early(list, order, now, sessionless, dial);
            && SameElsewhere(list, w.list, order)
            && Won(list, w, now, dial)
            && (w.outcome == Nobody ==>
                  forall j :: j in order ==> w.list[j] == Left(Timed(sessionless), list[j], now))
  {
    hide Sweep, Visit, Servers, First, Serves;
    if !sessionless {
      SweepState(Timed(false), list, order, now, dial);
    } else {
      SweepState(PoolsOnly, list, order, now, dial);
      var a := Sweep(PoolsOnly, list, order, now, dial);
      if a.outcome == Nobody {
        SweepState(Timed(true), a.list, order, now, dial);
      }
    }
  }

  /** The outcome of the first two sweeps, in terms of the runners the call started with. */
  lemma EarlyChooses(list: seq<Srun>, order: seq<nat>, now: nat, sessionless: bool, dial: Dial)
    requires Within(order, list) && Distinct(order)
    ensures var w := Early(list, order, now, sessionless, dial);
            var pooled := if sessionless then First(order, Servers(PoolsOnly, list, now, dial)) else None;
            var timely := First(order, Servers(Timed(sessionless), list, now, dial));
            w.outcome == if pooled.Some? then Reused(pooled.value, Top(list[pooled.value]))
                         else if timely.Some? then Served(list[timely.value], timely.value, now, dial, false)
                         else Nobody
  {
    hide Sweep, Visit;
    if !sessionless {
      SweepChooses(Timed(false), list, order, now, dial);
    } else {
      SweepChooses(PoolsOnly, list, order, now, dial);
      var a := Sweep(PoolsOnly, list, order, now, dial);
      if a.outcome == Nobody {
        SweepState(PoolsOnly, list, order, now, dial);
        SweepChooses(Timed(true), a.list, order, now, dial);
        forall j | j in order
          ensures j in Servers(Timed(true), list, now, dial) <==> j in Servers(Timed(true), a.list, now, dial)
          ensures j in Servers(Timed(true), list, now, dial) ==>
                    Served(a.list[j], j, now, dial, false) == Served(list[j], j, now, dial, false)
        {
          assert j !in Servers(PoolsOnly, list, now, dial);
          PassingKeepsStanding(list[j], j, now, dial);
        }
        FirstAgrees(order, Servers(Timed(true), list, now, dial), Servers(Timed(true), a.list, now, dial));
      }
    }
  }

  /** What the last sweep sees of a runner the early ones passed over. */
  lemma LastStanding(r: Srun, i: nat, now: nat, sessionless: bool, dial: Dial)
    requires !Serves(Timed(sessionless), r, i, now, dial)
    ensures var q := Left(Timed(sessionless), r, now);
            && (Fresh(q, now) <==> sessionless && r.isBackup && Fresh(r, now))
            && (Fresh(q, now) ==> q == r)
  {
  }

  /** The sweeps choose exactly what the priorities say. */
  lemma OpenChooses(list: seq<Srun>, order: seq<nat>, now: nat, sessionless: bool, dial: Dial)
    requires Within(order, list) && Distinct(order)
    ensures Open(list, order, now, sessionless, dial).outcome == Choose(list, order, now, sessionless, dial)
  {
    hide Sweep, Visit;
    EarlyChooses(list, order, now, sessionless, dial);
    var a := Early(list, order, now, sessionless, dial);
    if a.outcome == Nobody {
      EarlyState(list, order, now, sessionless, dial);
      SweepChooses(Blocking, a.list, order, now, dial);
      forall j | j in order
        ensures j in Servers(Blocking, a.list, now, dial) <==> j in LastServers(list, now, sessionless, dial)
        ensures Fresh(a.list[j], now) <==> sessionless && list[j].isBackup && Fresh(list[j], now)
        ensures Fresh(a.list[j], now) ==> a.list[j] == list[j]
      {
        assert j !in Servers(Timed(sessionless), list, now, dial);
        LastStanding(list[j], j, now, sessionless, dial);
      }
      FirstAgrees(order, Servers(Blocking, a.list, now, dial), LastServers(list, now, sessionless, dial));
    }
  }

  /** A call that finds nobody: every runner of the order was tried and refused. */
  ghost predicate AllFailed(list: seq<Srun>, w: Swept, order: seq<nat>, now: nat, sessionless: bool, dial: Dial)
    requires Within(order, list) && |w.list| == |list|
  {
    forall j :: j in order ==>
      && w.list[j].sockets == [] && w.list[j].isDead && w.list[j].lastTime == now
      && dial(j, true) < 0
      && (Waiting(list[j], now) || (sessionless && list[j].isBackup) || dial(j, false) < 0)
  }

  lemma FailureIsTotal(list: seq<Srun>, order: seq<nat>, now: nat, sessionless: bool, dial: Dial)
    requires Within(order, list) && Distinct(order)
    requires Open(list, order, now, sessionless, dial).outcome == Nobody
    ensures AllFailed(list, Open(list, order, now, sessionless, dial), order, now, sessionless, dial)
  {
    hide Sweep, Visit;
    EarlyChooses(list, order, now, sessionless, dial);
    var a := Early(list, order, now, sessionless, dial);
    SweepState(Blocking, a.list, order, now, dial);
    SweepChooses(Blocking, a.list, order, now, dial);
    forall j | j in order
      ensures dial(j, true) < 0
      ensures Waiting(list[j], now) || (sessionless && list[j].isBackup) || dial(j, false) < 0
    {
      assert j !in Servers(Blocking, a.list, now, dial);
      assert j !in Servers(Timed(sessionless), list, now, dial);
    }
  }

  /**
   * The connection contract. A failed call has left every runner of the order with an empty
   * pool, dead, stamped with the request time and refusing the last connect; a successful one
   * leaves its runner alive and stamped, with exactly the returned descriptor gone from its
   * pool, or with an empty pool and a descriptor the system handed out.
   */
  lemma OpenContract(list: seq<Srun>, order: seq<nat>, now: nat, sessionless: bool, dial: Dial)
    requires Within(order, list) && Distinct(order)
    ensures var w := Open(list, order, now, sessionless, dial);
            && SameElsewhere(list, w.list, order)
            && (w.outcome == Nobody ==> AllFailed(list, w, order, now, sessionless, dial))
            && (w.outcome != Nobody ==> !w.list[w.outcome.host].isDead && w.list[w.outcome.host].lastTime == now)
            && (w.outcome.Reused? ==> w.list[w.outcome.host].sockets + [w.outcome.fd] == list[w.outcome.host].sockets)
            && (w.outcome.Connected? ==>
                  && w.list[w.outcome.host].sockets == []
                  && w.outcome.fd == dial(w.outcome.host, w.outcome.lastResort) >= 0)
  {
    hide Sweep, Visit, Choose, Servers, First, Serves;
    EarlyState(list, order, now, sessionless, dial);
    var a := Early(list, order, now, sessionless, dial);
    if a.outcome == Nobody {
      SweepState(Blocking, a.list, order, now, dial);
      var w := Sweep(Blocking, a.list, order, now, dial);
      if w.outcome == Nobody {
        FailureIsTotal(list, order, now, sessionless, dial);
      } else if w.outcome.Reused? {
        // A pool that is still filled here was never visited before.
        assert a.list[w.outcome.host].sockets == list[w.outcome.host].sockets;
      }
    }
  }

  /** No sweep ever fills a pool. */
  lemma {:induction false} SweepKeepsEmpty(phase: Phase, list: seq<Srun>, order: seq<nat>, now: nat, dial: Dial, j: nat)
    requires Within(order, list) && j < |list| && list[j].sockets == []
    ensures Sweep(phase, list, order, now, dial).list[j].sockets == []
    decreases |order|
  {
    if order == [] {
    } else {
      var v := Visit(phase, list, order[0], now, dial);
      if v.outcome == Nobody {
        SweepKeepsEmpty(phase, v.list, order[1..], now, dial, j);
      }
    }
  }

  /**
   * A request without a session reaches a backup only if, in the same call, no primary had a
   * fresh socket and each was inside its dead window or refused a connect; and every primary's
   * pool is then empty.
   */
  lemma BackupOnlyAfterPrimaries(list: seq<Srun>, order: seq<nat>, now: nat, dial: Dial, j: nat)
    requires Within(order, list) && Distinct(order)
    requires var w := Open(list, order, now, true, dial);
             w.outcome != Nobody && list[w.outcome.host].isBackup
    requires j in order && !list[j].isBackup
    ensures !Fresh(list[j], now)
    ensures Waiting(list[j], now) || dial(j, false) < 0
    ensures Open(list, order, now, true, dial).list[j].sockets == []
  {
    hide Sweep, Visit;
    EarlyChooses(list, order, now, true, dial);
    EarlyState(list, order, now, true, dial);
    var a := Early(list, order, now, true, dial);
    assert j !in Servers(Timed(true), list, now, dial);
    SweepKeepsEmpty(Blocking, a.list, order, now, dial, j);
  }

  /**
   * A sessionless request is served from a primary's pool exactly when some primary has a
   * fresh pooled socket: no new connection is opened while one could be reused.
   */
  lemma ReusesWheneverPossible(list: seq<Srun>, order: seq<nat>, now: nat, dial: Dial)
    requires Within(order, list) && Distinct(order)
    ensures var o := Open(list, order, now, true, dial).outcome;
            (o.Reused? && !list[o.host].isBackup) <==>
              exists j :: j in order && !list[j].isBackup && Fresh(list[j], now)
  {
    OpenChooses(list, order, now, true, dial);
    var f := First(order, Servers(PoolsOnly, list, now, dial));
    if f.None? {
      forall j | j in order ensures list[j].isBackup || !Fresh(list[j], now) {
        assert j !in Servers(PoolsOnly, list, now, dial);
      }
    }
  }

  /**
   * Session affinity: the runner visited first is the one that serves, from its pool or by a
   * timed connect, exactly when it has a fresh socket or is outside its dead window and accepts.
   */
  lemma AffinityServes(list: seq<Srun>, order: seq<nat>, now: nat, dial: Dial)
    requires Within(order, list) && Distinct(order) && order != []
    ensures var o := Open(list, order, now, false, dial).outcome;
            var k := order[0];
            (o.Reused? && o.host == k) || (o.Connected? && o.host == k && !o.lastResort)
            <==> Fresh(list[k], now) || (!Waiting(list[k], now) && dial(k, false) >= 0)
    ensures Fresh(list[order[0]], now) ==>
              Open(list, order, now, false, dial).outcome == Reused(order[0], Top(list[order[0]]))
    ensures Fresh(list[order[0]], now) ==> Open(list, order, now, false, dial).closed == []
    ensures !Fresh(list[order[0]], now) ==>
              Reversed(list[order[0]].sockets) <= Open(list, order, now, false, dial).closed
  {
    FirstCloses(list, order, now, dial);
    OpenChooses(list, order, now, false, dial);
    var good := Servers(Timed(false), list, now, dial);
    if order[0] in good {
      assert First(order, good) == Some(order[0]);
    } else {
      DistinctTail(order);
      assert First(order, good) == First(order[1..], good);
    }
  }

  /** If no primary has a fresh pooled socket, a call without a session leaves every primary's pool empty. */
  lemma StalePrimariesEmptied(list: seq<Srun>, order: seq<nat>, now: nat, dial: Dial, j: nat)
    requires Within(order, list) && Distinct(order) && j in order && !list[j].isBackup
    requires forall i :: i in order && !list[i].isBackup ==> !Fresh(list[i], now)
    ensures Open(list, order, now, true, dial).list[j].sockets == []
  {
    hide Sweep, Visit, Fresh;
    SweepChooses(PoolsOnly, list, order, now, dial);
    SweepState(PoolsOnly, list, order, now, dial);
    var a := Sweep(PoolsOnly, list, order, now, dial);
    SweepKeepsEmpty(Timed(true), a.list, order, now, dial, j);
    var b := Then(a, Timed(true), order, now, dial);
    SweepKeepsEmpty(Blocking, b.list, order, now, dial, j);
  }

  /** A runner that is not fresh, left alone and refuses the last connect does not serve a call with a session. */
  lemma WaitingIsPassed(list: seq<Srun>, order: seq<nat>, now: nat, dial: Dial)
    requires Within(order, list) && Distinct(order) && order != []
    requires !Fresh(list[order[0]], now) && Waiting(list[order[0]], now) && dial(order[0], true) < 0
    ensures var o := Open(list, order, now, false, dial).outcome; o != Nobody ==> o.host != order[0]
  {
    hide Fresh, Waiting;
    OpenChooses(list, order, now, false, dial);
    var k := order[0];
    assert k !in Servers(Timed(false), list, now, dial) && k !in LastServers(list, now, false, dial);
  }

  /** What a call with a session closes first is the pool of the runner visited first, unless that is fresh. */
  lemma FirstCloses(list: seq<Srun>, order: seq<nat>, now: nat, dial: Dial)
    requires Within(order, list) && order != []
    ensures var closed := Open(list, order, now, false, dial).closed;
            if Fresh(list[order[0]], now) then closed == [] else Reversed(list[order[0]].sockets) <= closed
  {
    hide Dialing, Fresh;
    var v := Visit(Timed(false), list, order[0], now, dial);
    var w := Sweep(Timed(false), list, order, now, dial);
    assert v.closed <= w.closed;
    assert [] + w.closed == w.closed;
    assert w.closed <= Open(list, order, now, false, dial).closed;
    DialingCloses(Reusing(list, order[0], now), order[0], now, dial);
  }

  lemma DialingCloses(a: Swept, i: nat, now: nat, dial: Dial)
    requires i < |a.list|
    ensures Dialing(a, i, now, false, dial).closed == a.closed
  {
  }

  /** A failed reuse always leaves that runner's pool empty, whatever the clock says. */
  lemma FailedReuseEmpties(list: seq<Srun>, i: nat, now: nat)
    requires i < |list|
    ensures var w := Reusing(list, i, now);
            && (w.outcome == Nobody ==> w.list[i].sockets == [] && multiset(w.closed) == multiset(list[i].sockets))
            && (w.outcome != Nobody ==> w.closed == [] && w.list[i].sockets + [w.outcome.fd] == list[i].sockets)
  {
    ReversedKeeps(list[i].sockets);
  }

  lemma {:induction false} ReversedKeeps(s: seq<int>)
    ensures multiset(Reversed(s)) == multiset(s)
  {
    if s == [] {
    } else {
      var n := |s| - 1;
      ReversedKeeps(s[..n]);
      assert s == s[..n] + [s[n]];
    }
  }

  /** The same runner, perhaps with fewer pooled sockets, another standing, or its missing port filled in. */
  predicate SameRunner(a: Srun, b: Srun)
  {
    && b == a.(port := b.port, isDead := b.isDead, lastTime := b.lastTime, sockets := b.sockets)
    && b.sockets <= a.sockets
    && (b.port == a.port || (a.port <= 0 && b.port == 6802))
  }

  ghost predicate SameRunners(a: seq<Srun>, b: seq<Srun>)
  {
    |a| == |b| && forall k :: 0 <= k < |a| ==> SameRunner(a[k], b[k])
  }

  lemma {:induction false} SweepKeepsRunners(phase: Phase, list: seq<Srun>, order: seq<nat>, now: nat, dial: Dial)
    requires Within(order, list)
    ensures SameRunners(list, Sweep(phase, list, order, now, dial).list)
    decreases |order|
  {
    if order == [] {
    } else {
      VisitKeepsRunner(phase, list, order[0], now, dial);
      var v := Visit(phase, list, order[0], now, dial);
      if v.outcome == Nobody {
        hide Visit, SameRunner;
        SweepKeepsRunners(phase, v.list, order[1..], now, dial);
        SameTwice(list, v.list, Sweep(phase, v.list, order[1..], now, dial).list);
      }
    }
  }

  lemma VisitKeepsRunner(phase: Phase, list: seq<Srun>, i: nat, now: nat, dial: Dial)
    requires i < |list|
    ensures SameRunners(list, Visit(phase, list, i, now, dial).list)
  {
    hide Visit, SameRunner, Serves, Served, Left, Taken, Alive, Dialed, Drained, Fresh;
    VisitMeaning(phase, list, i, now, dial);
    RunnerKept(phase, list[i], now);
    var v := Visit(phase, list, i, now, dial);
    assert SameRunner(list[i], v.list[i]);
    forall k | 0 <= k < |list| ensures SameRunner(list[k], v.list[k]) {
      SameAsItself(list[k]);
    }
  }

  lemma SameAsItself(r: Srun)
    ensures SameRunner(r, r)
  {
  }

  /** Whatever a visit leaves of a runner, it is the same runner. */
  lemma RunnerKept(phase: Phase, r: Srun, now: nat)
    ensures SameRunner(r, Left(phase, r, now)) && SameRunner(r, Alive(Dialed(Drained(r, now)), now))
    ensures Fresh(r, now) ==> SameRunner(r, Taken(r, now))
  {
  }

  lemma SameTwice(a: seq<Srun>, b: seq<Srun>, c: seq<Srun>)
    requires SameRunners(a, b) && SameRunners(b, c)
    ensures SameRunners(a, c)
  {
    forall k | 0 <= k < |a| ensures SameRunner(a[k], c[k]) {
      assert SameRunner(a[k], b[k]) && SameRunner(b[k], c[k]);
    }
  }

  /** A call leaves every runner in its place, at most with fewer pooled sockets. */
  lemma OpenKeepsRunners(list: seq<Srun>, order: seq<nat>, now: nat, sessionless: bool, dial: Dial)
    requires Within(order, list)
    ensures SameRunners(list, Open(list, order, now, sessionless, dial).list)
  {
    hide Sweep, SameRunners;
    assert SameRunners(list, list) by {
      AsItIs(list);
    }
    var pools := if sessionless then Sweep(PoolsOnly, list, order, now, dial) else Swept(list, [], Nobody);
    if sessionless {
      SweepKeepsRunners(PoolsOnly, list, order, now, dial);
    }
    var early := Early(list, order, now, sessionless, dial);
    if pools.outcome == Nobody {
      SweepKeepsRunners(Timed(sessionless), pools.list, order, now, dial);
      SameTwice(list, pools.list, early.list);
    }
    if early.outcome == Nobody {
      SweepKeepsRunners(Blocking, early.list, order, now, dial);
      SameTwice(list, early.list, Open(list, order, now, sessionless, dial).list);
    }
  }

  lemma AsItIs(list: seq<Srun>)
    ensures SameRunners(list, list)
  {
  }

  /** A descriptor handed out is one the system gave, now or earlier. */
  lemma HandedOutIsOpen(list: seq<Srun>, order: seq<nat>, now: nat, sessionless: bool, dial: Dial)
    requires Within(order, list) && Distinct(order)
    requires forall k, j :: 0 <= k < |list| && 0 <= j < |list[k].sockets| ==> list[k].sockets[j] >= 0
    ensures var o := Open(list, order, now, sessionless, dial).outcome; o != Nobody ==> o.fd >= 0
  {
    hide Open, AllFailed, SameElsewhere;
    OpenContract(list, order, now, sessionless, dial);
    var w := Open(list, order, now, sessionless, dial);
    if w.outcome.Reused? {
      var n := |w.list[w.outcome.host].sockets|;
      assert list[w.outcome.host].sockets[n] == w.outcome.fd;
    }
  }
}
