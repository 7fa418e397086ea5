/**
 * One servlet runner (`srun_t`) as a value, and the three sweeps of `open_connection`
 * as functions on the list of runners. `dial(i, lastResort)` stands for the operating
 * system's answer to a connect: a descriptor, or a negative number.
 */
module Sruns {
  import opened Wrappers
  import opened Words
  import opened Rotation

  const DEFAULT_PORT := 6802
  const DEAD_TIME := 120
  const LIVE_TIME := 10
  const CONNECT_TIMEOUT := 2
  const MAX_SOCKETS := 32

  /** `sockets` is the used part of the fixed array, its last element the top of the stack. */
  datatype Srun = Srun(
    address: Option<int>,
    port: int,
    isBackup: bool,
    session: int,
    isDead: bool,
    lastTime: nat,
    sockets: seq<int>,
    maxSockets: int,
    isDefault: bool,
    connectTimeout: int,
    liveTime: int,
    deadTime: int)

  const ZEROED := Srun(None, 0, false, 0, false, 0, [], 0, false, 0, 0, 0)

  type Dial = (nat, bool) -> int

  /** The unsigned comparison `last + window >= now`, wrap-around included. */
  predicate InWindow(last: nat, window: int, now: nat)
  {
    Unsigned(last + window) >= now
  }

  /** Away from the wrap, the comparison says that at most `window` seconds have passed. */
  lemma InWindowMeaning(last: nat, window: nat, now: nat)
    requires last <= now && last + window < TWO_32
    ensures InWindow(last, window, now) <==> now - last <= window
  {
  }

  /** A clock that moved backwards pulls the last use back with it. */
  function Earliest(r: Srun, now: nat): nat
  {
    if now < r.lastTime then now else r.lastTime
  }

  /** There is a pooled socket and it was used within the live time. */
  predicate Fresh(r: Srun, now: nat)
  {
    |r.sockets| > 0 && InWindow(Earliest(r, now), r.liveTime, now)
  }

  /** The runner failed recently and is still left alone. */
  predicate Waiting(r: Srun, now: nat)
  {
    r.isDead && InWindow(Earliest(r, now), r.deadTime, now)
  }

  function Top(r: Srun): int
    requires |r.sockets| > 0
  {
    r.sockets[|r.sockets| - 1]
  }

  function Alive(r: Srun, now: nat): Srun { r.(isDead := false, lastTime := now) }

  function Dead(r: Srun, now: nat): Srun { r.(isDead := true, lastTime := now) }

  function Taken(r: Srun, now: nat): Srun
    requires |r.sockets| > 0
  {
    Alive(r, now).(sockets := r.sockets[..|r.sockets| - 1])
  }

  function Drained(r: Srun, now: nat): Srun { r.(sockets := [], lastTime := Earliest(r, now)) }

  /** `cse_open` fills in a missing port before it connects. */
  function Dialed(r: Srun): Srun { r.(port := if r.port <= 0 then DEFAULT_PORT else r.port) }

  /** The order in which a drained pool is closed: top first. */
  function Reversed(s: seq<int>): (r: seq<int>)
    ensures |r| == |s|
    ensures forall i :: 0 <= i < |s| ==> r[i] == s[|s| - 1 - i]
  {
    if s == [] then [] else [s[|s| - 1]] + Reversed(s[..|s| - 1])
  }

  /** What a call ends with: nothing, a pooled descriptor, or a newly connected one. */
  datatype Outcome =
    | Nobody
    | Reused(host: nat, fd: int)
    | Connected(host: nat, fd: int, lastResort: bool)

  /** The list after a sweep, the descriptors it closed in order, and its outcome. */
  datatype Swept = Swept(list: seq<Srun>, closed: seq<int>, outcome: Outcome)

  function Before(closed: seq<int>, rest: Swept): Swept { rest.(closed := closed + rest.closed) }

  predicate Within(order: seq<nat>, list: seq<Srun>)
  {
    forall k :: 0 <= k < |order| ==> order[k] < |list|
  }

  lemma PermutesWithin(order: seq<nat>, size: nat, list: seq<Srun>)
    requires Permutes(order, size) && size <= |list|
    ensures Within(order, list)
  {
  }

  /** The three sweeps: pools of primaries, then timed connects, then blocking ones. */
  datatype Phase = PoolsOnly | Timed(sessionless: bool) | Blocking

  /** `cse_reuse_socket` on one runner. */
  function Reusing(list: seq<Srun>, i: nat, now: nat): (w: Swept)
    requires i < |list|
  {
    var r := list[i];
    if Fresh(r, now) then Swept(list[i := Taken(r, now)], [], Reused(i, Top(r)))
    else Swept(list[i := Drained(r, now)], Reversed(r.sockets), Nobody)
  }

  /** A connect after a failed reuse; what a failure leaves depends on the sweep. */
  function Dialing(a: Swept, i: nat, now: nat, lastResort: bool, dial: Dial): (w: Swept)
    requires i < |a.list|
  {
    var r := Dialed(a.list[i]);
    if dial(i, lastResort) >= 0 then
      Swept(a.list[i := Alive(r, now)], a.closed, Connected(i, dial(i, lastResort), lastResort))
    else
      Swept(a.list[i := if lastResort then Dead(r, now) else r], a.closed, Nobody)
  }

  /** One iteration of a sweep. */
  function Visit(phase: Phase, list: seq<Srun>, i: nat, now: nat, dial: Dial): (w: Swept)
    requires i < |list|
    ensures |w.list| == |list|
    ensures w.outcome != Nobody ==> w.outcome.host == i
  {
    var skip := Swept(list, [], Nobody);
    var a := Reusing(list, i, now);
    match phase
    case PoolsOnly => if list[i].isBackup then skip else a
    case Timed(sessionless) =>
      if sessionless && list[i].isBackup then skip
      else if a.outcome != Nobody then a
      else if a.list[i].isDead && InWindow(a.list[i].lastTime, a.list[i].deadTime, now) then a
      else Dialing(a, i, now, false, dial)
    case Blocking => if a.outcome != Nobody then a else Dialing(a, i, now, true, dial)
  }

  /** A whole sweep stops at the first runner that serves. */
  function Sweep(phase: Phase, list: seq<Srun>, order: seq<nat>, now: nat, dial: Dial): (w: Swept)
    requires Within(order, list)
    ensures |w.list| == |list|
    ensures w.outcome != Nobody ==> w.outcome.host in order && w.outcome.host < |list|
    decreases |order|
  {
    if order == [] then Swept(list, [], Nobody) else
      var v := Visit(phase, list, order[0], now, dial);
      if v.outcome != Nobody then v else Before(v.closed, Sweep(phase, v.list, order[1..], now, dial))
  }

  lemma SweepDone(phase: Phase, list: seq<Srun>, order: seq<nat>, now: nat, dial: Dial, done: seq<int>)
    ensures Before(done, Sweep(phase, list, order[|order|..], now, dial)) == Swept(list, done, Nobody)
  {
  }

  /** A sweep seen from its iteration n, after the closes of the iterations before it. */
  lemma SweepStep(phase: Phase, list: seq<Srun>, order: seq<nat>, n: nat, now: nat, dial: Dial, done: seq<int>)
    requires Within(order, list) && n < |order|
    ensures var v := Visit(phase, list, order[n], now, dial);
            Before(done, Sweep(phase, list, order[n..], now, dial))
            == if v.outcome != Nobody then Before(done, v)
               else Before(done + v.closed, Sweep(phase, v.list, order[n + 1..], now, dial))
  {
  }

  /** The next sweep runs only if the previous one found nobody. */
  function Then(a: Swept, phase: Phase, order: seq<nat>, now: nat, dial: Dial): (w: Swept)
    requires Within(order, a.list)
    ensures |w.list| == |a.list|
  {
    if a.outcome != Nobody then a else Before(a.closed, Sweep(phase, a.list, order, now, dial))
  }

  /** `open_connection`; a request with a session skips the first sweep. */
  function Open(list: seq<Srun>, order: seq<nat>, now: nat, sessionless: bool, dial: Dial): (w: Swept)
    requires Within(order, list)
    ensures |w.list| == |list|
    ensures w.outcome != Nobody ==> w.outcome.host in order && w.outcome.host < |list|
  {
    var pools := if sessionless then Sweep(PoolsOnly, list, order, now, dial) else Swept(list, [], Nobody);
    Then(Then(pools, Timed(sessionless), order, now, dial), Blocking, order, now, dial)
  }
}
