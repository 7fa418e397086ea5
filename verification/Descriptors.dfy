/**
 * Who owns which descriptor, over every interleaving of the atomic regions of any number of
 * requests: the locked reuse, the connect, cleanup registration, recycle, close, the end of a
 * request with its registered cleanups, and the draining of a pool at child exit.
 */
module Descriptors {
  import opened Rotation
  import opened Sruns

  /** A request's `stream_t`; its request pool is named by the same number. */
  datatype Holder = Holder(socket: int, srun: int, updateCount: int)

  /** `live`: descriptors open in the process. `stray`: closes that hit a descriptor not open. */
  datatype World = World(
    list: seq<Srun>,
    updateCount: int,
    streams: map<nat, Holder>,
    live: set<int>,
    cleanups: set<(nat, int)>,
    stray: nat)

  datatype Step =
    | Begin(id: nat)
    | TryReuse(id: nat, i: nat, now: nat)
    | TryConnect(id: nat, i: nat, fd: int)
    | Stamp(i: nat, dead: bool, now: nat)
    | Register(id: nat)
    | Recycle(id: nat)
    | Close(id: nat)
    | EndRequest(id: nat)
    | DrainPool(i: nat)

  /** `closesocket`; closing a negative number is harmless. */
  function CloseOne(w: World, fd: int): World
  {
    if fd < 0 then w
    else if fd in w.live then w.(live := w.live - {fd})
    else w.(stray := w.stray + 1)
  }

  function CloseSeq(w: World, fds: seq<int>): World
    decreases |fds|
  {
    if fds == [] then w else CloseSeq(CloseOne(w, fds[0]), fds[1..])
  }

  function KillCleanup(w: World, id: nat, socket: int): World
  {
    if socket > 0 then w.(cleanups := w.cleanups - {(id, socket)}) else w
  }

  function Release(w: World, id: nat): World
    requires id in w.streams
  {
    var socket := w.streams[id].socket;
    KillCleanup(w.(streams := w.streams[id := w.streams[id].(socket := -1)]), id, socket)
  }

  function CloseStream(w: World, id: nat): World
    requires id in w.streams
  {
    CloseOne(Release(w, id), w.streams[id].socket)
  }

  /** The test `cse_recycle` makes under the lock. */
  predicate Poolable(w: World, id: nat)
    requires id in w.streams
  {
    var h := w.streams[id];
    h.socket >= 0 && h.updateCount == w.updateCount && 0 <= h.srun < |w.list|
    && |w.list[h.srun].sockets| < w.list[h.srun].maxSockets
  }

  function RecycleStream(w: World, id: nat): World
    requires id in w.streams
  {
    if Poolable(w, id) then
      var h := w.streams[id];
      var r := w.list[h.srun];
      Release(w, id).(list := w.list[h.srun := r.(sockets := r.sockets + [h.socket])])
    else CloseStream(w, id)
  }

  /** `cse_reuse_socket` for a stream. */
  function ReuseFor(w: World, id: nat, i: nat, now: nat): World
    requires i < |w.list|
  {
    var a := Reusing(w.list, i, now);
    if a.outcome == Nobody then CloseSeq(w.(list := a.list), a.closed)
    else w.(list := a.list, streams := w.streams[id := Holder(a.outcome.fd, i, w.updateCount)])
  }

  /** `cse_open` for a stream: fd is the system's answer. */
  function ConnectFor(w: World, id: nat, i: nat, fd: int): World
    requires i < |w.list|
  {
    w.(list := w.list[i := Dialed(w.list[i])],
       streams := w.streams[id := Holder(fd, i, 0)],
       live := if fd >= 0 then w.live + {fd} else w.live)
  }

  /** The descriptors registered with a request's pool. */
  function Registered(w: World, id: nat): set<int>
  {
    set c | c in w.cleanups && c.0 == id :: c.1
  }

  /** The request pool is destroyed: its registered descriptors are closed, its stream is gone. */
  function Finish(w: World, id: nat): World
  {
    var fds := Registered(w, id);
    w.(streams := w.streams - {id},
       cleanups := (set c | c in w.cleanups && c.0 != id),
       live := w.live - fds,
       stray := w.stray + |fds - w.live|)
  }

  predicate Enabled(w: World, s: Step)
  {
    match s
    case Begin(id) => id !in w.streams
    // open_connection only asks for a socket while its stream holds none
    case TryReuse(id, i, _) => id in w.streams && w.streams[id].socket < 0 && i < |w.list|
    // the system never hands out a descriptor that is open
    case TryConnect(id, i, fd) =>
      id in w.streams && w.streams[id].socket < 0 && i < |w.list| && (fd >= 0 ==> fd !in w.live)
    case Stamp(i, _, _) => i < |w.list|
    case Register(id) => id in w.streams
    case Recycle(id) => id in w.streams
    case Close(id) => id in w.streams
    case EndRequest(id) => id in w.streams
    case DrainPool(i) => i < |w.list|
  }

  function Next(w: World, s: Step): World
    requires Enabled(w, s)
  {
    match s
    case Begin(id) => w.(streams := w.streams[id := Holder(-1, -1, 0)])
    case TryReuse(id, i, now) => ReuseFor(w, id, i, now)
    case TryConnect(id, i, fd) => ConnectFor(w, id, i, fd)
    case Stamp(i, dead, now) =>
      w.(list := w.list[i := if dead then Dead(w.list[i], now) else Alive(w.list[i], now)])
    case Register(id) =>
      var socket := w.streams[id].socket;
      if socket > 0 then w.(cleanups := w.cleanups + {(id, socket)}) else w
    case Recycle(id) => RecycleStream(w, id)
    case Close(id) => CloseStream(w, id)
    case EndRequest(id) => Finish(w, id)
    case DrainPool(i) =>
      CloseSeq(w.(list := w.list[i := w.list[i].(sockets := [])]), Reversed(w.list[i].sockets))
  }

  ghost predicate Legal(w: World, steps: seq<Step>)
    decreases |steps|
  {
    steps == [] || (Enabled(w, steps[0]) && Legal(Next(w, steps[0]), steps[1..]))
  }

  function Run(w: World, steps: seq<Step>): World
    requires Legal(w, steps)
    decreases |steps|
  {
    if steps == [] then w else Run(Next(w, steps[0]), steps[1..])
  }

  // The invariant, in four parts.

  /** What streams hold is open and held by one stream only. */
  ghost predicate StreamsOwn(w: World)
  {
    && (forall id :: id in w.streams && w.streams[id].socket >= 0 ==> w.streams[id].socket in w.live)
    && (forall a, b :: a in w.streams && b in w.streams && a != b && w.streams[a].socket >= 0 ==>
          w.streams[a].socket != w.streams[b].socket)
  }

  /** What pools hold is open, in one slot of one pool only, and held by no stream. */
  ghost predicate PoolsOwn(w: World)
  {
    && (forall i, k :: 0 <= i < |w.list| && 0 <= k < |w.list[i].sockets| ==>
          w.list[i].sockets[k] >= 0 && w.list[i].sockets[k] in w.live)
    && (forall i, k, j, l ::
          0 <= i < |w.list| && 0 <= k < |w.list[i].sockets|
          && 0 <= j < |w.list| && 0 <= l < |w.list[j].sockets|
          && w.list[i].sockets[k] == w.list[j].sockets[l]
          ==> i == j && k == l)
    && (forall id, i, k :: id in w.streams && 0 <= i < |w.list| && 0 <= k < |w.list[i].sockets| ==>
          w.list[i].sockets[k] != w.streams[id].socket)
  }

  ghost predicate Bounded(w: World)
  {
    forall i :: 0 <= i < |w.list| ==> |w.list[i].sockets| <= w.list[i].maxSockets <= MAX_SOCKETS
  }

  /** Only a socket its own stream still holds is registered for cleanup. */
  ghost predicate CleanupsHeld(w: World)
  {
    forall c :: c in w.cleanups ==> c.1 > 0 && c.0 in w.streams && w.streams[c.0].socket == c.1
  }

  ghost predicate Inv(w: World)
  {
    && StreamsOwn(w) && PoolsOwn(w) && Bounded(w) && CleanupsHeld(w) && w.stray == 0
    && forall fd :: fd in w.live ==> fd >= 0
  }

  ghost predicate Held(w: World, fd: int)
  {
    exists id :: id in w.streams && w.streams[id].socket == fd
  }

  ghost predicate Pooled(w: World, fd: int)
  {
    exists i, k :: 0 <= i < |w.list| && 0 <= k < |w.list[i].sockets| && w.list[i].sockets[k] == fd
  }

  /** No descriptor is open without an owner. */
  ghost predicate Conserved(w: World)
  {
    forall fd :: fd in w.live ==> Held(w, fd) || Pooled(w, fd)
  }

  /** The request ends while its stream holds a socket nobody registered. */
  predicate Abandons(w: World, s: Step)
    requires Enabled(w, s)
  {
    s.EndRequest? && w.streams[s.id].socket >= 0 && (s.id, w.streams[s.id].socket) !in w.cleanups
  }

  function Elements(fds: seq<int>): set<int>
  {
    set k | 0 <= k < |fds| :: fds[k]
  }

  /** Closing distinct open descriptors closes exactly those. */
  lemma {:induction false} CloseSeqOwned(w: World, fds: seq<int>)
    requires Distinct(fds)
    requires forall k :: 0 <= k < |fds| ==> fds[k] >= 0 && fds[k] in w.live
    ensures CloseSeq(w, fds) == w.(live := w.live - Elements(fds))
    decreases |fds|
  {
    if fds == [] {
      assert w.live - Elements(fds) == w.live;
    } else {
      CloseSeqOwned(CloseOne(w, fds[0]), fds[1..]);
      assert w.live - {fds[0]} - Elements(fds[1..]) == w.live - Elements(fds) by {
        assert Elements(fds) == {fds[0]} + Elements(fds[1..]) by {
          forall x | x in Elements(fds) ensures x in {fds[0]} + Elements(fds[1..]) {
            var k :| 0 <= k < |fds| && fds[k] == x;
            if k > 0 { assert fds[1..][k - 1] == x; }
          }
          forall x | x in Elements(fds[1..]) ensures x in Elements(fds) {
            var k :| 0 <= k < |fds[1..]| && fds[1..][k] == x;
            assert fds[k + 1] == x;
          }
        }
      }
    }
  }

  /** Emptying the pool of runner i, which becomes r, and closing what it held. */
  function Emptied(w: World, i: nat, r: Srun): World
    requires i < |w.list|
  {
    CloseSeq(w.(list := w.list[i := r]), Reversed(w.list[i].sockets))
  }

  lemma EmptiedIs(w: World, i: nat, r: Srun)
    requires Inv(w) && i < |w.list|
    ensures Emptied(w, i, r) == w.(list := w.list[i := r], live := w.live - Elements(w.list[i].sockets))
  {
    var pool := w.list[i].sockets;
    var fds := Reversed(pool);
    forall a, b | 0 <= a < b < |fds| ensures fds[a] != fds[b] {
      assert fds[a] == w.list[i].sockets[|pool| - 1 - a] && fds[b] == w.list[i].sockets[|pool| - 1 - b];
    }
    CloseSeqOwned(w.(list := w.list[i := r]), fds);
    assert Elements(fds) == Elements(pool) by {
      forall x | x in Elements(pool) ensures x in Elements(fds) {
        var k :| 0 <= k < |pool| && pool[k] == x;
        assert fds[|pool| - 1 - k] == x;
      }
    }
  }

  /** A descriptor outside pool i that is held or pooled is not among those pool i closes. */
  lemma EmptiedKeeps(w: World, i: nat, r: Srun)
    requires Inv(w) && i < |w.list| && r.sockets == [] && 0 <= r.maxSockets <= MAX_SOCKETS
    ensures Inv(Emptied(w, i, r))
    ensures Conserved(w) ==> Conserved(Emptied(w, i, r))
  {
    EmptiedIs(w, i, r);
    var pool := w.list[i].sockets;
    var w' := Emptied(w, i, r);
    assert StreamsOwn(w') by {
      forall id | id in w.streams && w.streams[id].socket >= 0 ensures w.streams[id].socket in w'.live {
        assert w.streams[id].socket !in Elements(pool);
      }
    }
    assert PoolsOwn(w') by {
      forall j, l | 0 <= j < |w'.list| && 0 <= l < |w'.list[j].sockets|
        ensures j != i && w'.list[j].sockets[l] == w.list[j].sockets[l]
        ensures w'.list[j].sockets[l] in w'.live
      {
        assert w.list[j].sockets[l] !in Elements(pool);
      }
    }
    assert forall l :: 0 <= l < |pool| ==> pool[l] in Elements(pool);
    if Conserved(w) {
      forall fd | fd in w'.live ensures Held(w', fd) || Pooled(w', fd) {
        if Pooled(w, fd) {
          var j, l :| 0 <= j < |w.list| && 0 <= l < |w.list[j].sockets| && w.list[j].sockets[l] == fd;
          assert w'.list[j].sockets[l] == fd;
        }
      }
    }
  }

  /** A pooled socket moves from the top of its pool to a stream that held none. */
  lemma TakeKeeps(w: World, id: nat, i: nat, now: nat)
    requires Inv(w) && id in w.streams && w.streams[id].socket < 0 && i < |w.list| && Fresh(w.list[i], now)
    ensures Inv(ReuseFor(w, id, i, now))
  {
    hide InWindow, Earliest;
    var w' := ReuseFor(w, id, i, now);
    var top := |w.list[i].sockets| - 1;
    assert forall j, l :: 0 <= j < |w'.list| && 0 <= l < |w'.list[j].sockets| ==>
      l < |w.list[j].sockets| && w'.list[j].sockets[l] == w.list[j].sockets[l] && (j == i ==> l < top);
    assert PoolsOwn(w');
    assert forall c :: c in w.cleanups ==> c.0 != id;
    assert CleanupsHeld(w');
  }

  lemma TakeConserves(w: World, id: nat, i: nat, now: nat)
    requires Inv(w) && Conserved(w)
    requires id in w.streams && w.streams[id].socket < 0 && i < |w.list| && Fresh(w.list[i], now)
    ensures Conserved(ReuseFor(w, id, i, now))
  {
    hide StreamsOwn, PoolsOwn, Bounded, CleanupsHeld;
    var w' := ReuseFor(w, id, i, now);
    var fd := Top(w.list[i]);
    assert w'.streams[id].socket == fd;
    forall x | x in w'.live ensures Held(w', x) || Pooled(w', x) {
      if Held(w, x) {
        var h :| h in w.streams && w.streams[h].socket == x;
        assert w'.streams[h].socket == x;
      } else {
        var j, l :| 0 <= j < |w.list| && 0 <= l < |w.list[j].sockets| && w.list[j].sockets[l] == x;
        assert x == fd || w'.list[j].sockets[l] == x;
      }
    }
  }

  /** A connect hands a descriptor that was not open to a stream that held none. */
  lemma ConnectKeeps(w: World, id: nat, i: nat, fd: int)
    requires Inv(w) && Enabled(w, TryConnect(id, i, fd))
    ensures Inv(ConnectFor(w, id, i, fd))
    ensures Conserved(w) ==> Conserved(ConnectFor(w, id, i, fd))
  {
    var w' := ConnectFor(w, id, i, fd);
    SamePools(w, w');
    assert StreamsOwn(w');
    if Conserved(w) {
      forall x | x in w'.live ensures Held(w', x) || Pooled(w', x) {
        if x == fd {
          assert w'.streams[id].socket == fd;
        } else if Held(w, x) {
          var h :| h in w.streams && w.streams[h].socket == x;
          assert w'.streams[h].socket == x;
        }
      }
    }
  }

  /** The same pools hold the same descriptors. */
  lemma SamePools(w: World, w': World)
    requires |w.list| == |w'.list|
    requires forall i :: 0 <= i < |w.list| ==> w.list[i].sockets == w'.list[i].sockets
    ensures forall fd :: Pooled(w, fd) <==> Pooled(w', fd)
  {
  }

  /** A stream lets go of its socket and of its cleanup; the descriptor stays open. */
  lemma ReleaseKeeps(w: World, id: nat)
    requires Inv(w) && id in w.streams
    ensures Inv(Release(w, id))
    ensures forall fd :: fd >= 0 && fd != w.streams[id].socket && Held(w, fd) ==> Held(Release(w, id), fd)
    ensures var fd := w.streams[id].socket; fd >= 0 ==> !Held(Release(w, id), fd) && !Pooled(Release(w, id), fd)
  {
    var w' := Release(w, id);
    forall fd | fd >= 0 && fd != w.streams[id].socket && Held(w, fd) ensures Held(w', fd) {
      var h :| h in w.streams && w.streams[h].socket == fd;
      assert w'.streams[h].socket == fd;
    }
  }

  /** Closing a descriptor nobody owns any more. */
  lemma CloseKeeps(w: World, id: nat)
    requires Inv(w) && id in w.streams
    ensures Inv(CloseStream(w, id))
    ensures Conserved(w) ==> Conserved(CloseStream(w, id))
  {
    hide StreamsOwn, PoolsOwn, Bounded, CleanupsHeld;
    var fd := w.streams[id].socket;
    var r := Release(w, id);
    var w' := CloseStream(w, id);
    ReleaseKeeps(w, id);
    SamePools(w, r);
    SamePools(w, w');
    if fd >= 0 {
      SocketLive(w, id);
      DropUnowned(r, fd);
    }
    if Conserved(w) {
      forall x | x in w'.live ensures Held(w', x) || Pooled(w', x) {
        assert x in w.live && x != fd;
        if Held(w, x) {
          assert Held(r, x);
          var h :| h in r.streams && r.streams[h].socket == x;
          assert w'.streams[h].socket == x;
        }
      }
    }
  }

  lemma SocketLive(w: World, id: nat)
    requires Inv(w) && id in w.streams && w.streams[id].socket >= 0
    ensures w.streams[id].socket in w.live
  {
  }

  lemma DropUnowned(w: World, fd: int)
    requires Inv(w) && !Held(w, fd) && !Pooled(w, fd)
    ensures Inv(w.(live := w.live - {fd}))
  {
  }

  function Push(w: World, i: nat, fd: int): World
    requires i < |w.list|
  {
    w.(list := w.list[i := w.list[i].(sockets := w.list[i].sockets + [fd])])
  }

  /** A descriptor nobody owns goes on top of a pool with room. */
  lemma PushKeeps(w: World, i: nat, fd: int)
    requires Inv(w) && fd in w.live && !Held(w, fd) && !Pooled(w, fd)
    requires i < |w.list| && |w.list[i].sockets| < w.list[i].maxSockets
    ensures Inv(Push(w, i, fd))
  {
    var w' := Push(w, i, fd);
    assert forall j, l :: 0 <= j < |w'.list| && 0 <= l < |w'.list[j].sockets| ==>
      if l < |w.list[j].sockets| then w'.list[j].sockets[l] == w.list[j].sockets[l]
      else j == i && l == |w.list[j].sockets| && w'.list[j].sockets[l] == fd;
    assert PoolsOwn(w');
  }

  lemma PushPools(w: World, i: nat, fd: int)
    requires i < |w.list|
    ensures Pooled(Push(w, i, fd), fd)
    ensures forall x :: Pooled(w, x) ==> Pooled(Push(w, i, fd), x)
  {
    var w' := Push(w, i, fd);
    assert w'.list[i].sockets[|w.list[i].sockets|] == fd;
    forall x | Pooled(w, x) ensures Pooled(w', x) {
      var j, l :| 0 <= j < |w.list| && 0 <= l < |w.list[j].sockets| && w.list[j].sockets[l] == x;
      assert w'.list[j].sockets[l] == x;
    }
  }

  /** A recycled socket moves from its stream to the top of a pool. */
  lemma PutBackKeeps(w: World, id: nat)
    requires Inv(w) && id in w.streams && Poolable(w, id)
    ensures Inv(RecycleStream(w, id))
    ensures Conserved(w) ==> Conserved(RecycleStream(w, id))
  {
    hide StreamsOwn, PoolsOwn, Bounded, CleanupsHeld;
    var h := w.streams[id];
    var r := Release(w, id);
    var w' := RecycleStream(w, id);
    assert w' == Push(r, h.srun, h.socket);
    SocketLive(w, id);
    ReleaseKeeps(w, id);
    PushKeeps(r, h.srun, h.socket);
    PushPools(r, h.srun, h.socket);
    SamePools(w, r);
    if Conserved(w) {
      forall x | x in w'.live ensures Held(w', x) || Pooled(w', x) {
        if x != h.socket && Held(w, x) {
          assert x >= 0;
          var g :| g in r.streams && r.streams[g].socket == x;
          assert w'.streams[g].socket == x;
        }
      }
    }
  }

  /** A pool destroyed at the end of a request closes the stream's own socket, or nothing. */
  lemma RegisteredIs(w: World, id: nat)
    requires Inv(w) && id in w.streams
    ensures var fd := w.streams[id].socket;
            Registered(w, id) == if (id, fd) in w.cleanups then {fd} else {}
  {
  }

  /**
   * The end of a request closes no pooled descriptor and none twice. It leaves an open
   * descriptor without an owner exactly when the stream still held an unregistered one.
   */
  lemma FinishKeeps(w: World, id: nat)
    requires Inv(w) && id in w.streams
    ensures Inv(Finish(w, id))
    ensures Conserved(w) ==> (Conserved(Finish(w, id)) <==> !Abandons(w, EndRequest(id)))
  {
    var fd := w.streams[id].socket;
    var w' := Finish(w, id);
    RegisteredIs(w, id);
    var fds := Registered(w, id);
    assert fds - w.live == {};
    SamePools(w, w');
    assert StreamsOwn(w') && PoolsOwn(w') && CleanupsHeld(w');
    if Conserved(w) {
      forall x | x in w'.live && x != fd ensures Held(w', x) || Pooled(w', x) {
        if Held(w, x) {
          var h :| h in w.streams && w.streams[h].socket == x;
          assert w'.streams[h].socket == x;
        }
      }
      if fd >= 0 {
        assert !Held(w', fd) && !Pooled(w', fd);
      }
    }
  }

  /** Beginning, stamping and registering move no descriptor. */
  lemma BookkeepingKeeps(w: World, s: Step)
    requires Inv(w) && Enabled(w, s) && (s.Begin? || s.Stamp? || s.Register?)
    ensures Inv(Next(w, s))
  {
    hide Inv, Enabled, Next;
    if s.Register? {
      RegisterKeeps(w, s);
    } else if s.Begin? {
      BeginKeeps(w, s);
    } else {
      StampKeeps(w, s);
    }
  }

  lemma RegisterKeeps(w: World, s: Step)
    requires Inv(w) && Enabled(w, s) && s.Register?
    ensures Inv(Next(w, s))
  {
  }

  lemma BeginKeeps(w: World, s: Step)
    requires Inv(w) && Enabled(w, s) && s.Begin?
    ensures Inv(Next(w, s))
  {
    var w' := Next(w, s);
    assert PoolsOwn(w') && StreamsOwn(w') && Bounded(w');
  }

  lemma StampKeeps(w: World, s: Step)
    requires Inv(w) && Enabled(w, s) && s.Stamp?
    ensures Inv(Next(w, s))
  {
    var w' := Next(w, s);
    assert StreamsOwn(w') && Bounded(w') && CleanupsHeld(w');
  }

  lemma BookkeepingConserves(w: World, s: Step)
    requires Inv(w) && Enabled(w, s) && (s.Begin? || s.Stamp? || s.Register?) && Conserved(w)
    ensures Conserved(Next(w, s))
  {
    hide StreamsOwn, PoolsOwn, Bounded, CleanupsHeld;
    var w' := Next(w, s);
    SamePools(w, w');
    forall x | x in w'.live ensures Held(w', x) || Pooled(w', x) {
      if Held(w, x) {
        var h :| h in w.streams && w.streams[h].socket == x;
        assert w'.streams[h].socket == x;
      }
    }
  }

  /** Every atomic step keeps the invariant, and loses track of a descriptor exactly by abandoning it. */
  lemma StepKeeps(w: World, s: Step)
    requires Inv(w) && Enabled(w, s)
    ensures Inv(Next(w, s))
    ensures Conserved(w) ==> (Conserved(Next(w, s)) <==> !Abandons(w, s))
  {
    hide Inv, Conserved, CloseSeq, CloseOne, Release, Finish;
    match s
    case TryReuse(id, i, now) =>
      if Fresh(w.list[i], now) {
        TakeKeeps(w, id, i, now);
        if Conserved(w) {
          TakeConserves(w, id, i, now);
        }
      } else {
        PoolBound(w, i);
        assert ReuseFor(w, id, i, now) == Emptied(w, i, Drained(w.list[i], now));
        EmptiedKeeps(w, i, Drained(w.list[i], now));
      }
    case TryConnect(id, i, fd) => ConnectKeeps(w, id, i, fd);
    case Recycle(id) =>
      if Poolable(w, id) {
        PutBackKeeps(w, id);
      } else {
        CloseKeeps(w, id);
      }
    case Close(id) => CloseKeeps(w, id);
    case EndRequest(id) => FinishKeeps(w, id);
    case DrainPool(i) =>
      PoolBound(w, i);
      assert Next(w, s) == Emptied(w, i, w.list[i].(sockets := []));
      EmptiedKeeps(w, i, w.list[i].(sockets := []));
    case _ =>
      BookkeepingKeeps(w, s);
      if Conserved(w) {
        BookkeepingConserves(w, s);
      }
  }

  lemma PoolBound(w: World, i: nat)
    requires Inv(w) && i < |w.list|
    ensures 0 <= w.list[i].maxSockets <= MAX_SOCKETS
  {
  }

  /** A run in which no request ends with an unregistered socket. */
  ghost predicate Clean(w: World, steps: seq<Step>)
    requires Legal(w, steps)
    decreases |steps|
  {
    steps == [] || (!Abandons(w, steps[0]) && Clean(Next(w, steps[0]), steps[1..]))
  }

  /** Open, and in nobody's hands. */
  ghost predicate Ownerless(w: World, fd: int)
  {
    fd in w.live && !Held(w, fd) && !Pooled(w, fd)
  }

  lemma NotPooled(w: World, i: nat, fd: int)
    requires i < |w.list| && !Pooled(w, fd)
    ensures fd !in w.list[i].sockets && fd !in Elements(w.list[i].sockets)
  {
    forall k | 0 <= k < |w.list[i].sockets| ensures w.list[i].sockets[k] != fd {
    }
  }

  /** An emptied pool gives nobody anything. */
  lemma OwnerlessEmptied(w: World, i: nat, r: Srun, fd: int)
    requires Inv(w) && Ownerless(w, fd) && i < |w.list| && r.sockets == []
    ensures Ownerless(Emptied(w, i, r), fd)
  {
    hide Inv, Elements;
    EmptiedIs(w, i, r);
    NotPooled(w, i, fd);
    var w' := Emptied(w, i, r);
    forall j, k | 0 <= j < |w'.list| && 0 <= k < |w'.list[j].sockets| ensures w'.list[j].sockets[k] != fd {
      assert w.list[j].sockets[k] != fd;
    }
  }

  lemma OwnerlessTaken(w: World, id: nat, i: nat, now: nat, fd: int)
    requires Ownerless(w, fd) && id in w.streams && i < |w.list| && Fresh(w.list[i], now)
    ensures Ownerless(ReuseFor(w, id, i, now), fd)
  {
    hide InWindow, Earliest;
    var w' := ReuseFor(w, id, i, now);
    NotPooled(w, i, fd);
    forall j, k | 0 <= j < |w'.list| && 0 <= k < |w'.list[j].sockets| ensures w'.list[j].sockets[k] != fd {
      assert w.list[j].sockets[k] != fd;
    }
  }

  lemma OwnerlessReleased(w: World, id: nat, fd: int)
    requires Ownerless(w, fd) && id in w.streams && fd >= 0
    ensures w.streams[id].socket != fd
    ensures Ownerless(Release(w, id), fd) && Ownerless(CloseStream(w, id), fd)
  {
    SamePools(w, Release(w, id));
    SamePools(w, CloseStream(w, id));
  }

  lemma OwnerlessPushed(w: World, i: nat, x: int, fd: int)
    requires Ownerless(w, fd) && i < |w.list| && x != fd
    ensures Ownerless(Push(w, i, x), fd)
  {
    var w' := Push(w, i, x);
    forall j, k | 0 <= j < |w'.list| && 0 <= k < |w'.list[j].sockets| ensures w'.list[j].sockets[k] != fd {
      if k < |w.list[j].sockets| {
        assert w.list[j].sockets[k] != fd;
      }
    }
  }

  lemma OwnerlessElsewhere(w: World, s: Step, fd: int)
    requires Inv(w) && Enabled(w, s) && Ownerless(w, fd) && !(s.TryReuse? || s.Recycle? || s.Close? || s.DrainPool?)
    ensures Ownerless(Next(w, s), fd)
  {
    hide StreamsOwn, PoolsOwn, Bounded, CleanupsHeld;
    var w' := Next(w, s);
    SamePools(w, w');
    if s.EndRequest? {
      RegisteredIs(w, s.id);
    }
  }

  /** No step finds an owner for a descriptor that has none, or closes it. */
  lemma StaysOwnerless(w: World, s: Step, fd: int)
    requires Inv(w) && Enabled(w, s) && Ownerless(w, fd)
    ensures Ownerless(Next(w, s), fd)
  {
    hide StreamsOwn, PoolsOwn, Bounded, CleanupsHeld, Ownerless, CloseSeq, CloseOne, Finish;
    assert fd >= 0 by {
      LiveIsOpen(w, fd);
    }
    match s
    case TryReuse(id, i, now) =>
      if Fresh(w.list[i], now) {
        OwnerlessTaken(w, id, i, now, fd);
      } else {
        assert ReuseFor(w, id, i, now) == Emptied(w, i, Drained(w.list[i], now));
        OwnerlessEmptied(w, i, Drained(w.list[i], now), fd);
      }
    case Recycle(id) =>
      OwnerlessReleased(w, id, fd);
      if Poolable(w, id) {
        OwnerlessPushed(Release(w, id), w.streams[id].srun, w.streams[id].socket, fd);
      }
    case Close(id) => OwnerlessReleased(w, id, fd);
    case DrainPool(i) =>
      assert Next(w, s) == Emptied(w, i, w.list[i].(sockets := []));
      OwnerlessEmptied(w, i, w.list[i].(sockets := []), fd);
    case _ => OwnerlessElsewhere(w, s, fd);
  }

  lemma LiveIsOpen(w: World, fd: int)
    requires Inv(w) && Ownerless(w, fd)
    ensures fd >= 0
  {
  }

  lemma {:induction false} RunStaysOwnerless(w: World, steps: seq<Step>, fd: int)
    requires Inv(w) && Legal(w, steps) && Ownerless(w, fd)
    ensures Ownerless(Run(w, steps), fd)
    decreases |steps|
  {
    hide Inv, Conserved, Next, Ownerless;
    if steps == [] {
    } else {
      StepKeeps(w, steps[0]);
      StaysOwnerless(w, steps[0], fd);
      RunStaysOwnerless(Next(w, steps[0]), steps[1..], fd);
    }
  }

  /**
   * Descriptor conservation over every run, of any number of streams in any interleaving:
   * each open descriptor a stream or pool names is named once, nothing is closed twice, no pool
   * is over its maximum, no pooled descriptor has a registered cleanup; and every open descriptor
   * has its owner at the end exactly if no request ended with an unregistered socket.
   */
  lemma {:induction false} RunConserves(w: World, steps: seq<Step>)
    requires Inv(w) && Legal(w, steps)
    ensures Inv(Run(w, steps))
    ensures Conserved(w) ==> (Conserved(Run(w, steps)) <==> Clean(w, steps))
    decreases |steps|
  {
    hide Inv, Next;
    if steps == [] {
    } else {
      var w1 := Next(w, steps[0]);
      StepKeeps(w, steps[0]);
      RunConserves(w1, steps[1..]);
      if Conserved(w) && !Conserved(w1) {
        var fd :| fd in w1.live && !Held(w1, fd) && !Pooled(w1, fd);
        RunStaysOwnerless(w1, steps[1..], fd);
        assert Ownerless(Run(w1, steps[1..]), fd);
      }
    }
  }

  // ---- Requests that register or give back their socket ----

  /** Streams given a socket that is neither registered nor given back since, after a step. */
  function Owing(w: World, owing: set<nat>, s: Step): set<nat>
    requires Enabled(w, s)
  {
    match s
    case TryReuse(id, _, _) => owing + {id}
    case TryConnect(id, _, _) => owing + {id}
    case Register(id) => owing - {id}
    case Recycle(id) => owing - {id}
    case Close(id) => owing - {id}
    case _ => owing
  }

  /**
   * No request ends owing: `cse_open_connection` registers the socket it has opened, and the status
   * page, which opens without registering, recycles each socket before it goes on.
   */
  ghost predicate Orderly(w: World, owing: set<nat>, steps: seq<Step>)
    requires Legal(w, steps)
    decreases |steps|
  {
    steps == []
    || (&& (steps[0].EndRequest? ==> steps[0].id !in owing)
        && Orderly(Next(w, steps[0]), Owing(w, owing, steps[0]), steps[1..]))
  }

  /** Every socket but descriptor 0 is registered, unless its registration is owing. */
  ghost predicate Noted(w: World, owing: set<nat>)
  {
    forall id :: id in w.streams && id !in owing && w.streams[id].socket > 0 ==>
      (id, w.streams[id].socket) in w.cleanups
  }

  /** No request ends holding descriptor 0. */
  ghost predicate NeverEndsOnZero(w: World, steps: seq<Step>)
    requires Legal(w, steps)
    decreases |steps|
  {
    steps == []
    || (&& !(steps[0].EndRequest? && w.streams[steps[0].id].socket == 0)
        && NeverEndsOnZero(Next(w, steps[0]), steps[1..]))
  }

  lemma NotedStep(w: World, owing: set<nat>, s: Step)
    requires Inv(w) && Enabled(w, s) && Noted(w, owing)
    requires s.EndRequest? ==> s.id !in owing
    ensures Noted(Next(w, s), Owing(w, owing, s))
    ensures s.EndRequest? ==> (Abandons(w, s) <==> w.streams[s.id].socket == 0)
  {
    hide StreamsOwn, PoolsOwn, Bounded, CloseSeq;
    match s
    case TryReuse(id, i, now) => ReuseStreams(w, id, i, now);
    case DrainPool(i) =>
      CloseSeqStreams(w.(list := w.list[i := w.list[i].(sockets := [])]), Reversed(w.list[i].sockets));
    case EndRequest(id) => assert w.streams[id].socket == 0 ==> (id, 0) !in w.cleanups;
    case _ =>
  }

  lemma {:induction false} CloseSeqStreams(w: World, fds: seq<int>)
    ensures CloseSeq(w, fds).streams == w.streams && CloseSeq(w, fds).cleanups == w.cleanups
    decreases |fds|
  {
    if fds == [] {
    } else {
      CloseSeqStreams(CloseOne(w, fds[0]), fds[1..]);
    }
  }

  lemma ReuseStreams(w: World, id: nat, i: nat, now: nat)
    requires i < |w.list|
    ensures var w' := ReuseFor(w, id, i, now);
            w'.cleanups == w.cleanups
            && forall g :: g != id ==>
                 (g in w'.streams <==> g in w.streams) && (g in w.streams ==> w'.streams[g] == w.streams[g])
  {
    hide CloseSeq;
    var a := Reusing(w.list, i, now);
    CloseSeqStreams(w.(list := a.list), a.closed);
  }

  /** In such runs exactly the requests that end holding descriptor 0 lose one. */
  lemma OrderlyLosesOnlyZero(w: World, owing: set<nat>, steps: seq<Step>)
    requires Inv(w) && Conserved(w) && Noted(w, owing) && Legal(w, steps) && Orderly(w, owing, steps)
    ensures Conserved(Run(w, steps)) <==> NeverEndsOnZero(w, steps)
  {
    hide Inv, Conserved, Noted, Next;
    RunConserves(w, steps);
    OrderlyClean(w, owing, steps);
  }

  lemma {:induction false} OrderlyClean(w: World, owing: set<nat>, steps: seq<Step>)
    requires Inv(w) && Noted(w, owing) && Legal(w, steps) && Orderly(w, owing, steps)
    ensures Clean(w, steps) <==> NeverEndsOnZero(w, steps)
    decreases |steps|
  {
    hide Inv, Noted, Next;
    if steps == [] {
    } else {
      StepKeeps(w, steps[0]);
      NotedStep(w, owing, steps[0]);
      OrderlyClean(Next(w, steps[0]), Owing(w, owing, steps[0]), steps[1..]);
    }
  }

  /** What the invariant means for one open descriptor. */
  lemma OneOwner(w: World, fd: int)
    requires Inv(w) && Conserved(w) && fd in w.live
    ensures Held(w, fd) <==> !Pooled(w, fd)
    ensures Pooled(w, fd) ==> forall id :: (id, fd) !in w.cleanups
  {
  }

  /** Descriptor 0 is never registered, so a request that ends while holding it leaves it open for good. */
  lemma DescriptorZeroIsAbandoned()
    ensures var w := World([ZEROED], 0, map[], {}, {}, 0);
            var steps := [Begin(7), TryConnect(7, 0, 0), Register(7), EndRequest(7)];
            && Legal(w, steps)
            && Run(w, steps).live == {0} && !Conserved(Run(w, steps))
  {
    var w0 := World([ZEROED], 0, map[], {}, {}, 0);
    var w1 := Next(w0, Begin(7));
    var w2 := Next(w1, TryConnect(7, 0, 0));
    var w3 := Next(w2, Register(7));
    assert w3 == w2;
    assert Registered(w3, 7) == {};
    var w4 := Next(w3, EndRequest(7));
    var steps := [Begin(7), TryConnect(7, 0, 0), Register(7), EndRequest(7)];
    assert steps[1..] == [TryConnect(7, 0, 0), Register(7), EndRequest(7)];
    assert steps[1..][1..] == [Register(7), EndRequest(7)];
    assert steps[1..][1..][1..] == [EndRequest(7)];
    assert Legal(w3, [EndRequest(7)]) && Run(w3, [EndRequest(7)]) == w4;
    assert Legal(w2, [Register(7), EndRequest(7)]) && Run(w2, [Register(7), EndRequest(7)]) == w4;
    assert Legal(w1, steps[1..]) && Run(w1, steps[1..]) == w4;
    assert w4.live == {0} - {} == {0};
    assert 0 in w4.live;
  }
}
