/**
 * `open_connection` and the socket pool as the plugin runs them: structures updated in
 * place and loops with early exits, each proved against the sweeps on values.
 */
module Scheduler {
  import opened Wrappers
  import opened Words
  import opened Rotation
  import opened Sruns
  import opened Choice

  /** Process-wide state: the hash counter, the descriptors closed so far, the registered cleanups. */
  class Process {
    var count: int
    var closed: seq<int>
    var cleanups: set<(int, int)>

    constructor ()
      ensures count == 0 && closed == [] && cleanups == {}
    {
      count, closed, cleanups := 0, [], {};
    }

    /** `cse_set_socket_cleanup`: descriptor 0 is never registered. */
    method SetCleanup(socket: int, pool: int)
      modifies this`cleanups
      ensures cleanups == old(cleanups) + if socket > 0 then {(pool, socket)} else {}
    {
      if socket > 0 {
        cleanups := cleanups + {(pool, socket)};
      }
    }

    /** `cse_kill_socket_cleanup` */
    method KillCleanup(socket: int, pool: int)
      modifies this`cleanups
      ensures cleanups == old(cleanups) - if socket > 0 then {(pool, socket)} else {}
    {
      if socket > 0 {
        cleanups := cleanups - {(pool, socket)};
      }
    }
  }

  /** `config_t`: the list has one entry per unit of capacity, of which `srunSize` are in use. */
  class Config {
    var srunList: seq<Srun>
    var srunSize: nat
    var updateCount: int

    /** `cse_create_server_config` */
    constructor ()
      ensures Valid() && srunSize == 1 && |srunList| == 16 && updateCount == 0
      ensures srunList[0] == Srun(None, 6802, false, 0, false, 0, [], 32, false, 0, 0, 0)
      ensures forall k :: 1 <= k < 16 ==> srunList[k] == Srun(None, 0, false, 0, false, 0, [], 0, false, 0, 0, 0)
    {
      srunList := [ZEROED.(port := DEFAULT_PORT, maxSockets := MAX_SOCKETS)] + seq(15, _ => ZEROED);
      srunSize := 1;
      updateCount := 0;
    }

    /** How many entries a request considers: at least one, whatever the size says. */
    function Considered(): nat
      reads this
    {
      if srunSize < 1 then 1 else srunSize
    }

    /** Every considered runner's session number is its position. */
    ghost predicate Valid()
      reads this
    {
      && |srunList| >= 1 && srunSize <= |srunList|
      && (forall k :: 0 <= k < Considered() ==> srunList[k].session == k)
      && (forall k :: 0 <= k < |srunList| ==>
            |srunList[k].sockets| <= MAX_SOCKETS && srunList[k].maxSockets <= MAX_SOCKETS)
      && (forall k, j :: 0 <= k < |srunList| && 0 <= j < |srunList[k].sockets| ==> srunList[k].sockets[j] >= 0)
    }

    /** How many hosts stay when another is given: a lone default or unresolved one goes. */
    ghost function Base(): nat
      reads this
      requires |srunList| >= 1
    {
      if srunSize == 1 && (srunList[0].isDefault || srunList[0].address.None?) then 0 else srunSize
    }

    /** `cse_add_host_int`; the address is what the name lookup answered. */
    method AddHost(address: Option<int>, port: int, isBackup: bool, isDefault: bool) returns (added: bool)
      requires Valid()
      modifies this
      ensures Valid() && updateCount == old(updateCount)
      ensures added == address.Some?
      ensures srunSize == if added then old(Base()) + 1 else old(Base())
      ensures |srunList| == if old(Base()) < |old(srunList)| then |old(srunList)| else 2 * |old(srunList)|
      ensures forall k :: 0 <= k < |srunList| && !(added && k == old(Base())) ==>
                            srunList[k] == if k < |old(srunList)| then old(srunList)[k] else ZEROED
      ensures added ==>
                var base := old(Base());
                var r, was := srunList[base], if base < |old(srunList)| then old(srunList)[base] else ZEROED;
                && r.address == address && r.port == port && r.isBackup == isBackup
                && r.session == base && r.isDefault == (isDefault && base == 0)
                && r.sockets == [] && r.maxSockets == 32
                && r.connectTimeout == 2 && r.liveTime == 10 && r.deadTime == 120
                && r.isDead == was.isDead && r.lastTime == was.lastTime
    {
      if srunSize == 1 && (srunList[0].isDefault || srunList[0].address.None?) {
        srunSize := 0;
      }
      if srunSize >= |srunList| {
        srunList := srunList + seq(|srunList|, _ => ZEROED);
      }
      if address.Some? {
        var srun := srunList[srunSize].(
          address := address, port := port, isBackup := isBackup,
          sockets := [], maxSockets := MAX_SOCKETS,
          isDefault := isDefault && srunSize == 0,
          connectTimeout := CONNECT_TIMEOUT, liveTime := LIVE_TIME, deadTime := DEAD_TIME,
          session := srunSize);
        srunList := srunList[srunSize := srun];
        assert srunList[srunSize] == srun;
        srunSize := srunSize + 1;
        added := true;
      } else {
        added := false;
      }
    }
  }

  /** A host directive of the configuration: its arguments and the answer of the name lookup. */
  datatype HostLine = HostLine(address: Option<int>, port: int, isBackup: bool, isDefault: bool)

  /** What a host directive leaves of the hosts before it: a lone default or unresolved one goes. */
  function Kept(hosts: seq<HostLine>): seq<HostLine>
  {
    if |hosts| == 1 && (hosts[0].isDefault || hosts[0].address.None?) then [] else hosts
  }

  /** The hosts in use after one more directive. */
  function Next(hosts: seq<HostLine>, line: HostLine): seq<HostLine>
  {
    var base := Kept(hosts);
    if line.address.None? then base else base + [line.(isDefault := line.isDefault && base == [])]
  }

  /** The hosts in use after a list of directives. */
  function Listed(hosts: seq<HostLine>, lines: seq<HostLine>): seq<HostLine>
  {
    if lines == [] then hosts else Next(Listed(hosts, lines[..|lines| - 1]), lines[|lines| - 1])
  }

  /** A directive that resolves and is one's own. */
  predicate Own(line: HostLine) { line.address.Some? && !line.isDefault }

  /** The directives that resolve, none of them a default any more. */
  function Resolved(lines: seq<HostLine>): seq<HostLine>
  {
    if lines == [] then [] else
      var line := lines[|lines| - 1];
      Resolved(lines[..|lines| - 1]) + if line.address.None? then [] else [line.(isDefault := false)]
  }

  /** The position of the first directive that resolves and is one's own. */
  function FirstOwn(lines: seq<HostLine>): (k: nat)
    ensures k <= |lines|
    ensures k < |lines| ==> Own(lines[k])
    ensures forall j :: 0 <= j < k ==> !Own(lines[j])
  {
    if lines == [] then 0
    else
      var n := |lines| - 1;
      var k := FirstOwn(lines[..n]);
      if k < n || Own(lines[n]) then k else |lines|
  }

  /**
   * From a new configuration, the hosts in use are the directives that resolve, in order, from
   * the first one of one's own on; before that, at most a default just given.
   */
  lemma {:induction false} ListedAreResolved(first: HostLine, lines: seq<HostLine>)
    requires first.address.None? && lines != []
    ensures var k, last := FirstOwn(lines), lines[|lines| - 1];
            Listed([first], lines)
            == if k < |lines| then Resolved(lines[k..]) else if last.address.Some? then [last] else []
    decreases |lines|
  {
    hide Next, Kept, Own;
    var n := |lines| - 1;
    var before, k := lines[..n], FirstOwn(lines);
    if n == 0 {
      assert before == [];
      NotOwn(first);
      NextFresh([first], lines[0]);
      assert lines[0..] == lines;
      assert Resolved([]) == [];
    } else {
      ListedAreResolved(first, before);
      if k < n {
        assert lines[k..][..n - k] == before[k..];
        OwnComesFirst(before[k..]);
        NextOwn(Resolved(before[k..]), lines[n]);
      } else {
        assert !Own(before[n - 1]);
        NextFresh(Listed([first], before), lines[n]);
        assert lines[n..][..0] == [];
        assert Resolved([]) == [];
      }
    }
    NotOwn(lines[n]);
  }

  lemma NotOwn(line: HostLine)
    ensures Own(line) ==> line.address.Some? && line.(isDefault := false) == line
    ensures !Own(line) && line.address.Some? ==> line.isDefault
  {
  }

  /** Hosts that are given up leave the new one alone. */
  lemma NextFresh(hosts: seq<HostLine>, line: HostLine)
    requires hosts == [] || (|hosts| == 1 && !Own(hosts[0]))
    ensures Next(hosts, line) == if line.address.None? then [] else [line]
  {
  }

  /** Hosts that start with one's own are kept. */
  lemma NextOwn(hosts: seq<HostLine>, line: HostLine)
    requires hosts != [] && Own(hosts[0])
    ensures Next(hosts, line) == hosts + if line.address.None? then [] else [line.(isDefault := false)]
  {
  }

  /** A list that starts with a host of one's own is not given up. */
  lemma {:induction false} OwnComesFirst(lines: seq<HostLine>)
    requires lines != [] && Own(lines[0])
    ensures Resolved(lines) != [] && Own(Resolved(lines)[0])
  {
    var n := |lines| - 1;
    if n == 0 {
      assert lines[..0] == [];
    } else {
      OwnComesFirst(lines[..n]);
    }
  }

  /** A default is given up for the first directive after it. */
  lemma DefaultIsReplaced(d: HostLine, line: HostLine)
    requires d.isDefault && line.address.Some?
    ensures Next([d], line) == [line]
  {
  }

  /** The hosts a configuration uses, as directives. */
  function HostOf(r: Srun): HostLine { HostLine(r.address, r.port, r.isBackup, r.isDefault) }

  function Hosts(list: seq<Srun>, n: nat): seq<HostLine>
    requires n <= |list|
  {
    seq(n, k requires 0 <= k < n => HostOf(list[k]))
  }

  /** One host directive. */
  method AddLine(c: Config, line: HostLine)
    requires c.Valid()
    modifies c
    ensures c.Valid()
    ensures Hosts(c.srunList, c.srunSize) == Next(old(Hosts(c.srunList, c.srunSize)), line)
  {
    ghost var before := Hosts(c.srunList, c.srunSize);
    var _ := c.AddHost(line.address, line.port, line.isBackup, line.isDefault);
    assert forall k :: 0 <= k < |Kept(before)| ==> before[k] == Hosts(c.srunList, c.srunSize)[k];
  }

  /** After any sequence of host additions each runner's session number is its position. */
  method AddHosts(c: Config, lines: seq<HostLine>)
    requires c.Valid()
    modifies c
    ensures c.Valid()
    ensures Hosts(c.srunList, c.srunSize) == Listed(old(Hosts(c.srunList, c.srunSize)), lines)
  {
    hide Hosts, Kept, HostOf, Next;
    ghost var hosts := Hosts(c.srunList, c.srunSize);
    for n := 0 to |lines|
      invariant c.Valid()
      invariant Hosts(c.srunList, c.srunSize) == Listed(hosts, lines[..n])
    {
      AddLine(c, lines[n]);
      assert lines[..n + 1][..n] == lines[..n];
    }
    assert lines[..|lines|] == lines;
  }

  /** The connection part of `stream_t`; `srun` is a position in the list, or -1. */
  class Stream {
    var socket: int
    var srun: int
    var updateCount: int
    var pool: int
    var writeLength: nat
    var readOffset: nat
    var readLength: nat

    constructor ()
      ensures socket == -1
    {
      socket, srun, updateCount, pool, writeLength, readOffset, readLength := -1, -1, 0, 0, 0, 0, 0;
    }

    ghost predicate Empty()
      reads this
    {
      writeLength == 0 && readOffset == 0 && readLength == 0
    }

    method Reset(pool: int)
      modifies this
      ensures socket == -1 && srun == -1 && updateCount == 0 && this.pool == pool && Empty()
    {
      socket, srun, updateCount, this.pool := -1, -1, 0, pool;
      writeLength, readOffset, readLength := 0, 0, 0;
    }
  }

  /** `cse_close`: the stream lets go of its socket before the socket is closed. */
  method Close(p: Process, s: Stream)
    modifies p`closed, p`cleanups, s`socket
    ensures s.socket == -1
    ensures p.closed == old(p.closed) + [old(s.socket)]
    ensures p.cleanups == old(p.cleanups) - if old(s.socket) > 0 then {(s.pool, old(s.socket))} else {}
  {
    var socket := s.socket;
    s.socket := -1;
    p.KillCleanup(socket, s.pool);
    p.closed := p.closed + [socket];
  }

  /** The loop that empties a pool: each descriptor is popped and closed, top first. */
  method CloseAll(p: Process, sockets: seq<int>)
    modifies p`closed
    ensures p.closed == old(p.closed) + Reversed(sockets)
  {
    var n := |sockets|;
    ghost var done: seq<int> := [];
    while n > 0
      invariant 0 <= n <= |sockets|
      invariant p.closed == old(p.closed) + done
      invariant done + Reversed(sockets[..n]) == Reversed(sockets)
    {
      n := n - 1;
      p.closed := p.closed + [sockets[n]];
      done := done + [sockets[n]];
      assert sockets[..n + 1][..n] == sockets[..n];
    }
  }

  /**
   * What a try at reuse makes of a runner, in its fields and arithmetic alone: a pooled socket
   * serves for liveTime seconds after the runner was last used, in 32 bits; a clock put back counts
   * as a use. Otherwise the pool is emptied.
   */
  predicate ReusedAs(r: Srun, after: Srun, now: nat, ok: bool, socket: int)
  {
    var last := if now < r.lastTime then now else r.lastTime;
    && (ok <==> r.sockets != [] && (last + r.liveTime) % 0x1_0000_0000 >= now)
    && (0 <= last + r.liveTime < 0x1_0000_0000 ==> (ok <==> r.sockets != [] && now - last <= r.liveTime))
    && (ok ==>
          && after == r.(sockets := r.sockets[..|r.sockets| - 1], isDead := false, lastTime := now)
          && socket == r.sockets[|r.sockets| - 1])
    && (!ok ==> after == r.(sockets := [], lastTime := last))
  }

  /** `cse_reuse_socket`, one locked region. */
  method ReuseSocket(p: Process, s: Stream, c: Config, i: nat, now: nat, pool: int) returns (ok: bool)
    requires i < |c.srunList|
    modifies p`closed, s, c`srunList
    ensures ok == Fresh(old(c.srunList)[i], now)
    ensures |c.srunList| == |old(c.srunList)| && c.srunList == old(c.srunList)[i := c.srunList[i]]
    ensures ReusedAs(old(c.srunList)[i], c.srunList[i], now, ok, s.socket)
    ensures ok ==>
      && c.srunList == old(c.srunList)[i := Taken(old(c.srunList)[i], now)]
      && p.closed == old(p.closed)
      && s.socket == Top(old(c.srunList)[i]) && s.srun == i && s.updateCount == c.updateCount
      && s.pool == pool && s.Empty()
    ensures !ok ==>
      && c.srunList == old(c.srunList)[i := Drained(old(c.srunList)[i], now)]
      && p.closed == old(p.closed) + Reversed(old(c.srunList)[i].sockets)
      && unchanged(s)
  {
    var srun := c.srunList[i];
    if now < srun.lastTime {
      srun := srun.(lastTime := now);
    }
    if |srun.sockets| > 0 && Unsigned(srun.lastTime + srun.liveTime) >= now {
      s.pool, s.updateCount, s.srun := pool, c.updateCount, i;
      s.writeLength, s.readLength, s.readOffset := 0, 0, 0;
      s.socket := srun.sockets[|srun.sockets| - 1];
      srun := srun.(sockets := srun.sockets[..|srun.sockets| - 1], isDead := false, lastTime := now);
      c.srunList := c.srunList[i := srun];
      return true;
    }
    CloseAll(p, srun.sockets);
    srun := srun.(sockets := []);
    c.srunList := c.srunList[i := srun];
    ok := false;
  }

  /** `cse_open`: the descriptor, or a negative number, is the operating system's answer. */
  method Connect(s: Stream, c: Config, i: nat, pool: int, lastResort: bool, dial: Dial) returns (ok: bool)
    requires i < |c.srunList|
    modifies s, c`srunList
    ensures c.srunList == old(c.srunList)[i := Dialed(old(c.srunList)[i])]
    ensures c.srunList[i].port == if old(c.srunList)[i].port <= 0 then 6802 else old(c.srunList)[i].port
    ensures s.socket == dial(i, lastResort) && ok == (s.socket >= 0)
    ensures s.srun == i && s.updateCount == 0 && s.pool == pool && s.Empty()
  {
    s.socket, s.updateCount, s.pool, s.srun := -1, 0, pool, i;
    s.writeLength, s.readLength, s.readOffset := 0, 0, 0;
    if c.srunList[i].port <= 0 {
      c.srunList := c.srunList[i := c.srunList[i].(port := DEFAULT_PORT)];
    }
    s.socket := dial(i, lastResort);
    ok := s.socket >= 0;
  }

  /** The first choice of a request: its session's owner, or a random start. */
  method FirstHost(p: Process, c: Config, session: int, ip: seq<int>, now: nat, rand: int) returns (host: nat)
    requires c.Valid()
    modifies p`count
    ensures host < c.Considered()
    ensures 0 <= session < c.Considered() ==> host == session
    ensures session < 0 || session >= c.Considered() ==>
              host == Start(Magnitude(Signed(Polynomial(Seed(now, old(p.count), rand), ip))), c.Considered())
    ensures session < 0 || session >= c.Considered() ==>
              var h := Magnitude(Signed(Polynomial(Seed(now, old(p.count), rand), ip)));
              if h >= 0 then (h - host) % c.Considered() == 0 else (h + host) % c.Considered() == 0
  {
    var size := c.Considered();
    host := size;
    if session >= 0 {
      host := 0;
      while host < size
        invariant 0 <= host <= size
        invariant session < size ==> host <= session
      {
        if c.srunList[host].session == session {
          return;
        }
        host := host + 1;
      }
    }
    var hash := RandomHost(ip, now, rand, p.count);
    p.count := Signed(p.count + 1);
    var h := Remainder(hash, size);
    host := if h < 0 then -h else h;
  }

  /** The process, the stream and the list are as a sweep on values says. */
  ghost predicate Result(p: Process, s: Stream, c: Config, w: Swept, closed0: seq<int>, pool: int, ok: bool)
    reads p, s, c
  {
    && c.srunList == w.list
    && p.closed == closed0 + w.closed
    && ok == (w.outcome != Nobody)
    && (ok ==> s.socket == w.outcome.fd && s.srun == w.outcome.host && s.pool == pool && s.Empty())
    && (ok ==> s.updateCount == if w.outcome.Reused? then c.updateCount else 0)
    && (!ok ==> s.socket < 0)
  }

  /**
   * Who serves, in the fields of the runner and arithmetic alone: never a backup in the first loop,
   * nor without a session in the second; a usable pool always, and else a runner that answers and
   * is not kept waiting for deadTime seconds after it failed.
   */
  predicate Serves(phase: Phase, r: Srun, k: nat, now: nat, dial: Dial, ok: bool)
  {
    var last := if now < r.lastTime then now else r.lastTime;
    var usable := r.sockets != [] && (last + r.liveTime) % 0x1_0000_0000 >= now;
    var waiting := r.isDead && (last + r.deadTime) % 0x1_0000_0000 >= now;
    && (0 <= last + r.deadTime < 0x1_0000_0000 ==> (waiting <==> r.isDead && now - last <= r.deadTime))
    && match phase
       case PoolsOnly => ok <==> !r.isBackup && usable
       case Timed(sessionless) =>
         ok <==> !(sessionless && r.isBackup) && (usable || (!waiting && dial(k, false) >= 0))
       case Blocking => ok <==> usable || dial(k, true) >= 0
  }

  lemma VisitServes(phase: Phase, list: seq<Srun>, k: nat, now: nat, dial: Dial)
    requires k < |list|
    ensures Serves(phase, list[k], k, now, dial, Visit(phase, list, k, now, dial).outcome != Nobody)
  {
  }

  /** One iteration of a sweep on the runner at position k. */
  method VisitRunner(phase: Phase, p: Process, s: Stream, c: Config, k: nat, now: nat, pool: int, dial: Dial)
    returns (ok: bool)
    requires k < |c.srunList| && s.socket < 0
    modifies p`closed, s, c`srunList
    ensures Result(p, s, c, Visit(phase, old(c.srunList), k, now, dial), old(p.closed), pool, ok)
    ensures Serves(phase, old(c.srunList)[k], k, now, dial, ok)
  {
    hide Serves, ReusedAs, Dialed, Reversed, Alive, Dead;
    VisitServes(phase, c.srunList, k, now, dial);
    if c.srunList[k].isBackup && (phase.PoolsOnly? || (phase.Timed? && phase.sessionless)) {
      return false;
    }
    ok := ReuseSocket(p, s, c, k, now, pool);
    if ok || phase.PoolsOnly? {
      return;
    }
    var srun := c.srunList[k];
    if phase.Timed? && srun.isDead && Unsigned(srun.lastTime + srun.deadTime) >= now {
      return;
    }
    ok := ConnectRunner(s, c, k, now, pool, phase.Blocking?, dial);
  }

  /** The connect of an iteration, and what becomes of the runner. */
  method ConnectRunner(s: Stream, c: Config, k: nat, now: nat, pool: int, lastResort: bool, dial: Dial)
    returns (ok: bool)
    requires k < |c.srunList|
    modifies s, c`srunList
    ensures var w := Dialing(Swept(old(c.srunList), [], Nobody), k, now, lastResort, dial);
            && c.srunList == w.list && ok == (w.outcome != Nobody) && (ok ==> w.outcome.fd == s.socket)
    ensures s.socket == dial(k, lastResort) && ok == (s.socket >= 0)
    ensures s.srun == k && s.updateCount == 0 && s.pool == pool && s.Empty()
  {
    ok := Connect(s, c, k, pool, lastResort, dial);
    if ok {
      s.srun := k;
      c.srunList := c.srunList[k := c.srunList[k].(isDead := false, lastTime := now)];
    } else if lastResort {
      c.srunList := c.srunList[k := c.srunList[k].(isDead := true, lastTime := now)];
    }
  }

  /** The indices the loops of `open_connection` compute, in order. */
  method VisitOrder(host: nat, size: nat) returns (order: seq<nat>)
    requires host < size
    ensures order == Order(host, size)
    ensures Permutes(order, size) && order[0] == host
    ensures forall i :: 0 <= i < size ==> order[i] == (if host % 2 == 1 then host + i else host - i) % size
  {
    var incr: int := 2 * (host % 2) - 1;
    order := [];
    for i := 0 to size
      invariant order == Order(host, size)[..i]
    {
      assert Offset(host, size, i) == host + i * (incr + size);
      order := order + [(host + i * (incr + size)) % size];
    }
    OrderPermutes(host, size);
    OrderWalks(host, size);
  }

  /** One of the three loops of `open_connection`, over the indices it visits. */
  method RunSweep(phase: Phase, p: Process, s: Stream, c: Config, order: seq<nat>, now: nat, pool: int, dial: Dial)
    returns (ok: bool)
    requires Within(order, c.srunList) && s.socket < 0
    modifies p`closed, s, c`srunList
    ensures Result(p, s, c, Sweep(phase, old(c.srunList), order, now, dial), old(p.closed), pool, ok)
  {
    hide Visit, Sweep;
    assert order[0..] == order;
    ghost var whole := Sweep(phase, c.srunList, order, now, dial);
    ghost var done: seq<int> := [];
    var i := 0;
    while i < |order|
      invariant 0 <= i <= |order| && |c.srunList| == |old(c.srunList)|
      invariant p.closed == old(p.closed) + done && s.socket < 0
      invariant whole == Before(done, Sweep(phase, c.srunList, order[i..], now, dial))
    {
      SweepStep(phase, c.srunList, order, i, now, dial, done);
      ghost var v := Visit(phase, c.srunList, order[i], now, dial);
      ok := VisitRunner(phase, p, s, c, order[i], now, pool, dial);
      done := done + v.closed;
      if ok {
        return;
      }
      i := i + 1;
    }
    SweepDone(phase, c.srunList, order, now, dial, done);
    ok := false;
  }

  /** `open_connection`: the three loops in order. */
  method OpenConnection(p: Process, s: Stream, c: Config, session: int, ip: seq<int>,
                        now: nat, rand: int, pool: int, dial: Dial)
    returns (ok: bool, order: seq<nat>)
    requires c.Valid() && s.socket < 0
    modifies p`count, p`closed, s, c`srunList
    ensures Permutes(order, c.Considered()) && Within(order, old(c.srunList)) && |c.srunList| == |old(c.srunList)|
    ensures 0 <= session < c.Considered() ==> order[0] == session
    ensures session < 0 || session >= c.Considered() ==>
              StartsAt(Magnitude(Signed(Polynomial(Seed(now, old(p.count), rand), ip))), order[0], c.Considered())
    ensures Walks(order, c.Considered())
    ensures Result(p, s, c, Open(old(c.srunList), order, now, session < 0, dial), old(p.closed), pool, ok)
  {
    hide Permutes, Open, Result, Order, Slot, Offset, Direction, Start, Remainder, Magnitude, Signed, Polynomial, Seed;
    var host := FirstHost(p, c, session, ip, now, rand);
    order := VisitOrder(host, c.Considered());
    assert order[0] == host;
    PermutesWithin(order, c.Considered(), c.srunList);
    ok := Sweeps(p, s, c, session, order, now, pool, dial);
  }

  method Sweeps(p: Process, s: Stream, c: Config, session: int, order: seq<nat>, now: nat, pool: int, dial: Dial)
    returns (ok: bool)
    requires Within(order, c.srunList) && s.socket < 0
    modifies p`closed, s, c`srunList
    ensures |c.srunList| == |old(c.srunList)|
    ensures Result(p, s, c, Open(old(c.srunList), order, now, session < 0, dial), old(p.closed), pool, ok)
  {
    hide Sweep, Visit;
    ok := false;
    if session < 0 {
      ok := RunSweep(PoolsOnly, p, s, c, order, now, pool, dial);
      if ok {
        return;
      }
    }
    ok := RunSweep(Timed(session < 0), p, s, c, order, now, pool, dial);
    if ok {
      return;
    }
    ok := RunSweep(Blocking, p, s, c, order, now, pool, dial);
  }

  /** A list whose runners keep their places and at most lose pooled sockets is as valid. */
  lemma StillValid(c: Config, list: seq<Srun>)
    requires 1 <= |list| == |c.srunList| && c.srunSize <= |list|
    requires forall k :: 0 <= k < c.Considered() ==> list[k].session == k
    requires forall k :: 0 <= k < |list| ==> |list[k].sockets| <= MAX_SOCKETS && list[k].maxSockets <= MAX_SOCKETS
    requires forall k, j :: 0 <= k < |list| && 0 <= j < |list[k].sockets| ==> list[k].sockets[j] >= 0
    requires SameRunners(list, c.srunList)
    ensures c.Valid()
  {
    assert forall k :: 0 <= k < |list| ==> SameRunner(list[k], c.srunList[k]);
  }

  /** The runner can serve now: it has a fresh pooled socket, or is not left alone and accepts. */
  predicate Ready(r: Srun, k: nat, now: nat, dial: Dial)
  {
    Fresh(r, now) || (!Waiting(r, now) && dial(k, false) >= 0)
  }

  /** A pooled socket was used within the live time, the clock not before the last use. */
  predicate Usable(r: Srun, now: nat)
  {
    r.sockets != [] && ((if now < r.lastTime then now else r.lastTime) + r.liveTime) % 0x1_0000_0000 >= now
  }

  lemma UsableIsFresh(r: Srun, now: nat)
    ensures Usable(r, now) <==> Fresh(r, now)
  {
  }

  /**
   * What a call makes of the runner r at position k that a session names: it serves with its last
   * pooled socket if that was used within the live time, and otherwise loses its pool; then it
   * serves by a timed connect, unless it failed within the dead time.
   */
  predicate SessionServed(r: Srun, k: nat, now: nat, dial: Dial, ok: bool, host: int, socket: int,
                          closed0: seq<int>, closed: seq<int>)
  {
    var last := if now < r.lastTime then now else r.lastTime;
    var usable := r.sockets != [] && (last + r.liveTime) % 0x1_0000_0000 >= now;
    var waiting := r.isDead && (last + r.deadTime) % 0x1_0000_0000 >= now;
    && (0 <= last + r.liveTime < 0x1_0000_0000 ==> (usable <==> r.sockets != [] && now - last <= r.liveTime))
    && (0 <= last + r.deadTime < 0x1_0000_0000 ==> (waiting <==> r.isDead && now - last <= r.deadTime))
    && (usable ==> ok && host == k && socket == r.sockets[|r.sockets| - 1] && closed == closed0)
    && (!usable ==> closed0 + Reversed(r.sockets) <= closed)
    && (!usable && !waiting && dial(k, false) >= 0 ==> ok && host == k && socket == dial(k, false))
    && (!usable && waiting && dial(k, true) < 0 && ok ==> host != k)
  }

  lemma SessionCall(list: seq<Srun>, order: seq<nat>, now: nat, dial: Dial, ok: bool, host: int, socket: int,
                    closed0: seq<int>, closed: seq<int>)
    requires Within(order, list) && Distinct(order) && order != []
    requires var w := Open(list, order, now, false, dial);
             && closed == closed0 + w.closed && ok == (w.outcome != Nobody)
             && (ok ==> host == w.outcome.host && socket == w.outcome.fd)
    ensures SessionServed(list[order[0]], order[0], now, dial, ok, host, socket, closed0, closed)
  {
    hide Open;
    AffinityServes(list, order, now, dial);
    OpenContract(list, order, now, false, dial);
    var r := list[order[0]];
    assert closed0 + [] == closed0;
    if !Fresh(r, now) && Waiting(r, now) && dial(order[0], true) < 0 {
      WaitingIsPassed(list, order, now, dial);
    }
    if !Fresh(r, now) && !Waiting(r, now) {
      StaleIsNotReused(list, order, now, dial);
    }
  }

  /** If some primary's pooled socket is usable, a primary serves with one; otherwise no primary keeps any. */
  ghost predicate PrimariesServed(before: seq<Srun>, after: seq<Srun>, size: nat, now: nat, ok: bool, host: int,
                                  socket: int)
  {
    && |before| == |after| >= size &&
    if exists j: nat :: j < size && !before[j].isBackup && Usable(before[j], now)
    then
      && ok && 0 <= host < size && !before[host].isBackup && Usable(before[host], now)
      && after[host].sockets + [socket] == before[host].sockets
    else forall j: nat :: j < size && !before[j].isBackup ==> after[j].sockets == []
  }

  /** From an odd start the order walks up around the list, from an even one down. */
  predicate Walks(order: seq<nat>, size: nat)
    requires size > 0
  {
    && |order| == size
    && forall i :: 0 <= i < size ==>
         order[i] == (if order[0] % 2 == 1 then order[0] + i else order[0] - i) % size
  }

  /** The start is the hash modulo the size, without its sign. */
  predicate StartsAt(h: int, host: nat, size: nat)
    requires size > 0
  {
    host < size && (if h >= 0 then h - host else h + host) % size == 0
  }

  /** What a call without a session makes of the primaries' pools. */
  lemma SessionlessCall(list: seq<Srun>, order: seq<nat>, size: nat, now: nat, dial: Dial)
    requires Within(order, list) && Permutes(order, size)
    ensures var w := Open(list, order, now, true, dial);
            w.outcome != Nobody ==> PrimariesServed(list, w.list, size, now, true, w.outcome.host, w.outcome.fd)
    ensures var w := Open(list, order, now, true, dial);
            w.outcome == Nobody ==> forall host, fd :: PrimariesServed(list, w.list, size, now, false, host, fd)
  {
    hide Open, Fresh, Usable;
    PermutesAll(order, size, list);
    ReusesWheneverPossible(list, order, now, dial);
    OpenContract(list, order, now, true, dial);
    var w := Open(list, order, now, true, dial);
    forall j: nat | j < size ensures Usable(list[j], now) <==> Fresh(list[j], now) {
      UsableIsFresh(list[j], now);
    }
    if exists j: nat :: j < size && !list[j].isBackup && Usable(list[j], now) {
      ReusedIsFresh(list, order, now, dial);
    } else {
      forall j: nat | j < size && !list[j].isBackup ensures w.list[j].sockets == [] {
        StalePrimariesEmptied(list, order, now, dial, j);
      }
    }
  }

  lemma PermutesAll(order: seq<nat>, size: nat, list: seq<Srun>)
    requires Within(order, list) && Permutes(order, size)
    ensures size <= |list| && Distinct(order) && forall j: nat :: j < size <==> j in order
  {
    if size > 0 {
      assert size - 1 in order;
    }
  }

  lemma ReusedIsFresh(list: seq<Srun>, order: seq<nat>, now: nat, dial: Dial)
    requires Within(order, list) && Distinct(order)
    ensures var o := Open(list, order, now, true, dial).outcome; o.Reused? ==> Fresh(list[o.host], now)
  {
    hide Fresh, Waiting;
    OpenChooses(list, order, now, true, dial);
  }

  lemma StaleIsNotReused(list: seq<Srun>, order: seq<nat>, now: nat, dial: Dial)
    requires Within(order, list) && Distinct(order) && order != [] && !Fresh(list[order[0]], now)
    ensures var o := Open(list, order, now, false, dial).outcome; o.Reused? ==> o.host != order[0]
  {
    hide Fresh, Waiting;
    OpenChooses(list, order, now, false, dial);
  }

  /**
   * `cse_open_connection` and its contract: on success the stream holds a descriptor of a
   * considered runner that is alive, stamped with the request time and registered for cleanup;
   * on failure it holds none, and every considered runner is dead, stamped, without a pool and
   * has refused a connect. A valid session number is the runner tried first, and the runner that
   * serves whenever it can.
   */
  method OpenForRequest(p: Process, s: Stream, c: Config, session: int, ip: seq<int>,
                        now: nat, rand: int, pool: int, dial: Dial)
    returns (ok: bool, order: seq<nat>)
    requires c.Valid()
    modifies p, s, c`srunList
    ensures Permutes(order, c.Considered()) && Within(order, old(c.srunList)) && |c.srunList| == |old(c.srunList)|
    ensures 0 <= session < c.Considered() ==> order[0] == session
    ensures session < 0 || session >= c.Considered() ==>
              StartsAt(Magnitude(Signed(Polynomial(Seed(now, old(p.count), rand), ip))), order[0], c.Considered())
    ensures Walks(order, c.Considered())
    ensures 0 <= session < c.Considered() ==>
              SessionServed(old(c.srunList)[session], session, now, dial, ok, s.srun, s.socket, old(p.closed), p.closed)
    ensures session < 0 ==>
              PrimariesServed(old(c.srunList), c.srunList, c.Considered(), now, ok, s.srun, s.socket)
    ensures ok == (Choose(old(c.srunList), order, now, session < 0, dial) != Nobody)
    ensures 0 <= session < c.Considered() && Ready(old(c.srunList)[session], session, now, dial) ==>
              ok && s.srun == session
    ensures c.Valid()
    ensures ok ==>
      && s.socket >= 0 && 0 <= s.srun < c.Considered() && s.pool == pool && s.Empty()
      && !c.srunList[s.srun].isDead && c.srunList[s.srun].lastTime == now
      && Choose(old(c.srunList), order, now, session < 0, dial).host == s.srun
      && Choose(old(c.srunList), order, now, session < 0, dial).fd == s.socket
      && p.cleanups == old(p.cleanups) + if s.socket > 0 then {(pool, s.socket)} else {}
    ensures !ok ==>
      && s.socket < 0 && p.cleanups == old(p.cleanups)
      && forall k: nat :: k < c.Considered() ==>
           c.srunList[k].sockets == [] && c.srunList[k].isDead && c.srunList[k].lastTime == now && dial(k, true) < 0
    ensures forall k: nat :: c.Considered() <= k < |c.srunList| ==> c.srunList[k] == old(c.srunList)[k]
  {
    hide Choose, Open, Fresh, Waiting, Reversed, Signed, Polynomial, Seed, Magnitude;
    hide SessionServed, PrimariesServed, Walks, StartsAt;
    s.Reset(pool);
    ok, order := OpenConnection(p, s, c, session, ip, now, rand, pool, dial);
    OpenChooses(old(c.srunList), order, now, session < 0, dial);
    OpenContract(old(c.srunList), order, now, session < 0, dial);
    OpenKeepsRunners(old(c.srunList), order, now, session < 0, dial);
    HandedOutIsOpen(old(c.srunList), order, now, session < 0, dial);
    StillValid(c, old(c.srunList));
    if session >= 0 {
      SessionCall(old(c.srunList), order, now, dial, ok, s.srun, s.socket, old(p.closed), p.closed);
      AffinityServes(old(c.srunList), order, now, dial);
    } else {
      SessionlessCall(old(c.srunList), order, c.Considered(), now, dial);
    }
    if ok {
      p.SetCleanup(s.socket, pool);
    }
  }

  /** `cse_recycle`: back to the pool if there is room, otherwise closed. */
  method Recycle(p: Process, s: Stream, c: Config)
    requires s.srun < |c.srunList| && c.Valid()
    modifies p`closed, p`cleanups, s`socket, c`srunList
    ensures s.socket == -1 && c.Valid()
    ensures p.cleanups == old(p.cleanups) - if old(s.socket) > 0 then {(s.pool, old(s.socket))} else {}
    ensures var pooled := old(s.socket) >= 0 && c.updateCount == s.updateCount && s.srun >= 0
                          && |old(c.srunList)[s.srun].sockets| < old(c.srunList)[s.srun].maxSockets;
            if pooled then
              && p.closed == old(p.closed)
              && c.srunList == old(c.srunList)[s.srun := old(c.srunList)[s.srun].(
                   sockets := old(c.srunList)[s.srun].sockets + [old(s.socket)])]
            else
              p.closed == old(p.closed) + [old(s.socket)] && c.srunList == old(c.srunList)
  {
    var socket := s.socket;
    if socket >= 0 && c.updateCount == s.updateCount && s.srun >= 0
       && |c.srunList[s.srun].sockets| < c.srunList[s.srun].maxSockets {
      s.socket := -1;
      p.KillCleanup(socket, s.pool);
      var srun := c.srunList[s.srun];
      c.srunList := c.srunList[s.srun := srun.(sockets := srun.sockets + [socket])];
    } else {
      Close(p, s);
    }
  }

  /** The descriptors of the first n pools, each from the top down, one runner after the other. */
  function Pools(list: seq<Srun>, n: nat): seq<int>
    requires n <= |list|
  {
    if n == 0 then [] else Pools(list, n - 1) + Reversed(list[n - 1].sockets)
  }

  /** `cse_close_child`: every pooled descriptor of the runners in use is closed, once. */
  method CloseChild(p: Process, c: Config)
    requires c.Valid()
    modifies p`closed, c`srunList
    ensures |c.srunList| == |old(c.srunList)| && c.Valid()
    ensures p.closed == old(p.closed) + Pools(old(c.srunList), c.srunSize)
    ensures forall k :: 0 <= k < |c.srunList| ==>
              c.srunList[k] == if k < c.srunSize then old(c.srunList)[k].(sockets := []) else old(c.srunList)[k]
  {
    ghost var list0 := c.srunList;
    for i := 0 to c.srunSize
      invariant |c.srunList| == |list0|
      invariant p.closed == old(p.closed) + Pools(list0, i)
      invariant forall k :: 0 <= k < |list0| ==>
                  c.srunList[k] == if k < i then list0[k].(sockets := []) else list0[k]
    {
      CloseAll(p, c.srunList[i].sockets);
      c.srunList := c.srunList[i := c.srunList[i].(sockets := [])];
    }
  }
}
