/**
  The worker pool (internal/pool): what its mutex guards and each critical
  section on it, as a specification and as the code runs it.
*/
module Pool {
  import opened Prelude

  /** Workers are numbered; a slot counts the checkouts its worker has served. */
  datatype Slot = Slot(w: nat, served: nat)

  datatype Config = Config(max: nat, singleUse: bool, maxCheckouts: nat)

  /**
    The fields under Pool.mu. The reaper channel holds cfg.max workers: blocked
    records a send that found it full, panicked one that found it closed.
  */
  datatype Shared = Shared(
    idle: seq<Slot>,
    starting: int,
    active: int,
    retiring: int,
    closed: bool,
    queue: seq<nat>,
    reaped: bool,
    blocked: bool,
    panicked: bool)

  function Live(p: Shared): int {
    p.starting + p.active + |p.idle| + p.retiring
  }

  function RetireLocked(cfg: Config, p: Shared, w: nat): Shared {
    p.(retiring := p.retiring + 1,
       queue := p.queue + [w],
       blocked := p.blocked || |p.queue| >= cfg.max,
       panicked := p.panicked || p.reaped)
  }

  // ----- acquire -----

  /** Pop idle workers until one is alive; the dead ones go to the reaper. */
  function TakeIdle(cfg: Config, p: Shared, alive: set<nat>): (r: (Shared, Option<Slot>))
    decreases |p.idle|
  {
    if cfg.singleUse || p.idle == [] then (p, None)
    else
      var n := |p.idle| - 1;
      var s, rest := p.idle[n], p.(idle := p.idle[..n]);
      if s.w in alive then (rest.(active := rest.active + 1), Some(s))
      else TakeIdle(cfg, RetireLocked(cfg, rest, s.w), alive)
  }

  datatype Acquired = Refused | Granted(slot: Slot) | MaySpawn | MustWait

  function AcquireSection(cfg: Config, p: Shared, alive: set<nat>): (Shared, Acquired) {
    if p.closed then (p, Refused)
    else
      var (q, slot) := TakeIdle(cfg, p, alive);
      if slot.Some? then (q, Granted(slot.value))
      else if Live(q) < cfg.max then (q.(starting := q.starting + 1), MaySpawn)
      else (q, MustWait)
  }

  /** The section after Spawn returned; true when the worker is handed out. */
  function SpawnSection(cfg: Config, p: Shared, spawned: Option<nat>): (Shared, bool) {
    var q := p.(starting := p.starting - 1);
    if spawned.None? then (q, false)
    else if q.closed then (RetireLocked(cfg, q, spawned.value), false)
    else (q.(active := q.active + 1), true)
  }

  // ----- giving a worker up -----

  function ReleaseSection(cfg: Config, p: Shared, s: Slot, alive: bool): Shared {
    var q := p.(active := p.active - 1);
    if cfg.singleUse || q.closed || !alive || (cfg.maxCheckouts > 0 && s.served >= cfg.maxCheckouts)
    then RetireLocked(cfg, q, s.w)
    else q.(idle := q.idle + [s])
  }

  function RetireLease(cfg: Config, p: Shared, w: nat): Shared {
    RetireLocked(cfg, p.(active := p.active - 1), w)
  }

  function HandoffSection(cfg: Config, p: Shared, w: nat): Shared {
    RetireLocked(cfg, p.(active := p.active - 1, starting := p.starting + 1), w)
  }

  // ----- the reaper, closing and stopping -----

  function ReapTake(p: Shared): Shared
    requires p.queue != []
  {
    p.(queue := p.queue[1..])
  }

  function ReapDone(p: Shared): Shared {
    p.(retiring := p.retiring - 1)
  }

  function RetireAll(cfg: Config, p: Shared, slots: seq<Slot>): Shared
    decreases |slots|
  {
    if slots == [] then p else RetireAll(cfg, RetireLocked(cfg, p, slots[0].w), slots[1..])
  }

  function CloseSection(cfg: Config, p: Shared): Shared {
    if p.closed then p else RetireAll(cfg, p.(closed := true, idle := []), p.idle)
  }

  function StopSection(p: Shared): Shared {
    p.(reaped := true)
  }

  // ----- reservations -----

  function ReserveSection(cfg: Config, p: Shared): (Shared, bool) {
    if !p.closed && Live(p) < cfg.max then (p.(starting := p.starting + 1), true) else (p, false)
  }

  function ReservationRelease(p: Shared): Shared {
    p.(starting := p.starting - 1)
  }

  /** Bind after its spawn; true when the pool is open and the worker becomes active. */
  function BindSection(p: Shared): (Shared, bool) {
    var q := p.(starting := p.starting - 1);
    if q.closed then (q, false) else (q.(active := q.active + 1), true)
  }

  function ReReserve(p: Shared): Shared {
    p.(starting := p.starting + 1)
  }

  // ----- what the sections conserve -----

  ghost function WorkersOf(slots: seq<Slot>): seq<nat> {
    seq(|slots|, i requires 0 <= i < |slots| => slots[i].w)
  }

  /** The workers the pool itself holds: idle ones and those on their way out. */
  ghost function Kept(p: Shared): multiset<nat> {
    multiset(WorkersOf(p.idle)) + multiset(p.queue)
  }

  lemma RetireKept(cfg: Config, p: Shared, w: nat)
    ensures var q := RetireLocked(cfg, p, w); Kept(q) == Kept(p) + multiset{w} && Live(q) == Live(p) + 1
  {
  }

  lemma PopKept(p: Shared)
    requires p.idle != []
    ensures var n := |p.idle| - 1;
      var q := p.(idle := p.idle[..n]);
      Kept(p) == Kept(q) + multiset{p.idle[n].w} && Live(q) == Live(p) - 1
  {
    var n := |p.idle| - 1;
    assert WorkersOf(p.idle) == WorkersOf(p.idle[..n]) + [p.idle[n].w];
  }

  /** No idle worker after position i can be handed out. */
  ghost predicate DeadFrom(idle: seq<Slot>, alive: set<nat>, i: nat) {
    forall j | i <= j < |idle| :: idle[j].w !in alive
  }

  /** s is the last idle worker that is alive, and left is what is idle before it. */
  ghost predicate LastAlive(idle: seq<Slot>, alive: set<nat>, s: Slot, left: seq<Slot>) {
    && |left| < |idle| && left == idle[..|left|] && idle[|left|] == s
    && s.w in alive && DeadFrom(idle, alive, |left| + 1)
  }

  lemma LastAliveNow(idle: seq<Slot>, alive: set<nat>)
    requires idle != [] && idle[|idle| - 1].w in alive
    ensures LastAlive(idle, alive, idle[|idle| - 1], idle[..|idle| - 1])
  {
  }

  lemma LastAliveMore(idle: seq<Slot>, alive: set<nat>, s: Slot, left: seq<Slot>)
    requires idle != [] && idle[|idle| - 1].w !in alive && LastAlive(idle[..|idle| - 1], alive, s, left)
    ensures LastAlive(idle, alive, s, left)
  {
    DeadMore(idle, alive, |left| + 1);
  }

  /** The worker handed out is the last one that is alive; the dead ones behind it are kept for the reaper. */
  lemma {:induction false} TakeIdleConserves(cfg: Config, p: Shared, alive: set<nat>)
    requires !cfg.singleUse
    ensures var (q, slot) := TakeIdle(cfg, p, alive);
      match slot
      case Some(s) =>
        && LastAlive(p.idle, alive, s, q.idle)
        && Kept(p) == Kept(q) + multiset{s.w} && Live(q) == Live(p) && q.active == p.active + 1
      case None => DeadFrom(p.idle, alive, 0) && Kept(q) == Kept(p) && Live(q) == Live(p) && q.active == p.active && q.idle == []
    decreases |p.idle|
  {
    hide Kept, RetireLocked, Live, DeadFrom, LastAlive;
    if p.idle == [] {
      assert DeadFrom(p.idle, alive, 0) by { DeadNone(p.idle, alive); }
    } else {
      var n := |p.idle| - 1;
      var s, rest := p.idle[n], p.(idle := p.idle[..n]);
      PopKept(p);
      if s.w in alive {
        LastAliveNow(p.idle, alive);
        SameKept(rest, rest.(active := rest.active + 1));
        OneMoreActive(rest);
      } else {
        var next := RetireLocked(cfg, rest, s.w);
        RetireKept(cfg, rest, s.w);
        RetireKeepsRest(cfg, rest, s.w);
        TakeIdleConserves(cfg, next, alive);
        var (q, slot) := TakeIdle(cfg, next, alive);
        if slot.Some? {
          LastAliveMore(p.idle, alive, slot.value, q.idle);
        } else {
          DeadMore(p.idle, alive, 0);
        }
      }
    }
  }

  lemma DeadNone(idle: seq<Slot>, alive: set<nat>)
    ensures DeadFrom(idle, alive, |idle|)
  {
  }

  lemma OneMoreActive(p: Shared)
    ensures Live(p.(active := p.active + 1)) == Live(p) + 1
  {
  }

  lemma DeadMore(idle: seq<Slot>, alive: set<nat>, i: nat)
    requires idle != [] && idle[|idle| - 1].w !in alive && DeadFrom(idle[..|idle| - 1], alive, i)
    ensures DeadFrom(idle, alive, i)
  {
    forall j | i <= j < |idle| ensures idle[j].w !in alive {
      if j < |idle| - 1 { assert idle[..|idle| - 1][j] == idle[j]; }
    }
  }

  lemma SameKept(p: Shared, q: Shared)
    requires p.idle == q.idle && p.queue == q.queue
    ensures Kept(p) == Kept(q)
  {
  }

  /**
    acquire loses no worker and never goes over the maximum: it hands out the
    last live idle worker if there is one, reserves room for a new one only
    below the maximum, and otherwise leaves the number of workers alone.
  */
  lemma AcquireConserves(cfg: Config, p: Shared, alive: set<nat>)
    ensures var (q, r) := AcquireSection(cfg, p, alive);
      match r
      case Refused => p.closed && q == p
      case Granted(s) =>
        && !p.closed && !cfg.singleUse && LastAlive(p.idle, alive, s, q.idle)
        && Kept(p) == Kept(q) + multiset{s.w} && Live(q) == Live(p) && q.active == p.active + 1
      case MaySpawn =>
        && !p.closed && (cfg.singleUse || DeadFrom(p.idle, alive, 0))
        && Kept(q) == Kept(p) && Live(q) == Live(p) + 1 <= cfg.max && q.starting == p.starting + 1
      case MustWait =>
        && !p.closed && (cfg.singleUse || DeadFrom(p.idle, alive, 0))
        && Kept(q) == Kept(p) && Live(q) == Live(p) >= cfg.max
  {
    hide Kept;
    if !p.closed {
      var (q, slot) := TakeIdle(cfg, p, alive);
      if !cfg.singleUse {
        TakeIdleConserves(cfg, p, alive);
        TakeIdleStarting(cfg, p, alive);
      }
      SameKept(q, q.(starting := q.starting + 1));
    }
  }

  lemma {:induction false} TakeIdleStarting(cfg: Config, p: Shared, alive: set<nat>)
    ensures TakeIdle(cfg, p, alive).0.starting == p.starting
    decreases |p.idle|
  {
    if !cfg.singleUse && p.idle != [] {
      var n := |p.idle| - 1;
      TakeIdleStarting(cfg, RetireLocked(cfg, p.(idle := p.idle[..n]), p.idle[n].w), alive);
    }
  }

  /** A spawn's room is used by its worker or given back; a worker that comes after Close is kept for the reaper. */
  lemma SpawnConserves(cfg: Config, p: Shared, w: Option<nat>)
    ensures var (q, granted) := SpawnSection(cfg, p, w);
      && (granted <==> w.Some? && !p.closed)
      && q.active == p.active + (if granted then 1 else 0)
      && Live(q) == Live(p) - (if w.None? then 1 else 0)
      && Kept(q) == (if w.Some? && !granted then Kept(p) + multiset{w.value} else Kept(p))
  {
    hide Kept;
    var q := p.(starting := p.starting - 1);
    SameKept(p, q);
    SameKept(p, q.(active := q.active + 1));
    if w.Some? { RetireKept(cfg, q, w.value); }
  }

  /**
    A worker given up is kept by the pool, whichever way it is given up. A
    released one is idle again exactly if it is alive, the pool is open and
    reuses workers, and it has checkouts left; otherwise it goes to the reaper.
    A handoff keeps room for a successor besides, even at the maximum.
  */
  lemma GiveUpConserves(cfg: Config, p: Shared, s: Slot, alive: bool)
    ensures var q, t, h := ReleaseSection(cfg, p, s, alive), RetireLease(cfg, p, s.w), HandoffSection(cfg, p, s.w);
      && (forall x | x in [q, t, h] :: Kept(x) == Kept(p) + multiset{s.w} && x.active == p.active - 1)
      && Live(q) == Live(p) && Live(t) == Live(p) && Live(h) == Live(p) + 1
      && (if alive && !p.closed && !cfg.singleUse && (cfg.maxCheckouts == 0 || s.served < cfg.maxCheckouts)
          then q.idle == p.idle + [s] && q.queue == p.queue
          else q.idle == p.idle && q.queue == p.queue + [s.w])
      && t.idle == p.idle && h.idle == p.idle && t.queue == p.queue + [s.w] && h.queue == p.queue + [s.w]
      && h.starting == p.starting + 1
  {
    hide Kept;
    var x, y := p.(active := p.active - 1), p.(active := p.active - 1, starting := p.starting + 1);
    SameKept(p, x);
    SameKept(p, y);
    RetireKept(cfg, x, s.w);
    RetireKept(cfg, y, s.w);
    PopKept(x.(idle := x.idle + [s]));
    assert (x.idle + [s])[..|x.idle|] == x.idle;
    assert x.(idle := x.idle + [s]).(idle := x.idle) == x;
  }

  /**
    Room without a worker: taken only below the maximum, and passed on whole to
    the worker that is bound. In a closed pool Bind gives the room up before it
    keeps the worker; a failed Bind takes it back whatever the number.
  */
  lemma ReservationConserves(cfg: Config, p: Shared)
    ensures var (q, ok) := ReserveSection(cfg, p);
      (if ok then !p.closed && Live(q) == Live(p) + 1 <= cfg.max else q == p && (p.closed || Live(p) >= cfg.max)) && Kept(q) == Kept(p)
    ensures var (b, open) := BindSection(p);
      && (open <==> !p.closed) && Kept(b) == Kept(p)
      && Live(b) == (if open then Live(p) else Live(p) - 1) && b.active == p.active + (if open then 1 else 0)
    ensures Live(ReservationRelease(p)) == Live(p) - 1 && Live(ReReserve(p)) == Live(p) + 1
  {
    SameKept(p, ReserveSection(cfg, p).0);
    SameKept(p, BindSection(p).0);
  }

  /** Close keeps every worker, empties the idle list, and a second Close does nothing. */
  lemma CloseConserves(cfg: Config, p: Shared)
    ensures var q := CloseSection(cfg, p);
      q.closed && Kept(q) == Kept(p) && Live(q) == Live(p) && CloseSection(cfg, q) == q && (!p.closed ==> q.idle == [])
  {
    if !p.closed {
      hide Kept, CloseSection;
      RetireAllKept(cfg, p.(closed := true, idle := []), p.idle);
      EmptyKept(p);
      CloseIs(cfg, p);
    }
  }

  lemma CloseIs(cfg: Config, p: Shared)
    requires !p.closed
    ensures CloseSection(cfg, p) == RetireAll(cfg, p.(closed := true, idle := []), p.idle)
    ensures CloseSection(cfg, CloseSection(cfg, p)) == CloseSection(cfg, p)
  {
    RetireAllKept(cfg, p.(closed := true, idle := []), p.idle);
  }

  lemma EmptyKept(p: Shared)
    ensures Kept(p) == Kept(p.(closed := true, idle := [])) + multiset(WorkersOf(p.idle))
  {
  }

  lemma {:induction false} RetireAllKept(cfg: Config, p: Shared, slots: seq<Slot>)
    ensures var q := RetireAll(cfg, p, slots);
      && Kept(q) == Kept(p) + multiset(WorkersOf(slots)) && Live(q) == Live(p) + |slots|
      && q.idle == p.idle && q.closed == p.closed
    decreases |slots|
  {
    hide Kept, RetireLocked;
    if slots == [] {
      assert WorkersOf(slots) == [];
    } else {
      RetireKept(cfg, p, slots[0].w);
      RetireKeepsRest(cfg, p, slots[0].w);
      RetireAllKept(cfg, RetireLocked(cfg, p, slots[0].w), slots[1..]);
      assert WorkersOf(slots) == [slots[0].w] + WorkersOf(slots[1..]);
    }
  }

  lemma RetireKeepsRest(cfg: Config, p: Shared, w: nat)
    ensures var q := RetireLocked(cfg, p, w); q.idle == p.idle && q.closed == p.closed && q.active == p.active
  {
  }

  // ----- as it runs -----

  /** The pool as the code holds it. */
  class Workers {
    const cfg: Config
    var idle: seq<Slot>
    var starting: int
    var active: int
    var retiring: int
    var closed: bool
    var queue: seq<nat>
    var reaped: bool
    ghost var blocked: bool
    ghost var panicked: bool

    ghost function State(): Shared
      reads this
    {
      Shared(idle, starting, active, retiring, closed, queue, reaped, blocked, panicked)
    }

    method Retire(w: nat)
      modifies this
      ensures State() == RetireLocked(cfg, old(State()), w)
      ensures Kept(State()) == old(Kept(State())) + multiset{w} && Live(State()) == old(Live(State())) + 1
    {
      RetireKept(cfg, State(), w);
      retiring := retiring + 1;
      blocked := blocked || |queue| >= cfg.max;
      panicked := panicked || reaped;
      queue := queue + [w];
    }

    method LiveCount() returns (n: int)
      ensures n == Live(State())
    {
      n := starting + active + |idle| + retiring;
    }

    method Acquire(alive: set<nat>) returns (r: Acquired)
      modifies this
      ensures (State(), r) == AcquireSection(cfg, old(State()), alive)
      ensures r.Granted? ==> LastAlive(old(idle), alive, r.slot, idle)
      ensures old(Kept(State())) == if r.Granted? then Kept(State()) + multiset{r.slot.w} else Kept(State())
      ensures Live(State()) == old(Live(State())) + (if r.MaySpawn? then 1 else 0)
      ensures r.MaySpawn? ==> Live(State()) <= cfg.max
    {
      AcquireConserves(cfg, State(), alive);
      hide Kept, LastAlive;
      if closed {
        return Refused;
      }
      while !cfg.singleUse && |idle| > 0
        invariant TakeIdle(cfg, State(), alive) == TakeIdle(cfg, old(State()), alive)
        invariant !closed
        decreases |idle|
      {
        var s := idle[|idle| - 1];
        idle := idle[..|idle| - 1];
        if s.w in alive {
          active := active + 1;
          return Granted(s);
        }
        Retire(s.w);
      }
      var live := LiveCount();
      if live < cfg.max {
        starting := starting + 1;
        return MaySpawn;
      }
      r := MustWait;
    }

    method Spawned(w: Option<nat>) returns (granted: bool)
      modifies this
      ensures (State(), granted) == SpawnSection(cfg, old(State()), w)
      ensures granted <==> w.Some? && !old(closed)
      ensures Live(State()) == old(Live(State())) - (if w.None? then 1 else 0)
      ensures Kept(State()) == if w.Some? && !granted then old(Kept(State())) + multiset{w.value} else old(Kept(State()))
    {
      SpawnConserves(cfg, State(), w);
      hide Kept;
      starting := starting - 1;
      if w.None? {
        return false;
      }
      if closed {
        Retire(w.value);
        return false;
      }
      active := active + 1;
      granted := true;
    }

    method Release(s: Slot, alive: bool)
      modifies this
      ensures State() == ReleaseSection(cfg, old(State()), s, alive)
      ensures Kept(State()) == old(Kept(State())) + multiset{s.w} && Live(State()) == old(Live(State()))
      ensures
        if alive && !old(closed) && !cfg.singleUse && (cfg.maxCheckouts == 0 || s.served < cfg.maxCheckouts)
        then idle == old(idle) + [s] && queue == old(queue)
        else idle == old(idle) && queue == old(queue) + [s.w]
    {
      GiveUpConserves(cfg, State(), s, alive);
      hide Kept;
      active := active - 1;
      var recycle := cfg.singleUse || closed || !alive || (cfg.maxCheckouts > 0 && s.served >= cfg.maxCheckouts);
      if recycle {
        Retire(s.w);
      } else {
        idle := idle + [s];
      }
    }

    method RetireFromLease(w: nat)
      modifies this
      ensures State() == RetireLease(cfg, old(State()), w)
      ensures Kept(State()) == old(Kept(State())) + multiset{w} && Live(State()) == old(Live(State())) && idle == old(idle)
    {
      GiveUpConserves(cfg, State(), Slot(w, 0), false);
      hide Kept;
      active := active - 1;
      Retire(w);
    }

    method Handoff(w: nat)
      modifies this
      ensures State() == HandoffSection(cfg, old(State()), w)
      ensures Kept(State()) == old(Kept(State())) + multiset{w} && Live(State()) == old(Live(State())) + 1 && idle == old(idle)
    {
      GiveUpConserves(cfg, State(), Slot(w, 0), false);
      hide Kept;
      active := active - 1;
      starting := starting + 1;
      Retire(w);
    }

    method Reserve() returns (ok: bool)
      modifies this
      ensures (State(), ok) == ReserveSection(cfg, old(State()))
      ensures Kept(State()) == old(Kept(State())) && Live(State()) == old(Live(State())) + (if ok then 1 else 0)
      ensures if ok then !old(closed) && Live(State()) <= cfg.max else old(closed) || Live(State()) >= cfg.max
    {
      ReservationConserves(cfg, State());
      hide Kept;
      if closed {
        return false;
      }
      var live := LiveCount();
      ok := live < cfg.max;
      if ok {
        starting := starting + 1;
      }
    }

    method Bind() returns (ok: bool)
      modifies this
      ensures (State(), ok) == BindSection(old(State()))
      ensures (ok <==> !old(closed)) && Kept(State()) == old(Kept(State()))
      ensures Live(State()) == old(Live(State())) - (if ok then 0 else 1)
    {
      ReservationConserves(cfg, State());
      hide Kept;
      starting := starting - 1;
      ok := !closed;
      if ok {
        active := active + 1;
      }
    }

    method Close()
      modifies this
      ensures State() == CloseSection(cfg, old(State()))
      ensures Kept(State()) == old(Kept(State())) && Live(State()) == old(Live(State())) && (!old(closed) ==> idle == [])
    {
      CloseConserves(cfg, State());
      hide Kept;
      if closed {
        return;
      }
      closed := true;
      var slots := idle;
      idle := [];
      var i := 0;
      while i < |slots|
        invariant 0 <= i <= |slots|
        invariant RetireAll(cfg, State(), slots[i..]) == CloseSection(cfg, old(State()))
      {
        assert slots[i..][1..] == slots[i + 1..];
        Retire(slots[i].w);
        i := i + 1;
      }
    }
  }

  /** checkoutLease: whoever takes the slot first owns the worker's active count. */
  class CheckoutLease {
    const worker: nat
    var slot: Option<Slot>
    /** How many calls have come away with the slot or the worker. */
    ghost var winners: nat

    /** Nobody has won while the slot is there, and one call has once it is gone. */
    ghost predicate Valid()
      reads this
    {
      winners == if slot.Some? then 0 else 1
    }

    constructor (s: Slot)
      ensures Valid() && slot == Some(s) && worker == s.w && winners == 0
    {
      slot, worker, winners := Some(s), s.w, 0;
    }

    method Finish() returns (s: Option<Slot>)
      requires Valid()
      modifies this
      ensures Valid() && slot == None && s == old(slot)
      ensures winners == old(winners) + if s.Some? then 1 else 0
    {
      s := slot;
      slot := None;
      if s.Some? {
        winners := winners + 1;
      }
    }

    method Terminate() returns (w: Option<nat>)
      requires Valid()
      modifies this
      ensures Valid() && slot == None && (w.Some? <==> old(slot).Some?) && (w.Some? ==> w.value == worker)
      ensures winners == old(winners) + if w.Some? then 1 else 0
    {
      if slot.None? {
        return None;
      }
      slot := None;
      winners := winners + 1;
      w := Some(worker);
    }
  }

  /** Any number of calls on one lease, in any order: exactly the first one gets the worker. */
  method Contend(lease: CheckoutLease, finishes: seq<bool>) returns (won: seq<bool>)
    requires lease.Valid() && lease.slot.Some?
    modifies lease
    ensures |won| == |finishes| && lease.Valid()
    ensures forall i | 0 <= i < |won| :: won[i] <==> i == 0
  {
    won := [];
    for i := 0 to |finishes|
      invariant |won| == i && lease.Valid() && (lease.slot.Some? <==> i == 0)
      invariant forall j | 0 <= j < i :: won[j] <==> j == 0
    {
      if finishes[i] {
        var s := lease.Finish();
        won := won + [s.Some?];
      } else {
        var w := lease.Terminate();
        won := won + [w.Some?];
      }
    }
  }
}
