/**
  Every interleaving of the pool's users: the critical sections of Pool, the
  leases and reservations that goroutines hold between them, and what every
  run keeps.
*/
module PoolRun {
  import opened Prelude
  import opened Pool

  /** A checkout's lease; the slot is taken by the first of finish, handoff and terminate. */
  datatype Lease = Lease(slot: Option<Slot>, w: nat)

  /** What the winner of a lease is about to do with the worker's active count. */
  datatype Claim = ToRelease(slot: Slot) | ToHandoff(slot: Slot) | ToRetire

  /** Where a worker is. A run keeps this in step with the real structures. */
  datatype Place = InIdle(i: nat) | InLease(c: nat) | InClaim | InTransit | InQueue | InReaper | Gone

  datatype System = System(
    cfg: Config,
    p: Shared,
    spawning: set<nat>,
    leases: map<nat, Lease>,
    claims: map<nat, Claim>,
    held: set<nat>,
    binding: set<nat>,
    transit: set<nat>,
    reaping: set<nat>,
    place: map<nat, Place>,
    killed: set<nat>,
    acquired: nat,
    givenUp: nat,
    handoffs: nat,
    rereserves: nat,
    drained: bool,
    hasty: bool)

  /** One atomic step of one goroutine. Checkouts c, workers w and reservations r are numbered. */
  datatype Step =
    | Acquire(c: nat, alive: set<nat>)
    | Spawned(c: nat, worker: Option<nat>)
    | Finish(c: nat, served: bool)
    | Handoff(c: nat)
    | Terminate(c: nat, kill: bool)
    | ReleaseClaim(w: nat, healthy: bool)
    | HandoffClaim(w: nat, r: nat)
    | RetireClaim(w: nat)
    | ReaperTake
    | ReaperDone(w: nat)
    | Close
    | Reserve(r: nat)
    | ReleaseReservation(r: nat)
    | Bind(r: nat, c: nat, w: nat)
    | BindRetire(w: nat)
    | BindDone(r: nat)
    | BindFailed(r: nat)
    | ObserveDrained
    | StopReapers

  // ----- steps -----

  function Workers(idle: seq<Slot>): set<nat> {
    set i | 0 <= i < |idle| :: idle[i].w
  }

  /** The places of workers that a section sent to the reaper. */
  function Requeue(place: map<nat, Place>, ws: set<nat>): map<nat, Place> {
    map w | w in place.Keys + ws :: if w in ws then InQueue else place[w]
  }

  function Grant(s: System, c: nat, slot: Slot): System {
    s.(leases := s.leases[c := Lease(Some(slot), slot.w)],
       place := s.place[slot.w := InLease(c)],
       acquired := s.acquired + 1)
  }

  /** acquire's first section, one idle worker at a time. */
  function DoAcquire(s: System, c: nat, alive: set<nat>): System
    decreases |s.p.idle|
  {
    if s.p.closed then s
    else if !s.cfg.singleUse && s.p.idle != [] then
      var slot := s.p.idle[|s.p.idle| - 1];
      if slot.w in alive then Grant(Pop(s).(p := Pop(s).p.(active := s.p.active + 1)), c, slot)
      else DoAcquire(PopDead(s), c, alive)
    else if Live(s.p) < s.cfg.max then s.(p := s.p.(starting := s.p.starting + 1), spawning := s.spawning + {c})
    else s
  }

  function Pop(s: System): System
    requires s.p.idle != []
  {
    s.(p := s.p.(idle := s.p.idle[..|s.p.idle| - 1]))
  }

  function PopDead(s: System): System
    requires s.p.idle != []
  {
    var w := s.p.idle[|s.p.idle| - 1].w;
    Pop(s).(p := RetireLocked(s.cfg, Pop(s).p, w), place := s.place[w := InQueue])
  }

  function DoSpawned(s: System, c: nat, w: Option<nat>): System {
    var (q, granted) := SpawnSection(s.cfg, s.p, w);
    var t := s.(p := q, spawning := s.spawning - {c});
    if w.None? then t
    else if granted then Grant(t, c, Slot(w.value, 0))
    else t.(place := t.place[w.value := InQueue])
  }

  function Won(s: System, c: nat, claim: Claim): System
    requires c in s.leases
  {
    var l := s.leases[c];
    if l.slot.None? then s
    else s.(leases := s.leases[c := l.(slot := None)],
            claims := s.claims[l.w := claim],
            place := s.place[l.w := InClaim])
  }

  function DoTerminate(s: System, c: nat, kill: bool): System
    requires c in s.leases
  {
    if s.leases[c].slot.None? then s
    else
      var t := Won(s, c, ToRetire);
      if kill then t.(killed := t.killed + {s.leases[c].w}) else t
  }

  function GiveUp(s: System, w: nat, q: Shared, at: Place): System {
    s.(p := q, claims := s.claims - {w}, place := s.place[w := at], givenUp := s.givenUp + 1)
  }

  function DoRelease(s: System, w: nat, slot: Slot, healthy: bool): System {
    var q := ReleaseSection(s.cfg, s.p, slot, healthy);
    GiveUp(s, w, q, if |q.idle| > |s.p.idle| then InIdle(|s.p.idle|) else InQueue)
  }

  function DoHandoff(s: System, w: nat, r: nat): System {
    GiveUp(s, w, HandoffSection(s.cfg, s.p, w), InQueue).(held := s.held + {r}, handoffs := s.handoffs + 1)
  }

  function DoBind(s: System, r: nat, c: nat, w: nat): System {
    var (q, open) := BindSection(s.p);
    var t := s.(p := q, held := s.held - {r});
    if open then Grant(t.(binding := t.binding + {r}), c, Slot(w, 0))
    else t.(transit := t.transit + {w}, place := t.place[w := InTransit])
  }

  /** A step that its goroutine cannot take now leaves everything as it is. */
  function Take(s: System, e: Step): System {
    match e
    case Acquire(c, alive) => if c in s.leases || c in s.spawning then s else DoAcquire(s, c, alive)
    case Spawned(c, w) =>
      if c !in s.spawning || (w.Some? && w.value in s.place) then s else DoSpawned(s, c, w)
    case Finish(c, served) =>
      if c !in s.leases || s.leases[c].slot.None? then s
      else
        var slot := s.leases[c].slot.value;
        Won(s, c, ToRelease(if served then slot.(served := slot.served + 1) else slot))
    case Handoff(c) =>
      if c !in s.leases || s.leases[c].slot.None? then s else Won(s, c, ToHandoff(s.leases[c].slot.value))
    case Terminate(c, kill) => if c !in s.leases then s else DoTerminate(s, c, kill)
    case ReleaseClaim(w, healthy) =>
      if w !in s.claims || !s.claims[w].ToRelease? then s else DoRelease(s, w, s.claims[w].slot, healthy)
    case HandoffClaim(w, r) =>
      if w !in s.claims || !s.claims[w].ToHandoff? || r in s.held || r in s.binding then s else DoHandoff(s, w, r)
    case RetireClaim(w) =>
      if w !in s.claims || !s.claims[w].ToRetire? then s else GiveUp(s, w, RetireLease(s.cfg, s.p, w), InQueue)
    case ReaperTake =>
      if s.p.queue == [] then s
      else s.(p := ReapTake(s.p), reaping := s.reaping + {s.p.queue[0]}, place := s.place[s.p.queue[0] := InReaper])
    case ReaperDone(w) =>
      if w !in s.reaping then s
      else s.(p := ReapDone(s.p), reaping := s.reaping - {w}, place := s.place[w := Gone])
    case Close => s.(p := CloseSection(s.cfg, s.p), place := Requeue(s.place, if s.p.closed then {} else Workers(s.p.idle)))
    case Reserve(r) =>
      var (q, ok) := ReserveSection(s.cfg, s.p);
      if !s.cfg.singleUse || !ok || r in s.held || r in s.binding then s else s.(p := q, held := s.held + {r})
    case ReleaseReservation(r) =>
      if r !in s.held then s else s.(p := ReservationRelease(s.p), held := s.held - {r})
    case Bind(r, c, w) =>
      if r !in s.held || c in s.leases || c in s.spawning || w in s.place then s else DoBind(s, r, c, w)
    case BindRetire(w) =>
      if w !in s.transit then s
      else s.(p := RetireLocked(s.cfg, s.p, w), transit := s.transit - {w}, place := s.place[w := InQueue])
    case BindDone(r) => s.(binding := s.binding - {r})
    case BindFailed(r) =>
      if r !in s.binding then s
      else s.(p := ReReserve(s.p), binding := s.binding - {r}, held := s.held + {r}, rereserves := s.rereserves + 1)
    case ObserveDrained =>
      if !s.p.closed || Live(s.p) != 0 then s
      else s.(drained := true, hasty := s.hasty || s.binding != {} || s.transit != {})
    case StopReapers => if !s.drained then s else s.(p := StopSection(s.p))
  }

  function Run(s: System, steps: seq<Step>): System
    decreases |steps|
  {
    if steps == [] then s else Run(Take(s, steps[0]), steps[1..])
  }

  /** A new pool with its prewarmed workers 0, 1, ... idle. */
  function Prewarmed(n: nat): (idle: seq<Slot>)
    ensures |idle| == n
  {
    seq(n, i requires i >= 0 => Slot(i, 0))
  }

  function Init(cfg: Config, min: nat): System {
    System(cfg, Shared(Prewarmed(min), 0, 0, 0, false, [], false, false, false),
           {}, map[], map[], {}, {}, {}, {},
           map i | 0 <= i < min :: InIdle(i),
           {}, 0, 0, 0, 0, false, false)
  }

  // ----- the invariant -----

  ghost function LiveLeases(leases: map<nat, Lease>): set<nat> {
    set c | c in leases && leases[c].slot.Some?
  }

  /** Each counter counts what it stands for. */
  ghost predicate Counted(s: System) {
    && s.p.starting == |s.spawning| + |s.held|
    && s.p.active == |LiveLeases(s.leases)| + |s.claims.Keys|
    && s.p.retiring == |s.p.queue| + |s.reaping|
    && s.acquired == s.givenUp + s.p.active
    && s.spawning !! s.leases.Keys
    && s.held !! s.binding
  }

  /** The structures that hold workers. */
  datatype Holders = Holders(
    idle: seq<Slot>,
    leases: map<nat, Lease>,
    claims: map<nat, Claim>,
    transit: set<nat>,
    queue: seq<nat>,
    reaping: set<nat>,
    place: map<nat, Place>)

  ghost function HoldersOf(s: System): Holders {
    Holders(s.p.idle, s.leases, s.claims, s.transit, s.p.queue, s.reaping, s.place)
  }

  ghost predicate NoRepeats(q: seq<nat>) {
    forall i, j | 0 <= i < j < |q| :: q[i] != q[j]
  }

  ghost predicate At(h: Holders, w: nat, at: Place) {
    w in h.place && h.place[w] == at
  }

  /** Every structure holds its workers where place says, so no worker is in two. */
  ghost predicate Placed(h: Holders) {
    && (forall i | 0 <= i < |h.idle| :: At(h, h.idle[i].w, InIdle(i)))
    && (forall c | c in h.leases && h.leases[c].slot.Some? ::
          h.leases[c].slot.value.w == h.leases[c].w && At(h, h.leases[c].w, InLease(c)))
    && (forall w | w in h.claims :: At(h, w, InClaim) && (h.claims[w].ToRetire? || h.claims[w].slot.w == w))
    && (forall w | w in h.transit :: At(h, w, InTransit))
    && (forall i | 0 <= i < |h.queue| :: At(h, h.queue[i], InQueue))
    && NoRepeats(h.queue)
    && (forall w | w in h.reaping :: At(h, w, InReaper))
  }

  /** Capacity, and what holds once the pool is closed. */
  ghost predicate Bounded(s: System) {
    && Live(s.p) + |s.transit| <= s.cfg.max + s.handoffs + s.rereserves
    && (s.transit != {} ==> s.p.closed)
    && (s.p.closed ==> s.p.idle == [])
    && (s.handoffs == 0 && s.rereserves == 0 ==> !s.p.blocked)
    && (s.drained ==> s.p.closed)
    && (s.p.reaped ==> s.drained)
    && (s.drained && !s.hasty ==> Live(s.p) == 0 && s.transit == {} && s.binding == {})
    && (!s.hasty ==> !s.p.panicked)
  }

  ghost predicate Inv(s: System) {
    Counted(s) && Placed(HoldersOf(s)) && Bounded(s)
  }

  lemma InitInv(cfg: Config, min: nat)
    requires min <= cfg.max
    ensures Inv(Init(cfg, min))
  {
  }

  // ----- moving one worker between structures -----

  lemma PlaceNewLease(h: Holders, c: nat, slot: Slot)
    requires Placed(h) && c !in h.leases && slot.w !in h.place
    ensures Placed(h.(leases := h.leases[c := Lease(Some(slot), slot.w)], place := h.place[slot.w := InLease(c)]))
  {
  }

  lemma PlaceIdleLease(h: Holders, c: nat)
    requires Placed(h) && c !in h.leases && h.idle != []
    ensures var n := |h.idle| - 1;
      var slot := h.idle[n];
      Placed(h.(idle := h.idle[..n], leases := h.leases[c := Lease(Some(slot), slot.w)], place := h.place[slot.w := InLease(c)]))
  {
    assert At(h, h.idle[|h.idle| - 1].w, InIdle(|h.idle| - 1));
  }

  lemma PlaceIdleQueue(h: Holders)
    requires Placed(h) && h.idle != []
    ensures var n := |h.idle| - 1;
      var w := h.idle[n].w;
      Placed(h.(idle := h.idle[..n], queue := h.queue + [w], place := h.place[w := InQueue]))
  {
    assert At(h, h.idle[|h.idle| - 1].w, InIdle(|h.idle| - 1));
  }

  lemma PlaceNewQueue(h: Holders, w: nat)
    requires Placed(h) && w !in h.place
    ensures Placed(h.(queue := h.queue + [w], place := h.place[w := InQueue]))
  {
  }

  lemma PlaceClaim(h: Holders, c: nat, claim: Claim)
    requires Placed(h) && c in h.leases && h.leases[c].slot.Some?
    requires claim.ToRetire? || claim.slot.w == h.leases[c].w
    ensures h.leases[c].w !in h.claims
    ensures var l := h.leases[c];
      Placed(h.(leases := h.leases[c := l.(slot := None)], claims := h.claims[l.w := claim], place := h.place[l.w := InClaim]))
  {
    assert At(h, h.leases[c].w, InLease(c));
  }

  lemma PlaceClaimQueue(h: Holders, w: nat)
    requires Placed(h) && w in h.claims
    ensures Placed(h.(claims := h.claims - {w}, queue := h.queue + [w], place := h.place[w := InQueue]))
  {
    assert At(h, w, InClaim);
  }

  lemma PlaceClaimIdle(h: Holders, w: nat, slot: Slot)
    requires Placed(h) && w in h.claims && slot.w == w
    ensures Placed(h.(claims := h.claims - {w}, idle := h.idle + [slot], place := h.place[w := InIdle(|h.idle|)]))
  {
    assert At(h, w, InClaim);
  }

  lemma PlaceReaper(h: Holders)
    requires Placed(h) && h.queue != []
    ensures h.queue[0] !in h.reaping
    ensures Placed(h.(queue := h.queue[1..], reaping := h.reaping + {h.queue[0]}, place := h.place[h.queue[0] := InReaper]))
  {
    assert At(h, h.queue[0], InQueue);
  }

  lemma PlaceGone(h: Holders, w: nat)
    requires Placed(h) && w in h.reaping
    ensures Placed(h.(reaping := h.reaping - {w}, place := h.place[w := Gone]))
  {
    assert At(h, w, InReaper);
  }

  lemma PlaceNewTransit(h: Holders, w: nat)
    requires Placed(h) && w !in h.place
    ensures w !in h.transit
    ensures Placed(h.(transit := h.transit + {w}, place := h.place[w := InTransit]))
  {
  }

  lemma PlaceTransitQueue(h: Holders, w: nat)
    requires Placed(h) && w in h.transit
    ensures Placed(h.(transit := h.transit - {w}, queue := h.queue + [w], place := h.place[w := InQueue]))
  {
    assert At(h, w, InTransit);
  }

  lemma PlaceIdleAll(h: Holders, queue: seq<nat>)
    requires Placed(h) && |queue| == |h.queue| + |h.idle|
    requires forall i | 0 <= i < |h.queue| :: queue[i] == h.queue[i]
    requires forall i | 0 <= i < |h.idle| :: queue[|h.queue| + i] == h.idle[i].w
    ensures Placed(h.(idle := [], queue := queue, place := Requeue(h.place, Workers(h.idle))))
  {
    var n := |h.queue|;
    var k := h.(idle := [], queue := queue, place := Requeue(h.place, Workers(h.idle)));
    assert forall w | w in k.place && w !in Workers(h.idle) :: w in h.place && k.place[w] == h.place[w];
    forall i | 0 <= i < |queue| ensures At(k, queue[i], InQueue) {
      if i >= n {
        assert queue[n + (i - n)] == h.idle[i - n].w;
      }
    }
    forall i, j | 0 <= i < j < |queue| ensures queue[i] != queue[j] {
      if j >= n {
        assert queue[n + (j - n)] == h.idle[j - n].w;
        if i >= n {
          assert queue[n + (i - n)] == h.idle[i - n].w;
        }
      }
    }
  }

  // ----- acquiring -----

  lemma {:induction false} AcquireRefines(s: System, c: nat, alive: set<nat>)
    ensures DoAcquire(s, c, alive).p == AcquireSection(s.cfg, s.p, alive).0
    decreases |s.p.idle|
  {
    hide RetireLocked, PopDead;
    if !s.p.closed && !s.cfg.singleUse && s.p.idle != [] {
      PopDeadPool(s);
      if s.p.idle[|s.p.idle| - 1].w !in alive {
        AcquireRefines(PopDead(s), c, alive);
        assert TakeIdle(s.cfg, s.p, alive) == TakeIdle(s.cfg, PopDead(s).p, alive);
      }
    }
  }

  lemma PopDeadPool(s: System)
    requires s.p.idle != []
    ensures var t, n := PopDead(s), |s.p.idle| - 1;
      && t.p == RetireLocked(s.cfg, s.p.(idle := s.p.idle[..n]), s.p.idle[n].w)
      && t.p.idle == s.p.idle[..n] && t.cfg == s.cfg && t.p.closed == s.p.closed
      && t.leases == s.leases && t.spawning == s.spawning
      && t.held == s.held && t.binding == s.binding && t.transit == s.transit
      && t.hasty == s.hasty && t.handoffs == s.handoffs
  {
  }

  lemma GrantedLeases(leases: map<nat, Lease>, c: nat, slot: Slot)
    requires c !in leases
    ensures LiveLeases(leases[c := Lease(Some(slot), slot.w)]) == LiveLeases(leases) + {c}
    ensures |LiveLeases(leases[c := Lease(Some(slot), slot.w)])| == |LiveLeases(leases)| + 1
    ensures c !in LiveLeases(leases)
  {
  }

  /** The system once its last idle worker is handed out. */
  function GrantIdle(s: System, c: nat): System
    requires s.p.idle != []
  {
    Grant(Pop(s).(p := Pop(s).p.(active := s.p.active + 1)), c, s.p.idle[|s.p.idle| - 1])
  }

  lemma GrantIdleKeeps(s: System, c: nat)
    requires Inv(s) && c !in s.leases && c !in s.spawning && !s.p.closed && s.p.idle != []
    ensures Inv(GrantIdle(s, c))
  {
    hide Placed, Counted, Bounded;
    PlaceIdleLease(HoldersOf(s), c);
    GrantIdleCounted(s, c);
    GrantIdleBounded(s, c);
    GrantIdleHolders(s, c);
  }

  lemma GrantIdleHolders(s: System, c: nat)
    requires s.p.idle != []
    ensures var n, h := |s.p.idle| - 1, HoldersOf(s);
      HoldersOf(GrantIdle(s, c)) ==
        h.(idle := h.idle[..n], leases := h.leases[c := Lease(Some(h.idle[n]), h.idle[n].w)], place := h.place[h.idle[n].w := InLease(c)])
  {
  }

  lemma GrantIdleCounted(s: System, c: nat)
    requires Counted(s) && c !in s.leases && c !in s.spawning && s.p.idle != []
    ensures Counted(GrantIdle(s, c))
  {
    hide LiveLeases;
    var slot := s.p.idle[|s.p.idle| - 1];
    GrantedLeases(s.leases, c, slot);
    StillApart(s.spawning, s.leases, c, Lease(Some(slot), slot.w));
  }

  lemma GrantIdleBounded(s: System, c: nat)
    requires Bounded(s) && s.p.idle != []
    ensures Bounded(GrantIdle(s, c))
  {
  }

  lemma PopDeadKeeps(s: System)
    requires Inv(s) && s.p.idle != []
    ensures Inv(PopDead(s))
  {
    hide Placed, LiveLeases;
    PlaceIdleQueue(HoldersOf(s));
  }

  lemma {:induction false} AcquireKeeps(s: System, c: nat, alive: set<nat>)
    requires Inv(s) && c !in s.leases && c !in s.spawning
    ensures Inv(DoAcquire(s, c, alive))
    decreases |s.p.idle|
  {
    hide Inv, Grant, PopDead;
    if !s.p.closed {
      if !s.cfg.singleUse && s.p.idle != [] {
        if s.p.idle[|s.p.idle| - 1].w in alive {
          GrantIdleKeeps(s, c);
        } else {
          PopDeadPool(s);
          PopDeadKeeps(s);
          AcquireKeeps(PopDead(s), c, alive);
        }
      } else if Live(s.p) < s.cfg.max {
        StartKeeps(s, c);
      }
    }
  }

  lemma StartKeeps(s: System, c: nat)
    requires Inv(s) && c !in s.leases && c !in s.spawning && !s.p.closed && Live(s.p) < s.cfg.max
    ensures Inv(s.(p := s.p.(starting := s.p.starting + 1), spawning := s.spawning + {c}))
  {
    hide Placed, LiveLeases;
  }

  lemma SpawnedKeeps(s: System, c: nat, w: Option<nat>)
    requires Inv(s) && c in s.spawning && (w.Some? ==> w.value !in s.place)
    ensures Inv(DoSpawned(s, c, w))
  {
    if w.None? {
      hide Placed, LiveLeases;
    } else if s.p.closed {
      hide Inv, DoSpawned;
      SpawnedLate(s, c, w.value);
    } else {
      hide Inv, DoSpawned;
      SpawnedGranted(s, c, w.value);
    }
  }

  lemma SpawnedLate(s: System, c: nat, w: nat)
    requires Inv(s) && c in s.spawning && w !in s.place && s.p.closed
    ensures Inv(DoSpawned(s, c, Some(w)))
  {
    hide Placed, LiveLeases;
    PlaceNewQueue(HoldersOf(s), w);
  }

  lemma SpawnedGranted(s: System, c: nat, w: nat)
    requires Inv(s) && c in s.spawning && w !in s.place && !s.p.closed
    ensures Inv(DoSpawned(s, c, Some(w)))
  {
    hide Placed, LiveLeases;
    PlaceNewLease(HoldersOf(s), c, Slot(w, 0));
    GrantedLeases(s.leases, c, Slot(w, 0));
  }

  // ----- leases and claims -----

  lemma WonKeeps(s: System, c: nat, claim: Claim)
    requires Inv(s) && c in s.leases && s.leases[c].slot.Some?
    requires claim.ToRetire? || claim.slot.w == s.leases[c].w
    ensures Inv(Won(s, c, claim))
  {
    hide Placed;
    var t := Won(s, c, claim);
    PlaceClaim(HoldersOf(s), c, claim);
    assert LiveLeases(t.leases) == LiveLeases(s.leases) - {c};
    assert t.claims.Keys == s.claims.Keys + {s.leases[c].w};
  }

  lemma KilledIrrelevant(s: System, k: set<nat>)
    requires Inv(s)
    ensures Inv(s.(killed := k))
  {
    hide Placed, LiveLeases;
  }

  lemma RetireKeeps(s: System, w: nat)
    requires Inv(s) && w in s.claims
    ensures Inv(GiveUp(s, w, RetireLease(s.cfg, s.p, w), InQueue))
  {
    hide Placed, LiveLeases;
    PlaceClaimQueue(HoldersOf(s), w);
    assert (s.claims - {w}).Keys == s.claims.Keys - {w};
  }

  lemma HandoffKeeps(s: System, w: nat, r: nat)
    requires Inv(s) && w in s.claims && r !in s.held && r !in s.binding
    ensures Inv(DoHandoff(s, w, r))
  {
    hide Placed, Counted, Bounded;
    PlaceClaimQueue(HoldersOf(s), w);
    HandoffCounted(s, w, r);
    HandoffBounded(s, w, r);
  }

  lemma HandoffCounted(s: System, w: nat, r: nat)
    requires Counted(s) && w in s.claims && r !in s.held && r !in s.binding
    ensures Counted(DoHandoff(s, w, r))
  {
    hide LiveLeases;
    assert (s.claims - {w}).Keys == s.claims.Keys - {w};
  }

  lemma HandoffBounded(s: System, w: nat, r: nat)
    requires Bounded(s) && Counted(s) && w in s.claims
    ensures Bounded(DoHandoff(s, w, r))
  {
    hide LiveLeases;
    assert |s.claims.Keys| > 0;
  }

  lemma ReleaseKeeps(s: System, w: nat, slot: Slot, healthy: bool)
    requires Inv(s) && w in s.claims && slot.w == w
    ensures Inv(DoRelease(s, w, slot, healthy))
  {
    hide Placed, LiveLeases;
    PlaceClaimQueue(HoldersOf(s), w);
    PlaceClaimIdle(HoldersOf(s), w, slot);
    assert (s.claims - {w}).Keys == s.claims.Keys - {w};
  }

  // ----- the reaper and closing -----

  lemma ReaperTakeKeeps(s: System)
    requires Inv(s) && s.p.queue != []
    ensures Inv(Take(s, ReaperTake))
  {
    hide Placed, LiveLeases;
    PlaceReaper(HoldersOf(s));
  }

  lemma ReaperDoneKeeps(s: System, w: nat)
    requires Inv(s) && w in s.reaping
    ensures Inv(Take(s, ReaperDone(w)))
  {
    hide Placed, LiveLeases;
    PlaceGone(HoldersOf(s), w);
  }

  lemma {:induction false} RetireAllFacts(cfg: Config, p: Shared, slots: seq<Slot>)
    ensures var q := RetireAll(cfg, p, slots);
      && q == p.(retiring := q.retiring, queue := q.queue, blocked := q.blocked, panicked := q.panicked)
      && q.retiring == p.retiring + |slots|
      && |q.queue| == |p.queue| + |slots|
      && (forall i | 0 <= i < |p.queue| :: q.queue[i] == p.queue[i])
      && (forall i | 0 <= i < |slots| :: q.queue[|p.queue| + i] == slots[i].w)
      && (q.blocked ==> p.blocked || |q.queue| > cfg.max)
      && (q.panicked ==> p.panicked || p.reaped)
    decreases |slots|
  {
    if slots != [] {
      RetireAllFacts(cfg, RetireLocked(cfg, p, slots[0].w), slots[1..]);
    }
  }

  lemma CloseKeeps(s: System)
    requires Inv(s)
    ensures Inv(Take(s, Close))
  {
    hide Placed, LiveLeases, RetireAll;
    if s.p.closed {
      assert Take(s, Close).place == s.place;
    } else {
      RetireAllFacts(s.cfg, s.p.(closed := true, idle := []), s.p.idle);
      PlaceIdleAll(HoldersOf(s), Take(s, Close).p.queue);
    }
  }

  lemma ShutdownKeeps(s: System)
    requires Inv(s)
    ensures Inv(Take(s, ObserveDrained)) && Inv(Take(s, StopReapers))
  {
    hide Placed, LiveLeases;
  }

  // ----- reservations -----

  lemma ReserveKeeps(s: System, r: nat)
    requires Inv(s)
    ensures Inv(Take(s, Reserve(r)))
  {
    hide Placed, LiveLeases;
  }

  lemma ReleaseReservationKeeps(s: System, r: nat)
    requires Inv(s)
    ensures Inv(Take(s, ReleaseReservation(r))) && Inv(Take(s, BindDone(r)))
  {
    hide Placed, LiveLeases;
  }

  lemma BindFailedKeeps(s: System, r: nat)
    requires Inv(s)
    ensures Inv(Take(s, BindFailed(r)))
  {
    hide Placed, Counted, Bounded;
    if r in s.binding {
      BindFailedCounted(s, r);
      BindFailedBounded(s, r);
    }
  }

  lemma BindFailedCounted(s: System, r: nat)
    requires Counted(s) && r in s.binding
    ensures Counted(Take(s, BindFailed(r)))
  {
    hide LiveLeases;
  }

  lemma BindFailedBounded(s: System, r: nat)
    requires Bounded(s) && r in s.binding
    ensures Bounded(Take(s, BindFailed(r)))
  {
  }

  lemma BindKeeps(s: System, r: nat, c: nat, w: nat)
    requires Inv(s) && r in s.held && c !in s.leases && c !in s.spawning && w !in s.place
    ensures Inv(DoBind(s, r, c, w))
  {
    hide Placed, Counted, Bounded;
    BindCounted(s, r, c, w);
    BindBounded(s, r, c, w);
    if s.p.closed { PlaceNewTransit(HoldersOf(s), w); } else { PlaceNewLease(HoldersOf(s), c, Slot(w, 0)); }
  }

  lemma MoveMember(a: set<nat>, b: set<nat>, r: nat)
    requires a !! b && r in a
    ensures a - {r} !! b + {r} && a - {r} !! b && |a - {r}| == |a| - 1
  {
  }

  lemma BindCounted(s: System, r: nat, c: nat, w: nat)
    requires Counted(s) && r in s.held && c !in s.leases && c !in s.spawning
    ensures Counted(DoBind(s, r, c, w))
  {
    BindFields(s, r, c, w);
    hide DoBind, Counted;
    if s.p.closed { CountedClosed(s, DoBind(s, r, c, w), r); } else { CountedBound(s, DoBind(s, r, c, w), r, c, w); }
  }

  lemma BindFields(s: System, r: nat, c: nat, w: nat)
    ensures var t := DoBind(s, r, c, w);
      && t.spawning == s.spawning && t.claims == s.claims && t.reaping == s.reaping && t.p.queue == s.p.queue
      && t.p.retiring == s.p.retiring && t.givenUp == s.givenUp
      && t.held == s.held - {r} && t.p.starting == s.p.starting - 1
      && (if s.p.closed then t.leases == s.leases && t.binding == s.binding && t.acquired == s.acquired && t.p.active == s.p.active
          else && t.leases == s.leases[c := Lease(Some(Slot(w, 0)), w)] && t.binding == s.binding + {r}
               && t.acquired == s.acquired + 1 && t.p.active == s.p.active + 1)
  {
  }

  lemma CountedClosed(s: System, t: System, r: nat)
    requires Counted(s) && r in s.held
    requires t.spawning == s.spawning && t.claims == s.claims && t.reaping == s.reaping && t.p.queue == s.p.queue
    requires t.p.retiring == s.p.retiring && t.givenUp == s.givenUp && t.acquired == s.acquired && t.p.active == s.p.active
    requires t.held == s.held - {r} && t.p.starting == s.p.starting - 1 && t.leases == s.leases && t.binding == s.binding
    ensures Counted(t)
  {
    hide LiveLeases;
    MoveMember(s.held, s.binding, r);
  }

  lemma StillApart(spawning: set<nat>, leases: map<nat, Lease>, c: nat, l: Lease)
    requires spawning !! leases.Keys && c !in spawning
    ensures spawning !! leases[c := l].Keys
  {
  }

  lemma CountedBound(s: System, t: System, r: nat, c: nat, w: nat)
    requires Counted(s) && r in s.held && c !in s.leases && c !in s.spawning
    requires t.spawning == s.spawning && t.claims == s.claims && t.reaping == s.reaping && t.p.queue == s.p.queue
    requires t.p.retiring == s.p.retiring && t.givenUp == s.givenUp && t.acquired == s.acquired + 1 && t.p.active == s.p.active + 1
    requires t.held == s.held - {r} && t.p.starting == s.p.starting - 1
    requires t.leases == s.leases[c := Lease(Some(Slot(w, 0)), w)] && t.binding == s.binding + {r}
    ensures Counted(t)
  {
    hide LiveLeases;
    assert t.held !! t.binding && |t.held| == |s.held| - 1 by { MoveMember(s.held, s.binding, r); }
    assert |LiveLeases(t.leases)| == |LiveLeases(s.leases)| + 1 by { GrantedLeases(s.leases, c, Slot(w, 0)); }
    assert t.spawning !! t.leases.Keys by { StillApart(s.spawning, s.leases, c, Lease(Some(Slot(w, 0)), w)); }
  }

  lemma BindBounded(s: System, r: nat, c: nat, w: nat)
    requires Bounded(s) && Counted(s) && Placed(HoldersOf(s)) && r in s.held && w !in s.place
    ensures Bounded(DoBind(s, r, c, w))
  {
    hide LiveLeases;
    if s.p.closed { PlaceNewTransit(HoldersOf(s), w); }
    hide Placed;
    assert |s.held| > 0;
  }

  lemma BindRetireKeeps(s: System, w: nat)
    requires Inv(s) && w in s.transit
    ensures Inv(Take(s, BindRetire(w)))
  {
    hide Placed, LiveLeases;
    PlaceTransitQueue(HoldersOf(s), w);
  }

  // ----- every run -----

  lemma LeaseStepKeeps(s: System, e: Step)
    requires Inv(s) && (e.Finish? || e.Handoff? || e.Terminate?)
    ensures Inv(Take(s, e))
  {
    hide Inv;
    if e.c in s.leases && s.leases[e.c].slot.Some? {
      LeaseNames(s, e.c);
      match e
      case Finish(c, served) => WonKeeps(s, c, Take(s, e).claims[s.leases[c].w]);
      case Handoff(c) => WonKeeps(s, c, ToHandoff(s.leases[c].slot.value));
      case Terminate(c, kill) =>
        WonKeeps(s, c, ToRetire);
        KilledIrrelevant(Won(s, c, ToRetire), s.killed + {s.leases[c].w});
    }
  }

  lemma LeaseNames(s: System, c: nat)
    requires Inv(s) && c in s.leases && s.leases[c].slot.Some?
    ensures s.leases[c].slot.value.w == s.leases[c].w
  {
  }

  lemma ClaimNames(s: System, w: nat)
    requires Inv(s) && w in s.claims && !s.claims[w].ToRetire?
    ensures s.claims[w].slot.w == w
  {
  }

  lemma TakeKeeps(s: System, e: Step)
    requires Inv(s)
    ensures Inv(Take(s, e))
  {
    hide Inv;
    match e
    case Acquire(c, alive) =>
      if c !in s.leases && c !in s.spawning {
        AcquireKeeps(s, c, alive);
      }
    case Spawned(c, w) =>
      if c in s.spawning && (w.Some? ==> w.value !in s.place) {
        SpawnedKeeps(s, c, w);
      }
    case Finish(_, _) => LeaseStepKeeps(s, e);
    case Handoff(_) => LeaseStepKeeps(s, e);
    case Terminate(_, _) => LeaseStepKeeps(s, e);
    case ReleaseClaim(w, healthy) =>
      if w in s.claims && s.claims[w].ToRelease? {
        ClaimNames(s, w);
        ReleaseKeeps(s, w, s.claims[w].slot, healthy);
      }
    case HandoffClaim(w, r) =>
      if w in s.claims && r !in s.held && r !in s.binding {
        HandoffKeeps(s, w, r);
      }
    case RetireClaim(w) =>
      if w in s.claims {
        RetireKeeps(s, w);
      }
    case ReaperTake =>
      if s.p.queue != [] {
        ReaperTakeKeeps(s);
      }
    case ReaperDone(w) =>
      if w in s.reaping {
        ReaperDoneKeeps(s, w);
      }
    case Close => CloseKeeps(s);
    case Reserve(r) => ReserveKeeps(s, r);
    case ReleaseReservation(r) => ReleaseReservationKeeps(s, r);
    case Bind(r, c, w) =>
      if r in s.held && c !in s.leases && c !in s.spawning && w !in s.place {
        BindKeeps(s, r, c, w);
      }
    case BindRetire(w) =>
      if w in s.transit {
        BindRetireKeeps(s, w);
      }
    case BindDone(r) => ReleaseReservationKeeps(s, r);
    case BindFailed(r) => BindFailedKeeps(s, r);
    case ObserveDrained => ShutdownKeeps(s);
    case StopReapers => ShutdownKeeps(s);
  }

  lemma {:induction false} RunKeeps(s: System, steps: seq<Step>)
    requires Inv(s)
    ensures Inv(Run(s, steps))
    decreases |steps|
  {
    hide Inv, Take;
    if steps != [] {
      TakeKeeps(s, steps[0]);
      RunKeeps(Take(s, steps[0]), steps[1..]);
    }
  }

  // ----- main results -----

  /** Capacity in every interleaving, and no send to a full reaper queue in a pool that never hands off or re-reserves. */
  lemma CapacityHolds(cfg: Config, min: nat, steps: seq<Step>)
    requires min <= cfg.max
    ensures var s := Run(Init(cfg, min), steps);
      && s.p.starting + s.p.active + |s.p.idle| + s.p.retiring <= cfg.max + s.handoffs + s.rereserves
      && (s.handoffs == 0 && s.rereserves == 0 ==> Live(s.p) <= cfg.max && |s.p.queue| <= cfg.max && !s.p.blocked)
  {
    hide Take;
    InitInv(cfg, min);
    RunKeeps(Init(cfg, min), steps);
    ConfigFixed(Init(cfg, min), steps);
  }

  lemma {:induction false} ConfigFixed(s: System, steps: seq<Step>)
    ensures Run(s, steps).cfg == s.cfg
    decreases |steps|
  {
    hide Take;
    if steps != [] {
      StepConfig(s, steps[0]);
      ConfigFixed(Take(s, steps[0]), steps[1..]);
    }
  }

  lemma StepConfig(s: System, e: Step)
    ensures Take(s, e).cfg == s.cfg
  {
    hide RetireLocked, RetireAll, Requeue, DoAcquire;
    if e.Acquire? {
      AcquireConfig(s, e.c, e.alive);
    }
  }

  lemma {:induction false} AcquireConfig(s: System, c: nat, alive: set<nat>)
    ensures DoAcquire(s, c, alive).cfg == s.cfg
    decreases |s.p.idle|
  {
    if !s.p.closed && !s.cfg.singleUse && s.p.idle != [] && s.p.idle[|s.p.idle| - 1].w !in alive {
      AcquireConfig(PopDead(s), c, alive);
    }
  }

  /** The active count is what leases and claims in transit own, and each owner gives it up once. */
  lemma ActiveIsOwned(cfg: Config, min: nat, steps: seq<Step>)
    requires min <= cfg.max
    ensures var s := Run(Init(cfg, min), steps);
      && s.p.active == |LiveLeases(s.leases)| + |s.claims.Keys|
      && s.acquired == s.givenUp + s.p.active
      && s.p.starting == |s.spawning| + |s.held|
      && s.p.retiring == |s.p.queue| + |s.reaping|
  {
    hide Take;
    InitInv(cfg, min);
    RunKeeps(Init(cfg, min), steps);
  }

  /** The places a worker can be handed out from or used in. */
  ghost predicate InUse(s: System, w: nat) {
    || (exists i | 0 <= i < |s.p.idle| :: s.p.idle[i].w == w)
    || (exists c | c in s.leases :: s.leases[c].slot.Some? && s.leases[c].w == w)
  }

  /** No worker is idle twice, leased twice, or both, and none in use is being retired. */
  lemma OneHolder(cfg: Config, min: nat, steps: seq<Step>)
    requires min <= cfg.max
    ensures var s := Run(Init(cfg, min), steps);
      && (forall i, j | 0 <= i < j < |s.p.idle| :: s.p.idle[i].w != s.p.idle[j].w)
      && (forall c, d | c in LiveLeases(s.leases) && d in LiveLeases(s.leases) && c != d :: s.leases[c].w != s.leases[d].w)
      && (forall i, c | 0 <= i < |s.p.idle| && c in LiveLeases(s.leases) :: s.p.idle[i].w != s.leases[c].w)
      && (forall w | w in s.claims || w in s.p.queue || w in s.reaping || w in s.transit :: !InUse(s, w))
  {
    hide Take;
    InitInv(cfg, min);
    RunKeeps(Init(cfg, min), steps);
    PlacedOnce(Run(Init(cfg, min), steps));
  }

  lemma PlacedOnce(s: System)
    requires Placed(HoldersOf(s))
    ensures forall i, j | 0 <= i < j < |s.p.idle| :: s.p.idle[i].w != s.p.idle[j].w
    ensures forall c, d | c in LiveLeases(s.leases) && d in LiveLeases(s.leases) && c != d :: s.leases[c].w != s.leases[d].w
    ensures forall i, c | 0 <= i < |s.p.idle| && c in LiveLeases(s.leases) :: s.p.idle[i].w != s.leases[c].w
    ensures forall w | w in s.claims || w in s.p.queue || w in s.reaping || w in s.transit :: !InUse(s, w)
  {
    var h := HoldersOf(s);
    forall w | w in s.p.queue ensures At(h, w, InQueue) {
      var i :| 0 <= i < |s.p.queue| && s.p.queue[i] == w;
    }
  }

  // ----- workers are reused -----

  /** The checkouts a worker has served once the holder of lease c finishes. */
  function ServedBy(s: System, c: nat, served: bool): nat
    requires c in s.leases && s.leases[c].slot.Some?
  {
    s.leases[c].slot.value.served + if served then 1 else 0
  }

  /**
    In an open pool that reuses workers, a healthy worker that is finished with
    below its checkout limit is the one the next acquire hands out: nothing is
    spawned, and it has served one checkout more exactly if this one was served.
  */
  lemma ReusedNext(s: System, c: nat, served: bool, d: nat, alive: set<nat>)
    requires Inv(s) && c in s.leases && s.leases[c].slot.Some? && s.leases[c].w in alive
    requires !s.p.closed && !s.cfg.singleUse && (s.cfg.maxCheckouts == 0 || ServedBy(s, c, served) < s.cfg.maxCheckouts)
    requires d !in s.leases && d !in s.spawning
    ensures var w := s.leases[c].w;
      var t := Take(Take(Take(s, Finish(c, served)), ReleaseClaim(w, true)), Acquire(d, alive));
      && d in t.leases && t.leases[d] == Lease(Some(Slot(w, ServedBy(s, c, served))), w)
      && t.spawning == s.spawning && t.p.starting == s.p.starting
      && t.p.idle == s.p.idle && t.p.active == s.p.active && t.p.queue == s.p.queue
  {
    LeaseNames(s, c);
    var w, slot := s.leases[c].w, Slot(s.leases[c].w, ServedBy(s, c, served));
    FinishClaims(s, c, served);
    var f := Take(s, Finish(c, served));
    ReleaseReuses(f, w, slot);
    var r := Take(f, ReleaseClaim(w, true));
    hide Inv, ReleaseSection, Won;
    AcquireLast(r, d, alive, slot);
  }

  lemma FinishClaims(s: System, c: nat, served: bool)
    requires c in s.leases && s.leases[c].slot.Some? && s.leases[c].slot.value.w == s.leases[c].w
    ensures var w, t := s.leases[c].w, Take(s, Finish(c, served));
      && w in t.claims && t.claims[w] == ToRelease(Slot(w, ServedBy(s, c, served)))
      && t.p == s.p && t.cfg == s.cfg && t.spawning == s.spawning && t.leases.Keys == s.leases.Keys
  {
  }

  lemma ReleaseReuses(s: System, w: nat, slot: Slot)
    requires w in s.claims && s.claims[w] == ToRelease(slot)
    requires !s.p.closed && !s.cfg.singleUse && (s.cfg.maxCheckouts == 0 || slot.served < s.cfg.maxCheckouts)
    ensures var t := Take(s, ReleaseClaim(w, true));
      && t.p.idle == s.p.idle + [slot] && t.p.queue == s.p.queue && t.p.starting == s.p.starting && t.p.active == s.p.active - 1
      && !t.p.closed && t.cfg == s.cfg && t.spawning == s.spawning && t.leases == s.leases
  {
    GiveUpConserves(s.cfg, s.p, slot, true);
    hide Kept;
    var t := Take(s, ReleaseClaim(w, true));
    assert t.p == ReleaseSection(s.cfg, s.p, slot, true);
    assert t.p.idle == s.p.idle + [slot];
  }

  lemma AcquireLast(s: System, d: nat, alive: set<nat>, slot: Slot)
    requires s.p.idle != [] && s.p.idle[|s.p.idle| - 1] == slot && slot.w in alive
    requires !s.p.closed && !s.cfg.singleUse && d !in s.leases && d !in s.spawning
    ensures var t := Take(s, Acquire(d, alive));
      && d in t.leases && t.leases[d] == Lease(Some(slot), slot.w)
      && t.spawning == s.spawning && t.p.starting == s.p.starting
      && t.p.idle == s.p.idle[..|s.p.idle| - 1] && t.p.active == s.p.active + 1 && t.p.queue == s.p.queue
  {
  }

  /** A bind that has succeeded is settled once: after that it can no longer fail and take capacity back. */
  lemma BindSettled(s: System, r: nat)
    requires r in s.binding
    ensures var t := Take(s, BindDone(r));
      t == s.(binding := s.binding - {r}) && Take(t, BindFailed(r)) == t && r in Take(s, BindFailed(r)).held
  {
  }

  /** Room is reserved exactly in an open single-use pool below its maximum, and a reservation given back leaves no trace. */
  lemma ReservationRoundTrip(s: System, r: nat)
    requires r !in s.held && r !in s.binding
    ensures var t := Take(s, Step.Reserve(r));
      if s.cfg.singleUse && !s.p.closed && Live(s.p) < s.cfg.max then
        r in t.held && Live(t.p) == Live(s.p) + 1 && Take(t, ReleaseReservation(r)) == s
      else t == s
  {
    assert s.held + {r} - {r} == s.held;
  }

  /** A worker's checkout limit: nothing idle or leased has used it up. */
  ghost predicate WithinCheckouts(s: System) {
    IdleWithin(s.cfg.maxCheckouts, s.p.idle) && LeasesWithin(s.cfg.maxCheckouts, s.leases)
  }

  ghost predicate IdleWithin(max: nat, idle: seq<Slot>) {
    max > 0 ==> forall i | 0 <= i < |idle| :: idle[i].served < max
  }

  ghost predicate LeasesWithin(max: nat, leases: map<nat, Lease>) {
    max > 0 ==> forall c | c in leases && leases[c].slot.Some? :: leases[c].slot.value.served < max
  }

  lemma GrantWithin(max: nat, leases: map<nat, Lease>, c: nat, slot: Slot)
    requires LeasesWithin(max, leases) && (max > 0 ==> slot.served < max)
    ensures LeasesWithin(max, leases[c := Lease(Some(slot), slot.w)])
  {
  }

  lemma WonWithin(max: nat, leases: map<nat, Lease>, c: nat)
    requires LeasesWithin(max, leases) && c in leases
    ensures LeasesWithin(max, leases[c := leases[c].(slot := None)])
  {
  }

  lemma PopWithin(max: nat, idle: seq<Slot>)
    requires IdleWithin(max, idle) && idle != []
    ensures IdleWithin(max, idle[..|idle| - 1]) && (max > 0 ==> idle[|idle| - 1].served < max)
  {
  }

  lemma {:induction false} AcquireCheckouts(s: System, c: nat, alive: set<nat>)
    requires WithinCheckouts(s)
    ensures WithinCheckouts(DoAcquire(s, c, alive))
    decreases |s.p.idle|
  {
    hide IdleWithin, LeasesWithin;
    if !s.p.closed && !s.cfg.singleUse && s.p.idle != [] {
      PopWithin(s.cfg.maxCheckouts, s.p.idle);
      if s.p.idle[|s.p.idle| - 1].w in alive {
        GrantWithin(s.cfg.maxCheckouts, s.leases, c, s.p.idle[|s.p.idle| - 1]);
      } else {
        hide PopDead;
        PopDeadPool(s);
        AcquireCheckouts(PopDead(s), c, alive);
      }
    }
  }

  lemma ReleaseWithin(max: nat, idle: seq<Slot>, slot: Slot)
    requires IdleWithin(max, idle) && (max > 0 ==> slot.served < max)
    ensures IdleWithin(max, idle + [slot])
  {
  }

  lemma ReleaseCheckouts(s: System, w: nat, healthy: bool)
    requires WithinCheckouts(s)
    ensures WithinCheckouts(Take(s, ReleaseClaim(w, healthy)))
  {
    hide IdleWithin, LeasesWithin;
    if w in s.claims && s.claims[w].ToRelease? && (s.cfg.maxCheckouts > 0 ==> s.claims[w].slot.served < s.cfg.maxCheckouts) {
      ReleaseWithin(s.cfg.maxCheckouts, s.p.idle, s.claims[w].slot);
    }
  }

  lemma CloseCheckouts(s: System)
    requires WithinCheckouts(s)
    ensures WithinCheckouts(Take(s, Close))
  {
    hide RetireAll, Requeue;
    RetireAllFacts(s.cfg, s.p.(closed := true, idle := []), s.p.idle);
  }

  /** What a step other than acquire, release and close does to the lists that matter here. */
  lemma StepCheckouts(s: System, e: Step)
    requires WithinCheckouts(s)
    ensures WithinCheckouts(Take(s, e))
  {
    hide IdleWithin, LeasesWithin, RetireAll, Requeue, DoAcquire, ReleaseSection, WithinCheckouts;
    match e
    case Acquire(c, alive) => AcquireCheckouts(s, c, alive);
    case ReleaseClaim(w, healthy) => ReleaseCheckouts(s, w, healthy);
    case Close => CloseCheckouts(s);
    case Spawned(c, w) => SpawnedCheckouts(s, c, w);
    case Bind(r, c, w) => BindCheckouts(s, r, c, w);
    case Finish(c, _) => WonCheckouts(s, e, c);
    case Handoff(c) => WonCheckouts(s, e, c);
    case Terminate(c, _) => WonCheckouts(s, e, c);
    case HandoffClaim(_, _) => RetireCheckouts(s, e);
    case RetireClaim(_) => RetireCheckouts(s, e);
    case BindRetire(_) => RetireCheckouts(s, e);
    case ReaperTake => RetireCheckouts(s, e);
    case ReaperDone(_) => RetireCheckouts(s, e);
    case _ => OtherCheckouts(s, e);
  }

  lemma RetireCheckouts(s: System, e: Step)
    requires WithinCheckouts(s) && (e.HandoffClaim? || e.RetireClaim? || e.BindRetire? || e.ReaperTake? || e.ReaperDone?)
    ensures WithinCheckouts(Take(s, e))
  {
    hide WithinCheckouts;
    SameCheckouts(s, Take(s, e));
  }

  lemma OtherCheckouts(s: System, e: Step)
    requires WithinCheckouts(s)
    requires e.Reserve? || e.ReleaseReservation? || e.BindDone? || e.BindFailed? || e.ObserveDrained? || e.StopReapers?
    ensures WithinCheckouts(Take(s, e))
  {
    hide WithinCheckouts;
    SameCheckouts(s, Take(s, e));
  }

  lemma SameCheckouts(s: System, t: System)
    requires WithinCheckouts(s) && t.cfg == s.cfg && t.p.idle == s.p.idle && t.leases == s.leases
    ensures WithinCheckouts(t)
  {
  }

  lemma GrantedCheckouts(s: System, t: System, c: nat, w: nat)
    requires WithinCheckouts(s) && t.cfg == s.cfg && t.p.idle == s.p.idle
    requires t.leases == s.leases || t.leases == s.leases[c := Lease(Some(Slot(w, 0)), w)]
    ensures WithinCheckouts(t)
  {
    hide IdleWithin, LeasesWithin;
    GrantWithin(s.cfg.maxCheckouts, s.leases, c, Slot(w, 0));
  }

  lemma SpawnedCheckouts(s: System, c: nat, w: Option<nat>)
    requires WithinCheckouts(s)
    ensures WithinCheckouts(Take(s, Spawned(c, w)))
  {
    hide WithinCheckouts;
    if c !in s.spawning || w.None? || w.value in s.place {
      SameCheckouts(s, Take(s, Spawned(c, w)));
    } else {
      var t := DoSpawned(s, c, w);
      assert t.cfg == s.cfg && t.p.idle == s.p.idle;
      GrantedCheckouts(s, t, c, w.value);
    }
  }

  lemma BindCheckouts(s: System, r: nat, c: nat, w: nat)
    requires WithinCheckouts(s)
    ensures WithinCheckouts(Take(s, Bind(r, c, w)))
  {
    hide WithinCheckouts;
    GrantedCheckouts(s, Take(s, Bind(r, c, w)), c, w);
  }

  lemma WonCheckouts(s: System, e: Step, c: nat)
    requires WithinCheckouts(s) && (e.Finish? || e.Handoff? || e.Terminate?) && e.c == c
    ensures WithinCheckouts(Take(s, e))
  {
    hide IdleWithin, LeasesWithin;
    if c in s.leases { WonWithin(s.cfg.maxCheckouts, s.leases, c); }
    var t := Take(s, e);
    assert t.cfg == s.cfg && t.p == s.p;
    assert t.leases == s.leases || (c in s.leases && t.leases == s.leases[c := s.leases[c].(slot := None)]);
  }

  lemma {:induction false} RunCheckouts(s: System, steps: seq<Step>)
    requires WithinCheckouts(s)
    ensures WithinCheckouts(Run(s, steps))
    decreases |steps|
  {
    hide Take, WithinCheckouts;
    if steps != [] {
      StepCheckouts(s, steps[0]);
      RunCheckouts(Take(s, steps[0]), steps[1..]);
    }
  }

  /** In every run a worker that is idle or leased has served fewer checkouts than it may. */
  lemma CheckoutsBounded(cfg: Config, min: nat, steps: seq<Step>)
    ensures var s := Run(Init(cfg, min), steps);
      cfg.maxCheckouts > 0 ==>
        && (forall i | 0 <= i < |s.p.idle| :: s.p.idle[i].served < cfg.maxCheckouts)
        && (forall c | c in s.leases && s.leases[c].slot.Some? :: s.leases[c].slot.value.served < cfg.maxCheckouts)
  {
    hide Take, Run;
    RunCheckouts(Init(cfg, min), steps);
    ConfigFixed(Init(cfg, min), steps);
  }

  // ----- one winner per lease -----

  /** Once one of finish, handoff and terminate has the slot, no later step finds it. */
  lemma {:induction false} LeaseWonOnce(s: System, steps: seq<Step>, c: nat)
    requires Inv(s) && c in s.leases && s.leases[c].slot.None?
    ensures c in Run(s, steps).leases && Run(s, steps).leases[c] == s.leases[c]
    decreases |steps|
  {
    hide Take, Placed, Bounded;
    if steps != [] {
      TakeKeeps(s, steps[0]);
      LostStays(s, steps[0], c);
      LeaseWonOnce(Take(s, steps[0]), steps[1..], c);
    }
  }

  lemma LostStays(s: System, e: Step, c: nat)
    requires c in s.leases && s.leases[c].slot.None? && s.spawning !! s.leases.Keys
    ensures c in Take(s, e).leases && Take(s, e).leases[c] == s.leases[c]
  {
    hide RetireLocked, RetireAll, Requeue, DoAcquire;
    if e.Acquire? && e.c !in s.leases {
      AcquireLeases(s, e.c, e.alive, c);
    }
  }

  lemma {:induction false} AcquireLeases(s: System, c: nat, alive: set<nat>, d: nat)
    requires d in s.leases && d != c
    ensures d in DoAcquire(s, c, alive).leases && DoAcquire(s, c, alive).leases[d] == s.leases[d]
    decreases |s.p.idle|
  {
    if !s.p.closed && !s.cfg.singleUse && s.p.idle != [] && s.p.idle[|s.p.idle| - 1].w !in alive {
      AcquireLeases(PopDead(s), c, alive, d);
    }
  }

  /** Terminate does nothing on a lease that is gone, and otherwise kills a worker that only this lease holds. */
  lemma TerminateKillsItsOwn(s: System, c: nat, kill: bool)
    requires Inv(s) && c in s.leases
    ensures s.leases[c].slot.None? ==> Take(s, Terminate(c, kill)) == s
    ensures s.leases[c].slot.Some? ==>
      var w, t := s.leases[c].w, Take(s, Terminate(c, kill));
      && t.killed == (if kill then s.killed + {w} else s.killed)
      && (forall i | 0 <= i < |s.p.idle| :: s.p.idle[i].w != w)
      && (forall d | d in LiveLeases(s.leases) && d != c :: s.leases[d].w != w)
      && !InUse(t, w)
  {
    if s.leases[c].slot.Some? {
      var h := HoldersOf(s);
      assert At(h, s.leases[c].w, InLease(c));
    }
  }

  // ----- a killed worker is never used again -----

  ghost predicate Doomed(s: System) {
    forall w | w in s.killed :: DoomedAt(s.place, s.claims, w)
  }

  ghost predicate DoomedAt(place: map<nat, Place>, claims: map<nat, Claim>, w: nat) {
    && w in place
    && (place[w] == InQueue || place[w] == InReaper || place[w] == Gone
        || (place[w] == InClaim && w in claims && claims[w] == ToRetire))
  }

  lemma {:induction false} AcquireDoomed(s: System, c: nat, alive: set<nat>)
    requires Placed(HoldersOf(s)) && Doomed(s)
    ensures Doomed(DoAcquire(s, c, alive))
    decreases |s.p.idle|
  {
    if !s.p.closed && !s.cfg.singleUse && s.p.idle != [] {
      var w := s.p.idle[|s.p.idle| - 1].w;
      assert At(HoldersOf(s), w, InIdle(|s.p.idle| - 1));
      NotDoomed(s, w);
      PlaceIdleQueue(HoldersOf(s));
      hide Placed, Doomed, RetireLocked;
      if w in alive {
        MoveDoomed(s, DoAcquire(s, c, alive), w, InLease(c));
      } else {
        PopDeadHolders(s);
        MoveDoomed(s, PopDead(s), w, InQueue);
        AcquireDoomed(PopDead(s), c, alive);
      }
    } else {
      hide Placed, Doomed;
      SameDoomed(s, DoAcquire(s, c, alive));
    }
  }

  lemma PopDeadHolders(s: System)
    requires s.p.idle != []
    ensures var n, h := |s.p.idle| - 1, HoldersOf(s);
      && HoldersOf(PopDead(s)) == h.(idle := h.idle[..n], queue := h.queue + [h.idle[n].w], place := h.place[h.idle[n].w := InQueue])
      && |PopDead(s).p.idle| == n && PopDead(s).claims == s.claims && PopDead(s).killed == s.killed
  {
  }

  lemma MoveDoomed(s: System, t: System, w: nat, at: Place)
    requires Doomed(s) && t.killed == s.killed && t.place == s.place[w := at]
    requires w in s.killed ==> at == InQueue || at == InReaper || at == Gone
    requires forall v | v in s.claims && v != w :: v in t.claims && t.claims[v] == s.claims[v]
    ensures Doomed(t)
  {
    forall v | v in t.killed ensures DoomedAt(t.place, t.claims, v) {
      assert DoomedAt(s.place, s.claims, v);
    }
  }

  lemma SameDoomed(s: System, t: System)
    requires Doomed(s) && t.killed == s.killed && t.place == s.place && t.claims == s.claims
    ensures Doomed(t)
  {
    forall v | v in t.killed ensures DoomedAt(t.place, t.claims, v) {
      assert DoomedAt(s.place, s.claims, v);
    }
  }

  lemma NotDoomed(s: System, w: nat)
    requires Doomed(s)
    ensures w in s.killed ==> DoomedAt(s.place, s.claims, w)
  {
  }

  lemma LeaseDoomed(s: System, e: Step)
    requires Placed(HoldersOf(s)) && Doomed(s) && (e.Finish? || e.Handoff? || e.Terminate?)
    ensures Doomed(Take(s, e))
  {
    if e.c in s.leases && s.leases[e.c].slot.Some? {
      var w := s.leases[e.c].w;
      assert At(HoldersOf(s), w, InLease(e.c));
      NotDoomed(s, w);
      hide Placed, Doomed;
      var t := Take(s, e).(killed := s.killed);
      MoveDoomed(s, t, w, InClaim);
      assert e.Terminate? ==> DoomedAt(t.place, t.claims, w);
      AddDoomed(t, w);
    } else {
      SameDoomed(s, Take(s, e));
    }
  }

  lemma AddDoomed(s: System, w: nat)
    requires Doomed(s)
    ensures DoomedAt(s.place, s.claims, w) ==> Doomed(s.(killed := s.killed + {w}))
    ensures Doomed(s.(killed := s.killed))
  {
  }

  lemma CloseDoomed(s: System)
    requires Placed(HoldersOf(s)) && Doomed(s)
    ensures Doomed(Take(s, Close))
  {
    var t := Take(s, Close);
    forall v | v in t.killed ensures DoomedAt(t.place, t.claims, v) {
      assert DoomedAt(s.place, s.claims, v);
    }
  }

  lemma ReleaseDoomed(s: System, w: nat, healthy: bool)
    requires Placed(HoldersOf(s)) && Doomed(s)
    ensures Doomed(Take(s, ReleaseClaim(w, healthy)))
  {
    if w in s.claims && s.claims[w].ToRelease? {
      assert At(HoldersOf(s), w, InClaim);
      NotDoomed(s, w);
      hide Placed, Doomed;
      var t := Take(s, ReleaseClaim(w, healthy));
      MoveDoomed(s, t, w, t.place[w]);
    }
  }

  lemma NewDoomed(s: System, t: System, w: nat, at: Place)
    requires Doomed(s) && w !in s.place && t.killed == s.killed && t.claims == s.claims && t.place == s.place[w := at]
    ensures Doomed(t)
  {
    NotDoomed(s, w);
    MoveDoomed(s, t, w, at);
  }

  lemma SpawnDoomed(s: System, c: nat, w: Option<nat>)
    requires Doomed(s)
    ensures Doomed(Take(s, Spawned(c, w)))
  {
    hide Doomed, RetireLocked;
    var t := Take(s, Spawned(c, w));
    if c !in s.spawning || w.None? || w.value in s.place {
      SameDoomed(s, t);
    } else {
      NewDoomed(s, t, w.value, if s.p.closed then InQueue else InLease(c));
    }
  }

  lemma BindDoomed(s: System, r: nat, c: nat, w: nat)
    requires Doomed(s)
    ensures Doomed(Take(s, Bind(r, c, w)))
  {
    hide Doomed;
    if r in s.held && c !in s.leases && c !in s.spawning && w !in s.place {
      NewDoomed(s, Take(s, Bind(r, c, w)), w, if s.p.closed then InTransit else InLease(c));
    }
  }

  lemma TakeDoomed(s: System, e: Step)
    requires Placed(HoldersOf(s)) && Doomed(s)
    ensures Doomed(Take(s, e))
  {
    hide Placed, Doomed, RetireLocked, RetireAll, Requeue, DoAcquire;
    match e
    case Acquire(c, alive) =>
      AcquireDoomed(s, c, alive);
    case Spawned(c, w) => SpawnDoomed(s, c, w);
    case Finish(_, _) => LeaseDoomed(s, e);
    case Handoff(_) => LeaseDoomed(s, e);
    case Terminate(_, _) => LeaseDoomed(s, e);
    case ReleaseClaim(w, healthy) => ReleaseDoomed(s, w, healthy);
    case HandoffClaim(w, r) =>
      if w in s.claims && s.claims[w].ToHandoff? && r !in s.held && r !in s.binding {
        MoveDoomed(s, Take(s, e), w, InQueue);
      }
    case RetireClaim(w) =>
      if w in s.claims && s.claims[w].ToRetire? {
        MoveDoomed(s, Take(s, e), w, InQueue);
      }
    case ReaperTake =>
      if s.p.queue != [] {
        MoveDoomed(s, Take(s, e), s.p.queue[0], InReaper);
      }
    case ReaperDone(w) =>
      if w in s.reaping {
        MoveDoomed(s, Take(s, e), w, Gone);
      }
    case Close => CloseDoomed(s);
    case Bind(r, c, w) => BindDoomed(s, r, c, w);
    case BindRetire(w) =>
      if w in s.transit {
        MoveDoomed(s, Take(s, e), w, InQueue);
      }
    case _ =>
      SameDoomed(s, Take(s, e));
  }

  /** In every run, a worker killed through a lease is never idle and never leased again. */
  lemma KilledNeverReused(cfg: Config, min: nat, steps: seq<Step>)
    requires min <= cfg.max
    ensures var s := Run(Init(cfg, min), steps); forall w | w in s.killed :: !InUse(s, w)
  {
    InitInv(cfg, min);
    hide Inv, Run, InUse;
    KilledForGood(Init(cfg, min), steps);
  }

  lemma {:induction false} KilledForGood(s: System, steps: seq<Step>)
    requires Inv(s) && Doomed(s)
    ensures Doomed(Run(s, steps))
    ensures forall w | w in Run(s, steps).killed :: !InUse(Run(s, steps), w)
    decreases |steps|
  {
    if steps == [] {
      var h := HoldersOf(s);
      forall w | w in s.killed ensures !InUse(s, w) {
        assert DoomedAt(s.place, s.claims, w);
      }
    } else {
      TakeKeeps(s, steps[0]);
      TakeDoomed(s, steps[0]);
      hide *;
      KilledForGood(Take(s, steps[0]), steps[1..]);
      RunStep(s, steps);
    }
  }

  lemma RunStep(s: System, steps: seq<Step>)
    requires steps != []
    ensures Run(s, steps) == Run(Take(s, steps[0]), steps[1..])
  {
  }

  // ----- stopping the reapers -----

  /** No send meets a closed reaper channel unless Shutdown saw the pool empty while a Bind was under way. */
  lemma NoSendAfterStop(cfg: Config, min: nat, steps: seq<Step>)
    requires min <= cfg.max
    ensures var s := Run(Init(cfg, min), steps);
      && (!s.hasty ==> !s.p.panicked)
      && (!cfg.singleUse && s.handoffs == 0 ==> !s.hasty)
  {
    InitInv(cfg, min);
    hide Take;
    RunKeeps(Init(cfg, min), steps);
    if !cfg.singleUse {
      Unreserved(Init(cfg, min), steps);
    }
  }

  /** A pool that is not single-use and never hands off has no reservations. */
  lemma {:induction false} Unreserved(s: System, steps: seq<Step>)
    requires !s.cfg.singleUse
    requires s.handoffs == 0 ==> s.held == {} && s.binding == {} && s.transit == {} && !s.hasty
    ensures var t := Run(s, steps); t.handoffs == 0 ==> t.held == {} && t.binding == {} && t.transit == {} && !t.hasty
    decreases |steps|
  {
    hide Take;
    if steps != [] {
      UnreservedStep(s, steps[0]);
      StepConfig(s, steps[0]);
      Unreserved(Take(s, steps[0]), steps[1..]);
    }
  }

  lemma UnreservedStep(s: System, e: Step)
    requires !s.cfg.singleUse
    requires s.handoffs == 0 ==> s.held == {} && s.binding == {} && s.transit == {} && !s.hasty
    ensures var t := Take(s, e); t.handoffs == 0 ==> t.held == {} && t.binding == {} && t.transit == {} && !t.hasty
  {
    hide RetireLocked, RetireAll, Requeue, DoAcquire, ReleaseSection, SpawnSection;
    if e.Acquire? || e.Spawned? || e.Finish? || e.Handoff? || e.Terminate? || e.ReleaseClaim? {
      hide Take;
      OtherSteps(s, e);
    }
  }

  lemma OtherSteps(s: System, e: Step)
    requires e.Acquire? || e.Spawned? || e.Finish? || e.Handoff? || e.Terminate? || e.ReleaseClaim?
    ensures var t := Take(s, e);
      t.held == s.held && t.binding == s.binding && t.transit == s.transit && t.hasty == s.hasty && t.handoffs == s.handoffs
  {
    hide RetireLocked, DoAcquire, ReleaseSection, SpawnSection;
    if e.Acquire? {
      AcquireUnreserved(s, e.c, e.alive);
    }
  }

  lemma {:induction false} AcquireUnreserved(s: System, c: nat, alive: set<nat>)
    ensures var t := DoAcquire(s, c, alive);
      t.held == s.held && t.binding == s.binding && t.transit == s.transit && t.hasty == s.hasty && t.handoffs == s.handoffs
    decreases |s.p.idle|
  {
    hide PopDead;
    if !s.p.closed && !s.cfg.singleUse && s.p.idle != [] {
      PopDeadPool(s);
      if s.p.idle[|s.p.idle| - 1].w !in alive {
        AcquireUnreserved(PopDead(s), c, alive);
      }
    }
  }

  /**
    When Shutdown sees the pool empty. Bind gives its reservation up in one
    section and retires its worker in a second, and a failed Bind reserves
    again even in a closed pool. If either is under way, some continuation
    sends on the closed reaper channel; if neither is, none does.
  */
  lemma StopIsSafeExactly(s: System)
    requires Inv(s) && s.p.closed && Live(s.p) == 0 && !s.hasty
    ensures (exists steps :: Run(Take(s, ObserveDrained), steps).p.panicked) <==> s.binding != {} || s.transit != {}
  {
    hide Inv, Take, Run;
    var t := Take(s, ObserveDrained);
    TakeKeeps(s, ObserveDrained);
    ObservedFacts(s);
    if w :| w in s.transit {
      RetireAfterStop(t, w);
    } else if r :| r in s.binding {
      RebindAfterStop(t, r);
    } else {
      forall steps ensures !Run(t, steps).p.panicked {
        CleanStop(t, steps);
      }
    }
  }

  lemma ObservedFacts(s: System)
    requires s.p.closed && Live(s.p) == 0
    ensures var t := Take(s, ObserveDrained);
      && t == s.(drained := true, hasty := s.hasty || s.binding != {} || s.transit != {})
  {
  }

  /** An observation that was not hasty cannot become so. */
  lemma {:induction false} CleanStop(s: System, steps: seq<Step>)
    requires Inv(s) && s.drained && !s.hasty
    ensures !Run(s, steps).p.panicked
    decreases |steps|
  {
    if steps != [] {
      hide Inv, Take;
      TakeKeeps(s, steps[0]);
      CleanStep(s, steps[0]);
      CleanStop(Take(s, steps[0]), steps[1..]);
    }
  }

  lemma CleanStep(s: System, e: Step)
    requires Inv(s) && s.drained && !s.hasty
    ensures Take(s, e).drained && !Take(s, e).hasty
  {
    hide RetireLocked, RetireAll, Requeue, DoAcquire, ReleaseSection, SpawnSection, Placed, Counted;
    if e.Acquire? || e.Spawned? || e.Finish? || e.Handoff? || e.Terminate? || e.ReleaseClaim? {
      OtherSteps(s, e);
      OtherDrained(s, e);
    }
  }

  lemma OtherDrained(s: System, e: Step)
    requires e.Acquire? || e.Spawned? || e.Finish? || e.Handoff? || e.Terminate? || e.ReleaseClaim?
    ensures Take(s, e).drained == s.drained
  {
    hide RetireLocked, DoAcquire, ReleaseSection, SpawnSection;
    if e.Acquire? {
      AcquireDrained(s, e.c, e.alive);
    }
  }

  lemma {:induction false} AcquireDrained(s: System, c: nat, alive: set<nat>)
    ensures DoAcquire(s, c, alive).drained == s.drained
    decreases |s.p.idle|
  {
    if !s.p.closed && !s.cfg.singleUse && s.p.idle != [] && s.p.idle[|s.p.idle| - 1].w !in alive {
      AcquireDrained(PopDead(s), c, alive);
    }
  }

  lemma RetireAfterStop(s: System, w: nat)
    requires s.drained && w in s.transit
    ensures exists steps :: Run(s, steps).p.panicked
  {
    var steps := [StopReapers, BindRetire(w)];
    RunTwo(s, StopReapers, BindRetire(w));
    hide Run;
    assert Take(s, StopReapers).p.reaped;
    assert Run(s, steps).p.panicked;
  }

  lemma RebindAfterStop(s: System, r: nat)
    requires Inv(s) && s.drained && r in s.binding
    ensures exists steps :: Run(s, steps).p.panicked
  {
    hide *;
    ReboundFacts(s, r);
    var c := Unused(s.leases.Keys + s.spawning);
    var w := Unused(s.place.Keys);
    var steps := [StopReapers, BindFailed(r), Bind(r, c, w)];
    RunThree(s, StopReapers, BindFailed(r), Bind(r, c, w));
    StopFacts(s);
    FailFacts(Take(s, StopReapers), r);
    BindClosedFacts(Take(Take(s, StopReapers), BindFailed(r)), r, c, w);
    RunMore(s, steps, BindRetire(w));
    RetireFacts(Run(s, steps), w);
    assert Run(s, steps + [BindRetire(w)]).p.panicked;
  }

  lemma ReboundFacts(s: System, r: nat)
    requires Inv(s) && s.drained && r in s.binding
    ensures s.p.closed && r !in s.held
  {
  }

  lemma StopFacts(s: System)
    requires s.drained
    ensures Take(s, StopReapers) == s.(p := s.p.(reaped := true))
  {
  }

  lemma FailFacts(s: System, r: nat)
    requires r in s.binding
    ensures var t := Take(s, BindFailed(r));
      && r in t.held && t.p == s.p.(starting := s.p.starting + 1)
      && t.leases == s.leases && t.spawning == s.spawning && t.place == s.place
  {
  }

  lemma BindClosedFacts(s: System, r: nat, c: nat, w: nat)
    requires s.p.closed && s.p.reaped && r in s.held && c !in s.leases && c !in s.spawning && w !in s.place
    ensures var t := Take(s, Bind(r, c, w)); w in t.transit && t.p.reaped
  {
  }

  lemma RetireFacts(s: System, w: nat)
    requires w in s.transit && s.p.reaped
    ensures Take(s, BindRetire(w)).p.panicked
  {
  }

  lemma Unused(used: set<nat>) returns (n: nat)
    ensures n !in used
  {
    n := 0;
    var rest, below := used, {};
    while rest != {}
      invariant rest + below == used && forall k | k in below :: k < n
    {
      var k :| k in rest;
      rest, below := rest - {k}, below + {k};
      n := if k >= n then k + 1 else n;
    }
  }

  lemma RunTwo(s: System, a: Step, b: Step)
    ensures Run(s, [a, b]) == Take(Take(s, a), b)
  {
    hide Take;
    RunStep(s, [a, b]);
    assert [a, b][1..] == [b];
    RunStep(Take(s, a), [b]);
    assert Run(Take(Take(s, a), b), []) == Take(Take(s, a), b);
  }

  lemma {:induction false} RunMore(s: System, steps: seq<Step>, e: Step)
    ensures Run(s, steps + [e]) == Take(Run(s, steps), e)
    decreases |steps|
  {
    hide Take;
    if steps == [] {
      RunStep(s, [e]);
      assert steps + [e] == [e] && Run(Take(s, e), []) == Take(s, e);
    } else {
      RunMore(Take(s, steps[0]), steps[1..], e);
      RunStep(s, steps + [e]);
      assert (steps + [e])[1..] == steps[1..] + [e];
    }
  }

  /** Such a state is reached by one reservation bound across Close. */
  lemma HastyShutdown()
    ensures var s := Run(Init(Config(1, true, 0), 0), [Reserve(0), Close, Bind(0, 0, 0)]);
      0 in s.transit && s.p.closed && Live(s.p) == 0
  {
    hide *;
    var s1 := ReservedOne();
    CloseOne(s1);
    BindClosedOne(Take(s1, Close));
    RunThree(Init(Config(1, true, 0), 0), Reserve(0), Close, Bind(0, 0, 0));
  }

  lemma ReservedOne() returns (s: System)
    ensures s == Take(Init(Config(1, true, 0), 0), Reserve(0))
    ensures s.p == Shared([], 1, 0, 0, false, [], false, false, false) && Live(s.p) == 1
    ensures s.held == {0} && s.leases == map[] && s.spawning == {} && s.place == map[]
  {
    hide DoAcquire, DoSpawned, DoRelease, DoHandoff;
    var s0 := Init(Config(1, true, 0), 0);
    s := Take(s0, Reserve(0));
    assert s == s0.(p := s0.p.(starting := 1), held := {0});
  }

  lemma BindClosedOne(s: System)
    requires s.p.closed && 0 in s.held && 0 !in s.leases && 0 !in s.spawning && 0 !in s.place
    ensures var t := Take(s, Bind(0, 0, 0)); 0 in t.transit && t.p.closed && Live(t.p) == Live(s.p) - 1
  {
  }

  /** The other kind is reached when the pool closes around a bound worker that is then terminated and reaped. */
  lemma HastyRebind()
    ensures var s := Run(Init(Config(1, true, 0), 0),
                         [Reserve(0), Bind(0, 0, 0), Close, Terminate(0, true), RetireClaim(0), ReaperTake, ReaperDone(0)]);
      0 in s.binding && s.p.closed && Live(s.p) == 0
  {
    hide *;
    var s0 := Init(Config(1, true, 0), 0);
    var s2 := BoundOne();
    RunThree(s0, Reserve(0), Bind(0, 0, 0), Close);
    var s3 := Take(s2, Close);
    CloseOne(s2);
    TerminateOne(s3);
    var s4 := Take(s3, Terminate(0, true));
    RetireOne(s4);
    var s5 := Take(s4, RetireClaim(0));
    ReapOne(s5);
    RunFourMore(s0, [Reserve(0), Bind(0, 0, 0), Close], Terminate(0, true), RetireClaim(0), ReaperTake, ReaperDone(0));
    assert [Reserve(0), Bind(0, 0, 0), Close] + [Terminate(0, true), RetireClaim(0), ReaperTake, ReaperDone(0)]
        == [Reserve(0), Bind(0, 0, 0), Close, Terminate(0, true), RetireClaim(0), ReaperTake, ReaperDone(0)];
  }

  lemma BoundOne() returns (s: System)
    ensures s == Take(Take(Init(Config(1, true, 0), 0), Reserve(0)), Bind(0, 0, 0))
    ensures s.p == Shared([], 0, 1, 0, false, [], false, false, false) && s.binding == {0} && s.claims == map[]
    ensures s.leases == map[0 := Lease(Some(Slot(0, 0)), 0)] && Live(s.p) == 1
  {
    hide DoAcquire, DoSpawned, DoRelease, DoHandoff;
    var s1 := ReservedOne();
    s := Take(s1, Bind(0, 0, 0));
  }

  lemma CloseOne(s: System)
    requires s.p.idle == [] && !s.p.closed
    ensures var t := Take(s, Close);
      && t.p == s.p.(closed := true) && Live(t.p) == Live(s.p)
      && t.binding == s.binding && t.claims == s.claims && t.leases == s.leases
      && t.held == s.held && t.spawning == s.spawning && t.place == s.place
  {
    assert RetireAll(s.cfg, s.p.(closed := true, idle := []), []) == s.p.(closed := true, idle := []);
    assert Workers([]) == {};
  }

  lemma TerminateOne(s: System)
    requires 0 in s.leases && s.leases[0].slot.Some? && s.leases[0].w == 0
    ensures var t := Take(s, Terminate(0, true));
      t.p == s.p && t.binding == s.binding && 0 in t.claims && t.claims[0] == ToRetire && t.cfg == s.cfg
  {
  }

  lemma RetireOne(s: System)
    requires 0 in s.claims && s.claims[0] == ToRetire && s.p.active == 1
    ensures var t := Take(s, RetireClaim(0));
      Live(t.p) == Live(s.p) && t.p.queue == s.p.queue + [0] && t.p.closed == s.p.closed && t.binding == s.binding
  {
  }

  lemma ReapOne(s: System)
    requires s.p.queue == [0]
    ensures var t := Take(Take(s, ReaperTake), ReaperDone(0)); Live(t.p) == Live(s.p) - 1 && t.p.closed == s.p.closed && t.binding == s.binding
  {
    var u := Take(s, ReaperTake);
    assert 0 in u.reaping && u.p == s.p.(queue := []) && u.binding == s.binding;
  }

  lemma RunFourMore(s: System, steps: seq<Step>, a: Step, b: Step, c: Step, d: Step)
    ensures Run(s, steps + [a, b, c, d]) == Take(Take(Take(Take(Run(s, steps), a), b), c), d)
  {
    hide Take, Run;
    RunMore(s, steps, a);
    RunMore(s, steps + [a], b);
    RunMore(s, steps + [a] + [b], c);
    RunMore(s, steps + [a] + [b] + [c], d);
    assert steps + [a] + [b] + [c] + [d] == steps + [a, b, c, d];
  }

  lemma RunThree(s: System, a: Step, b: Step, c: Step)
    ensures Run(s, [a, b, c]) == Take(Take(Take(s, a), b), c)
  {
    hide Take;
    RunStep(s, [a, b, c]);
    assert [a, b, c][1..] == [b, c];
    RunStep(Take(s, a), [b, c]);
    assert [b, c][1..] == [c];
    RunStep(Take(Take(s, a), b), [c]);
    assert Run(Take(Take(Take(s, a), b), c), []) == Take(Take(Take(s, a), b), c);
  }
}
