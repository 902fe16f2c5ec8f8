/** Call leases and cancellation signals, and how they interleave with the durable job. */
module Cancellation {
  import opened Wrappers
  import opened JobProtocol

  /** A call lease; `canceled` is its context's end, `released` its one-shot release. */
  datatype Lease = Lease(jobId: string, owner: string, observed: nat, canceled: bool, released: bool)

  datatype Signals = Signals(canceledGeneration: nat, active: set<nat>)

  /** Leases are known by the number of their allocation. */
  datatype Registry = Registry(jobs: map<string, Signals>, leases: map<nat, Lease>, next: nat) {
    function SignalsOf(id: string): Signals {
      if id in jobs then jobs[id] else Signals(0, {})
    }
  }

  predicate MayCall(s: JobState) {
    s.Valid() && s.status == Running && s.cancelGeneration == 0 && !s.cancelRequested
  }

  // ---------- The registry's operations as functions ----------

  function Registered(r: Registry, id: string, state: JobState): (Registry, Option<nat>) {
    if !MayCall(state) then (r, None)
    else
      var signals := r.SignalsOf(id);
      if signals.canceledGeneration > state.cancelGeneration then (r.(jobs := r.jobs[id := signals]), None)
      else
        (Registry(r.jobs[id := signals.(active := signals.active + {r.next})],
                  r.leases[r.next := Lease(id, state.owner, state.cancelGeneration, false, false)],
                  r.next + 1),
         Some(r.next))
  }

  function Signaled(r: Registry, id: string, generation: nat): Registry {
    if generation < 1 then r
    else
      var signals := r.SignalsOf(id);
      var reached := if generation > signals.canceledGeneration then generation else signals.canceledGeneration;
      Registry(r.jobs[id := signals.(canceledGeneration := reached)],
               map l | l in r.leases :: CancelIf(r.leases[l], l in signals.active && r.leases[l].observed < generation),
               r.next)
  }

  function CancelIf(l: Lease, condition: bool): Lease {
    if condition then l.(canceled := true) else l
  }

  lemma NothingSignaled(r: Registry, id: string, generation: nat)
    requires generation < 1
    ensures Signaled(r, id, generation) == r
  {
  }

  lemma SignaledView(r: Registry, id: string, generation: nat, leases: map<nat, Lease>)
    requires generation >= 1 && leases.Keys == r.leases.Keys
    requires forall l | l in leases :: leases[l] == CancelIf(r.leases[l], l in r.SignalsOf(id).active && r.leases[l].observed < generation)
    ensures
      var signals := r.SignalsOf(id);
      var reached := if generation > signals.canceledGeneration then generation else signals.canceledGeneration;
      Signaled(r, id, generation) == Registry(r.jobs[id := signals.(canceledGeneration := reached)], leases, r.next)
  {
    hide CancelIf, Registry.SignalsOf;
    assert leases == Signaled(r, id, generation).leases;
  }

  /** The first release takes the lease out and ends its context; later ones do nothing. */
  function Released(r: Registry, lease: nat): Registry {
    if lease !in r.leases || r.leases[lease].released then r
    else
      var id := r.leases[lease].jobId;
      var done := r.leases[lease := r.leases[lease].(released := true, canceled := r.leases[lease].canceled || (id in r.jobs && lease in r.jobs[id].active))];
      if id !in r.jobs then r.(leases := done)
      else
        var signals := r.jobs[id].(active := r.jobs[id].active - {lease});
        r.(leases := done, jobs := if signals.active == {} && signals.canceledGeneration == 0 then r.jobs - {id} else r.jobs[id := signals])
  }

  /** The context of a lease ends by itself. */
  function Ended(r: Registry, lease: nat): Registry
    requires lease in r.leases
  {
    r.(leases := r.leases[lease := r.leases[lease].(canceled := true)])
  }

  // ---------- The registry as it runs ----------

  class InvocationCancellationRegistry {
    var jobs: map<string, Signals>
    var leases: map<nat, Lease>
    var next: nat

    function View(): Registry
      reads this
    {
      Registry(jobs, leases, next)
    }

    constructor ()
      ensures View() == Registry(map[], map[], 0)
    {
      jobs, leases, next := map[], map[], 0;
    }

    method Register(id: string, state: JobState) returns (lease: Option<nat>)
      modifies this
      ensures (View(), lease) == Registered(old(View()), id, state)
    {
      if !state.Valid() || state.status != Running || state.cancelGeneration != 0 || state.cancelRequested { return None; }
      var signals := if id in jobs then jobs[id] else Signals(0, {});
      jobs := jobs[id := signals];
      if signals.canceledGeneration > state.cancelGeneration { return None; }
      leases := leases[next := Lease(id, state.owner, state.cancelGeneration, false, false)];
      jobs := jobs[id := signals.(active := signals.active + {next})];
      assert jobs == old(jobs)[id := jobs[id]];
      lease := Some(next);
      next := next + 1;
    }

    /** The loop over the active leases. */
    method Signal(id: string, generation: nat)
      requires forall id, l | id in jobs && l in jobs[id].active :: l in leases
      modifies this
      ensures View() == Signaled(old(View()), id, generation)
    {
      hide Signaled;
      ghost var was := Registry(jobs, leases, next);
      if generation < 1 {
        NothingSignaled(was, id, generation);
        return;
      }
      var signals := if id in jobs then jobs[id] else Signals(0, {});
      if generation > signals.canceledGeneration {
        signals := signals.(canceledGeneration := generation);
      }
      jobs := jobs[id := signals];
      var rest := signals.active;
      while rest != {}
        invariant rest <= signals.active && leases.Keys == old(leases).Keys
        invariant forall l | l in leases ::
          leases[l] == CancelIf(old(leases)[l], l in signals.active && l !in rest && old(leases)[l].observed < generation)
        invariant jobs == old(jobs)[id := signals] && next == old(next)
      {
        var l :| l in rest;
        if leases[l].observed < generation {
          leases := leases[l := leases[l].(canceled := true)];
        }
        rest := rest - {l};
      }
      SignaledView(was, id, generation, leases);
    }

    method Release(lease: nat)
      modifies this
      ensures View() == Released(old(View()), lease)
    {
      if lease !in leases || leases[lease].released { return; }
      var id := leases[lease].jobId;
      leases := leases[lease := leases[lease].(released := true)];
      if id !in jobs { return; }
      var signals := jobs[id];
      if lease in signals.active {
        leases := leases[lease := leases[lease].(canceled := true)];
        signals := signals.(active := signals.active - {lease});
      }
      if signals.active == {} && signals.canceledGeneration == 0 {
        jobs := jobs - {id};
      } else {
        jobs := jobs[id := signals];
      }
      assert old(jobs)[id].active - {lease} == signals.active;
    }
  }

  // ---------- Interleaved calls of the coordinator ----------

  predicate SameCall(left: JobState, right: JobState) {
    && left.Valid() && right.Valid() && left.status == right.status && left.phase == right.phase && left.owner == right.owner
    && left.cancelGeneration == right.cancelGeneration && !left.cancelRequested && !right.cancelRequested
  }

  /** Where one BeginCalls stands: before its first read, before registering, before confirming, or over. */
  datatype Begin =
    | Started(jobId: string, current: JobState)
    | HasRead(jobId: string, latest: JobState)
    | HasRegistered(jobId: string, latest: JobState, lease: nat)
    | Returned(jobId: string, lease: nat)
    | Failed

  /** The durable jobs, the registry, the BeginCalls under way, and the cancellations committed but not yet signaled. */
  datatype System = System(store: map<string, JobState>, registry: Registry, begins: map<nat, Begin>, pending: multiset<(string, nat)>)

  datatype Step =
    | JobCommits(jobId: string, state: JobState)
    | CancelCommits(jobId: string)
    | CancelSignals(jobId: string, generation: nat)
    | BeginStarts(thread: nat, jobId: string, current: JobState)
    | BeginReads(thread: nat)
    | BeginRegisters(thread: nat)
    | BeginConfirms(thread: nat)
    | LeaseReleased(lease: nat)
    | ContextEnds(lease: nat)

  /** When a step can happen. */
  predicate Enabled(s: System, step: Step) {
    match step
    case JobCommits(id, state) =>
      id in s.store && state.Valid()
      && state.cancelGeneration == s.store[id].cancelGeneration && state.cancelRequested == s.store[id].cancelRequested
    case CancelCommits(id) => id in s.store && Cancel(s.store[id]) != Conflict
    case CancelSignals(id, generation) => (id, generation) in s.pending
    case BeginStarts(t, id, current) => t !in s.begins && id in s.store && MayCall(current)
    case BeginReads(t) => t in s.begins && s.begins[t].Started?
    case BeginRegisters(t) => t in s.begins && s.begins[t].HasRead?
    case BeginConfirms(t) => t in s.begins && s.begins[t].HasRegistered?
    case LeaseReleased(l) => l in s.registry.leases
    case ContextEnds(l) => l in s.registry.leases
  }

  /** One atomic step: a durable commit, a durable read, or one registry operation under its lock. */
  function Next(s: System, step: Step): System
    requires Enabled(s, step)
  {
    match step
    case JobCommits(id, state) => s.(store := s.store[id := state])
    case CancelCommits(id) =>
      var state := Cancel(s.store[id]).state;
      s.(store := s.store[id := state], pending := s.pending + multiset{(id, state.cancelGeneration)})
    case CancelSignals(id, generation) =>
      s.(registry := Signaled(s.registry, id, generation), pending := s.pending - multiset{(id, generation)})
    case BeginStarts(t, id, current) => s.(begins := s.begins[t := Started(id, current)])
    case BeginReads(t) =>
      var b := s.begins[t];
      var ok := b.jobId in s.store && SameCall(s.store[b.jobId], b.current);
      s.(begins := s.begins[t := if ok then HasRead(b.jobId, s.store[b.jobId]) else Begin.Failed])
    case BeginRegisters(t) =>
      var b := s.begins[t];
      var (registry, lease) := Registered(s.registry, b.jobId, b.latest);
      s.(registry := registry,
         begins := s.begins[t := if lease.Some? then HasRegistered(b.jobId, b.latest, lease.value) else Begin.Failed])
    case BeginConfirms(t) =>
      var b := s.begins[t];
      if b.jobId in s.store && SameCall(s.store[b.jobId], b.latest) then s.(begins := s.begins[t := Returned(b.jobId, b.lease)])
      else s.(registry := Released(s.registry, b.lease), begins := s.begins[t := Begin.Failed])
    case LeaseReleased(l) => s.(registry := Released(s.registry, l))
    case ContextEnds(l) => s.(registry := Ended(s.registry, l))
  }

  // ---------- What every step keeps ----------

  /** Leases are filed under their own job while unreleased, and everything older than a signal is canceled. */
  ghost predicate RegistryOk(r: Registry) {
    && (forall l | l in r.leases :: l < r.next)
    && (forall l | l in r.leases && !r.leases[l].released :: r.leases[l].jobId in r.jobs && l in r.jobs[r.leases[l].jobId].active)
    && (forall id, l | id in r.jobs && l in r.jobs[id].active :: l in r.leases && r.leases[l].jobId == id && !r.leases[l].released)
    && (forall l | l in r.leases && !r.leases[l].released && r.leases[l].observed < r.SignalsOf(r.leases[l].jobId).canceledGeneration :: r.leases[l].canceled)
  }

  ghost predicate BeginOk(s: System, b: Begin) {
    match b
    case Started(id, current) => id in s.store && MayCall(current)
    case HasRead(id, latest) => id in s.store && MayCall(latest)
    case HasRegistered(id, latest, lease) =>
      id in s.store && MayCall(latest) && lease in s.registry.leases
      && s.registry.leases[lease].jobId == id && s.registry.leases[lease].observed == 0 && s.registry.leases[lease].owner == latest.owner
    case Returned(id, lease) =>
      id in s.store && lease in s.registry.leases && s.registry.leases[lease].jobId == id && s.registry.leases[lease].observed == 0
    case Failed => true
  }

  ghost predicate SystemOk(s: System) {
    && RegistryOk(s.registry)
    && (forall id | id in s.store :: s.store[id].Valid())
    && (forall t | t in s.begins :: BeginOk(s, s.begins[t]))
    && SignaledIsDurable(s.store, s.registry)
    && PendingOk(s)
  }

  ghost predicate PendingOk(s: System) {
    forall p | p in s.pending :: p.0 in s.store && 1 <= p.1 <= s.store[p.0].cancelGeneration
  }

  /** A filed lease, in its own terms. */
  ghost predicate LeaseOk(r: Registry, l: nat)
    requires l in r.leases
  {
    var lease := r.leases[l];
    && l < r.next
    && (lease.released || (lease.jobId in r.jobs && l in r.jobs[lease.jobId].active))
    && (!lease.released && lease.observed < r.SignalsOf(lease.jobId).canceledGeneration ==> lease.canceled)
  }

  lemma RegistryFromLeases(r: Registry)
    requires forall l | l in r.leases :: LeaseOk(r, l)
    requires forall id, l | id in r.jobs && l in r.jobs[id].active :: l in r.leases && r.leases[l].jobId == id && !r.leases[l].released
    ensures RegistryOk(r)
  {
  }

  lemma RegisterKeeps(r: Registry, id: string, state: JobState)
    requires RegistryOk(r)
    ensures RegistryOk(Registered(r, id, state).0)
  {
    var r' := Registered(r, id, state).0;
    forall l | l in r'.leases ensures LeaseOk(r', l) {
      if l in r.leases { assert LeaseOk(r, l); }
    }
    forall id', l | id' in r'.jobs && l in r'.jobs[id'].active ensures l in r'.leases && r'.leases[l].jobId == id' && !r'.leases[l].released {
      if id' in r.jobs && l in r.jobs[id'].active { assert l in r.leases && l < r.next; }
    }
    RegistryFromLeases(r');
  }

  lemma SignalKeeps(r: Registry, id: string, generation: nat)
    requires RegistryOk(r)
    ensures RegistryOk(Signaled(r, id, generation))
    ensures generation >= 1 ==> Signaled(r, id, generation).SignalsOf(id).canceledGeneration >= generation
  {
  }

  lemma ReleaseKeeps(r: Registry, lease: nat)
    requires RegistryOk(r)
    ensures RegistryOk(Released(r, lease))
    ensures lease in r.leases ==> Released(r, lease).leases[lease].released
  {
    var r' := Released(r, lease);
    forall l | l in r'.leases ensures LeaseOk(r', l) {
      assert LeaseOk(r, l);
      if lease in r.leases && l != lease && !r.leases[l].released && r.leases[l].jobId == r.leases[lease].jobId {
        assert l in r.jobs[r.leases[l].jobId].active - {lease};
      }
    }
    RegistryFromLeases(r');
  }

  /** Leases never change hands, canceled contexts stay canceled, and signaled generations only grow. */
  ghost predicate RegistryGrows(r: Registry, r': Registry) {
    && (forall l | l in r.leases ::
          l in r'.leases && r'.leases[l].jobId == r.leases[l].jobId && r'.leases[l].owner == r.leases[l].owner
          && r'.leases[l].observed == r.leases[l].observed
          && (r.leases[l].canceled ==> r'.leases[l].canceled) && (r.leases[l].released ==> r'.leases[l].released))
    && (forall id :: r.SignalsOf(id).canceledGeneration <= r'.SignalsOf(id).canceledGeneration)
  }

  lemma RegisterGrows(r: Registry, id: string, state: JobState)
    requires RegistryOk(r)
    ensures RegistryGrows(r, Registered(r, id, state).0)
  {
  }

  lemma SignalGrows(r: Registry, id: string, generation: nat)
    ensures RegistryGrows(r, Signaled(r, id, generation))
  {
  }

  lemma ReleaseGrows(r: Registry, lease: nat)
    ensures RegistryGrows(r, Released(r, lease))
  {
  }

  lemma EndedGrows(r: Registry, lease: nat)
    requires lease in r.leases
    ensures RegistryGrows(r, Ended(r, lease))
  {
  }

  lemma EndedKeeps(r: Registry, lease: nat)
    requires RegistryOk(r) && lease in r.leases
    ensures RegistryOk(Ended(r, lease))
  {
  }

  /** One operation on the registry, or none. */
  ghost predicate RegistryMove(r: Registry, r': Registry) {
    || r' == r
    || (exists id, state :: r' == Registered(r, id, state).0)
    || (exists id, generation: nat :: r' == Signaled(r, id, generation))
    || (exists l: nat :: r' == Released(r, l))
    || (exists l: nat :: l in r.leases && r' == Ended(r, l))
  }

  lemma StepMovesRegistry(s: System, step: Step)
    requires Enabled(s, step)
    ensures RegistryMove(s.registry, Next(s, step).registry)
  {
    hide Registered, Signaled, Released, Ended, MayCall, SameCall, Cancel;
  }

  lemma MoveGrows(r: Registry, r': Registry)
    requires RegistryOk(r) && RegistryMove(r, r')
    ensures RegistryGrows(r, r') && RegistryOk(r')
  {
    hide Registered, Signaled, Released, Ended, RegistryGrows, RegistryOk;
    if r' == r {
      GrowsSelf(r);
    } else if id, state :| r' == Registered(r, id, state).0 {
      RegisterGrows(r, id, state);
      RegisterKeeps(r, id, state);
    } else if id, generation: nat :| r' == Signaled(r, id, generation) {
      SignalGrows(r, id, generation);
      SignalKeeps(r, id, generation);
    } else if l: nat :| r' == Released(r, l) {
      ReleaseGrows(r, l);
      ReleaseKeeps(r, l);
    } else {
      var l: nat :| l in r.leases && r' == Ended(r, l);
      EndedGrows(r, l);
      EndedKeeps(r, l);
    }
  }

  lemma StoreGrows(s: System, step: Step)
    requires Enabled(s, step)
    ensures forall id | id in s.store ::
      id in Next(s, step).store && s.store[id].cancelGeneration <= Next(s, step).store[id].cancelGeneration
  {
    hide Registered, Signaled, Released, Ended, MayCall, SameCall;
  }

  lemma StepGrows(s: System, step: Step)
    requires SystemOk(s) && Enabled(s, step)
    ensures RegistryGrows(s.registry, Next(s, step).registry) && RegistryOk(Next(s, step).registry)
    ensures forall id | id in s.store ::
      id in Next(s, step).store && s.store[id].cancelGeneration <= Next(s, step).store[id].cancelGeneration
  {
    hide Next, Enabled, RegistryOk, RegistryGrows, RegistryMove, BeginOk, PendingOk, SignaledIsDurable;
    StepMovesRegistry(s, step);
    MoveGrows(s.registry, Next(s, step).registry);
    StoreGrows(s, step);
  }

  lemma BeginStays(s: System, s': System, b: Begin)
    requires BeginOk(s, b) && RegistryGrows(s.registry, s'.registry) && forall id | id in s.store :: id in s'.store
    ensures BeginOk(s', b)
  {
  }

  lemma CancelKeepsValid(store: JobState)
    requires store.Valid() && Cancel(store) != Conflict
    ensures Cancel(store).state.Valid() && Cancel(store).state.cancelGeneration >= 1
  {
  }

  lemma StoreStaysValid(s: System, step: Step)
    requires Enabled(s, step) && forall id | id in s.store :: s.store[id].Valid()
    ensures forall id | id in Next(s, step).store :: Next(s, step).store[id].Valid()
  {
    hide Registered, Released, Signaled, Ended, SameCall, MayCall, Cancel, JobState.Valid;
    if step.CancelCommits? { CancelKeepsValid(s.store[step.jobId]); }
  }

  /** Every interleaving keeps the system in order. */
  lemma StepKeeps(s: System, step: Step)
    requires SystemOk(s) && Enabled(s, step)
    ensures SystemOk(Next(s, step))
  {
    hide Next, Enabled, RegistryOk, RegistryGrows, BeginOk, SignaledIsDurable, PendingOk, JobState.Valid;
    var s' := Next(s, step);
    StepGrows(s, step);
    StoreStaysValid(s, step);
    forall t | t in s'.begins ensures BeginOk(s', s'.begins[t]) {
      StepKeepsBegin(s, step, t);
    }
    SignalsStayDurable(s, step);
    PendingStays(s, step);
  }

  lemma StepKeepsBegin(s: System, step: Step, t: nat)
    requires SystemOk(s) && Enabled(s, step) && t in Next(s, step).begins
    requires RegistryGrows(s.registry, Next(s, step).registry)
    ensures BeginOk(Next(s, step), Next(s, step).begins[t])
  {
    hide RegistryOk, RegistryGrows, MayCall, SameCall, Registered, Released, Signaled, Cancel, BeginOk;
    var s' := Next(s, step);
    if t in s.begins && s'.begins[t] == s.begins[t] {
      BeginStays(s, s', s.begins[t]);
    } else {
      assert IsBegin(step) && step.thread == t;
      BeginMoves(s, step);
    }
  }

  predicate IsBegin(step: Step) { step.BeginStarts? || step.BeginReads? || step.BeginRegisters? || step.BeginConfirms? }

  /** A call moves on: what it has read still allows calls, what it has registered is its lease. */
  lemma BeginMoves(s: System, step: Step)
    requires SystemOk(s) && Enabled(s, step) && IsBegin(step) && RegistryGrows(s.registry, Next(s, step).registry)
    ensures BeginOk(Next(s, step), Next(s, step).begins[step.thread])
  {
    hide SystemOk, Enabled, Next, BeginOk, RegistryGrows;
    match step
    case BeginStarts(t, id, current) => CallStarts(s, t, id, current);
    case BeginReads(t) => CallReads(s, t);
    case BeginRegisters(t) => CallRegisters(s, t);
    case BeginConfirms(t) => CallConfirms(s, t);
  }

  lemma CallStarts(s: System, t: nat, id: string, current: JobState)
    requires Enabled(s, BeginStarts(t, id, current))
    ensures BeginOk(Next(s, BeginStarts(t, id, current)), Started(id, current))
    ensures Next(s, BeginStarts(t, id, current)).begins[t] == Started(id, current)
  {
  }

  lemma CallReads(s: System, t: nat)
    requires SystemOk(s) && Enabled(s, BeginReads(t))
    ensures var s' := Next(s, BeginReads(t)); BeginOk(s', s'.begins[t])
  {
    hide RegistryOk, SignaledIsDurable, PendingOk;
    assert BeginOk(s, s.begins[t]);
  }

  lemma CallRegisters(s: System, t: nat)
    requires SystemOk(s) && Enabled(s, BeginRegisters(t))
    ensures var s' := Next(s, BeginRegisters(t)); BeginOk(s', s'.begins[t])
  {
    hide RegistryOk, SignaledIsDurable, PendingOk, SameCall;
    assert BeginOk(s, s.begins[t]);
  }

  lemma CallConfirms(s: System, t: nat)
    requires SystemOk(s) && Enabled(s, BeginConfirms(t))
    ensures var s' := Next(s, BeginConfirms(t)); BeginOk(s', s'.begins[t])
  {
    hide RegistryOk, SignaledIsDurable, PendingOk, SameCall, MayCall, Released;
    assert BeginOk(s, s.begins[t]);
  }

  /** The generation signaled for a job, if any, has been committed before. */
  ghost predicate SignaledIsDurable(store: map<string, JobState>, r: Registry) {
    forall id | id in r.jobs && r.jobs[id].canceledGeneration > 0 ::
      id in store && r.jobs[id].canceledGeneration <= store[id].cancelGeneration
  }

  lemma RegisterIsDurable(store: map<string, JobState>, r: Registry, id: string, state: JobState)
    requires SignaledIsDurable(store, r)
    ensures SignaledIsDurable(store, Registered(r, id, state).0)
  {
  }

  lemma ReleaseIsDurable(store: map<string, JobState>, r: Registry, lease: nat)
    requires SignaledIsDurable(store, r)
    ensures SignaledIsDurable(store, Released(r, lease))
  {
  }

  lemma SignalIsDurable(store: map<string, JobState>, r: Registry, id: string, generation: nat)
    requires SignaledIsDurable(store, r) && id in store && generation <= store[id].cancelGeneration
    ensures SignaledIsDurable(store, Signaled(r, id, generation))
  {
  }

  lemma StoreStaysDurable(store: map<string, JobState>, store': map<string, JobState>, r: Registry)
    requires SignaledIsDurable(store, r)
    requires forall id | id in store :: id in store' && store[id].cancelGeneration <= store'[id].cancelGeneration
    ensures SignaledIsDurable(store', r)
  {
  }

  lemma SignalsStayDurable(s: System, step: Step)
    requires SystemOk(s) && Enabled(s, step)
    ensures SignaledIsDurable(Next(s, step).store, Next(s, step).registry)
  {
    hide Registered, Released, Signaled, Ended, RegistryOk, BeginOk, SameCall, MayCall, Cancel, SignaledIsDurable;
    StoreGrows(s, step);
    StoreStaysDurable(s.store, Next(s, step).store, s.registry);
    match step
    case CancelSignals(id, generation) => SignalIsDurable(s.store, s.registry, id, generation);
    case BeginRegisters(t) => RegisterIsDurable(s.store, s.registry, s.begins[t].jobId, s.begins[t].latest);
    case BeginConfirms(t) => ReleaseIsDurable(s.store, s.registry, s.begins[t].lease);
    case LeaseReleased(l) => ReleaseIsDurable(s.store, s.registry, l);
    case ContextEnds(l) => EndedIsDurable(s.store, s.registry, l);
    case _ =>
  }

  lemma EndedIsDurable(store: map<string, JobState>, r: Registry, lease: nat)
    requires SignaledIsDurable(store, r) && lease in r.leases
    ensures SignaledIsDurable(store, Ended(r, lease))
  {
  }

  lemma PendingStays(s: System, step: Step)
    requires SystemOk(s) && Enabled(s, step)
    ensures PendingOk(Next(s, step))
  {
    hide Next, Enabled, RegistryOk, BeginOk, SignaledIsDurable;
    StoreGrows(s, step);
    forall p | p in Next(s, step).pending && p !in s.pending
      ensures p.0 in Next(s, step).store && 1 <= p.1 <= Next(s, step).store[p.0].cancelGeneration
    {
      NewlyPending(s, step, p);
    }
  }

  lemma NewlyPending(s: System, step: Step, p: (string, nat))
    requires Enabled(s, step) && p in Next(s, step).pending && p !in s.pending && forall id | id in s.store :: s.store[id].Valid()
    ensures p.0 in Next(s, step).store && 1 <= p.1 <= Next(s, step).store[p.0].cancelGeneration
  {
    hide Registered, Released, Signaled, Ended, SameCall, MayCall, Cancel;
    assert step.CancelCommits?;
    CancelKeepsValid(s.store[step.jobId]);
  }

  // ---------- Runs ----------

  /** An empty registry over jobs as admitted or stored, no calls under way. */
  ghost predicate Initial(s: System) {
    && s.registry == Registry(map[], map[], 0) && s.begins == map[] && s.pending == multiset{}
    && forall id | id in s.store :: s.store[id].Valid()
  }

  ghost predicate SystemRun(h: seq<System>, steps: seq<Step>) {
    && |h| == |steps| + 1 && Initial(h[0])
    && forall i | 0 <= i < |steps| :: Enabled(h[i], steps[i]) && h[i + 1] == Next(h[i], steps[i])
  }

  lemma {:induction false} RunOk(h: seq<System>, steps: seq<Step>, i: nat)
    requires SystemRun(h, steps) && i < |h|
    ensures SystemOk(h[i])
  {
    hide SystemOk, Next, Enabled;
    if i == 0 {
      InitialOk(h[0]);
    } else {
      RunOk(h, steps, i - 1);
      StepKeeps(h[i - 1], steps[i - 1]);
    }
  }

  lemma InitialOk(s: System)
    requires Initial(s)
    ensures SystemOk(s)
  {
  }

  lemma {:induction false} RunRegistryGrows(h: seq<System>, steps: seq<Step>, i: nat, j: nat)
    requires SystemRun(h, steps) && i <= j < |h|
    ensures RegistryGrows(h[i].registry, h[j].registry)
    ensures forall id | id in h[i].store :: id in h[j].store && h[i].store[id].cancelGeneration <= h[j].store[id].cancelGeneration
    decreases j - i
  {
    hide SystemOk, Next, Enabled, RegistryGrows;
    if i == j {
      GrowsSelf(h[i].registry);
    } else {
      RunOk(h, steps, i);
      StepGrows(h[i], steps[i]);
      RunRegistryGrows(h, steps, i + 1, j);
      GrowsTransitive(h[i].registry, h[i + 1].registry, h[j].registry);
    }
  }

  lemma GrowsSelf(r: Registry)
    ensures RegistryGrows(r, r)
  {
  }

  lemma GrowsTransitive(a: Registry, b: Registry, c: Registry)
    requires RegistryGrows(a, b) && RegistryGrows(b, c)
    ensures RegistryGrows(a, c)
  {
    forall id ensures a.SignalsOf(id).canceledGeneration <= c.SignalsOf(id).canceledGeneration {
      assert b.SignalsOf(id).canceledGeneration <= c.SignalsOf(id).canceledGeneration;
    }
  }

  /** Once a generation has been signaled, every unreleased older lease of that job has ended, at every later moment. */
  lemma SignaledLeasesEnd(h: seq<System>, steps: seq<Step>, i: nat, j: nat, id: string, generation: nat, l: nat)
    requires SystemRun(h, steps) && i < j < |h| && steps[i] == CancelSignals(id, generation)
    requires l in h[j].registry.leases && h[j].registry.leases[l].jobId == id && h[j].registry.leases[l].observed < generation
    ensures h[j].registry.leases[l].released || h[j].registry.leases[l].canceled
  {
    hide Enabled;
    RunOk(h, steps, i);
    assert Enabled(h[i], steps[i]) && h[i + 1] == Next(h[i], steps[i]);
    SignalKeeps(h[i].registry, id, generation);
    SignalReaches(h[i], id, generation);
    RunRegistryGrows(h, steps, i + 1, j);
    RunOk(h, steps, j);
  }

  lemma SignalReaches(s: System, id: string, generation: nat)
    requires SystemOk(s) && Enabled(s, CancelSignals(id, generation))
    ensures generation >= 1 && Next(s, CancelSignals(id, generation)).registry.SignalsOf(id).canceledGeneration >= generation
  {
  }

  /** Nor does any later registration with an older generation succeed. */
  lemma LateRegistrationFails(h: seq<System>, steps: seq<Step>, i: nat, j: nat, id: string, generation: nat, state: JobState)
    requires SystemRun(h, steps) && i < j < |h| && steps[i] == CancelSignals(id, generation) && state.cancelGeneration < generation
    ensures Registered(h[j].registry, id, state).1 == None
  {
    hide Enabled, SystemOk, Next;
    RunOk(h, steps, i);
    assert Enabled(h[i], steps[i]) && h[i + 1] == Next(h[i], steps[i]);
    SignalReaches(h[i], id, generation);
    RunRegistryGrows(h, steps, i + 1, j);
  }

  predicate HasReturned(s: System, t: nat, id: string) {
    t in s.begins && s.begins[t].Returned? && s.begins[t].jobId == id
  }

  /** One step after the commit: a call that has not returned yet does not return now. */
  lemma NoReturnStep(s: System, step: Step, t: nat, id: string)
    requires SystemOk(s) && Enabled(s, step) && id in s.store && s.store[id].cancelGeneration > 0
    requires !HasReturned(s, t, id)
    ensures !HasReturned(Next(s, step), t, id)
  {
    hide RegistryOk, BeginOk, Registered, Released, Signaled, SignaledIsDurable, PendingOk;
  }

  /** After a cancellation is durable no BeginCalls returns a lease any more, whether it starts later or was under way. */
  lemma {:induction false} NoLeaseAfterCommit(h: seq<System>, steps: seq<Step>, i: nat, j: nat, t: nat, id: string)
    requires SystemRun(h, steps) && i <= j < |h| && id in h[i].store && h[i].store[id].cancelGeneration > 0
    requires !HasReturned(h[i], t, id)
    ensures !HasReturned(h[j], t, id)
    decreases j - i
  {
    hide SystemOk, Next, Enabled, HasReturned;
    if i < j {
      RunOk(h, steps, i);
      NoReturnStep(h[i], steps[i], t, id);
      RunRegistryGrows(h, steps, i, i + 1);
      NoLeaseAfterCommit(h, steps, i + 1, j, t, id);
    }
  }

  /** After Cancel has finished, every lease any BeginCalls of that job ever returned is released or ended. */
  lemma ReturnedLeasesEnd(h: seq<System>, steps: seq<Step>, i: nat, j: nat, t: nat, id: string, generation: nat)
    requires SystemRun(h, steps) && i < j < |h| && steps[i] == CancelSignals(id, generation) && HasReturned(h[j], t, id)
    ensures
      var l := h[j].begins[t].lease;
      l in h[j].registry.leases && (h[j].registry.leases[l].released || h[j].registry.leases[l].canceled)
  {
    RunOk(h, steps, i);
    RunOk(h, steps, j);
    assert BeginOk(h[j], h[j].begins[t]);
    assert Enabled(h[i], steps[i]);
    SignalReaches(h[i], id, generation);
    SignaledLeasesEnd(h, steps, i, j, id, generation, h[j].begins[t].lease);
  }

  // ---------- When a call goes on ----------

  /** The stored job is running where and under whom it was seen, and never cancelled. */
  predicate StillRuns(s: System, id: string, seen: JobState) {
    && id in s.store && s.store[id].status == Running && s.store[id].phase == seen.phase && s.store[id].owner == seen.owner
    && s.store[id].cancelGeneration == 0
  }

  lemma StepSignals(s: System, step: Step, id: string)
    requires SystemOk(s) && Enabled(s, step)
    ensures Next(s, step).registry.SignalsOf(id).canceledGeneration > 0 <==>
      s.registry.SignalsOf(id).canceledGeneration > 0 || (step.CancelSignals? && step.jobId == id)
  {
    hide RegistryOk, BeginOk, SignaledIsDurable, SameCall, JobState.Valid, Cancel, Registered, Signaled, Released, Registry.SignalsOf;
    match step
    case CancelSignals(job, generation) => SignalSets(s.registry, job, generation, id);
    case BeginRegisters(t) => RegisterKeepsSignal(s.registry, s.begins[t].jobId, s.begins[t].latest, id);
    case BeginConfirms(t) => ReleaseKeepsSignal(s.registry, s.begins[t].lease, id);
    case LeaseReleased(l) => ReleaseKeepsSignal(s.registry, l, id);
    case ContextEnds(l) => EndKeepsSignal(s.registry, l, id);
    case _ =>
  }

  lemma SignalSets(r: Registry, job: string, generation: nat, id: string)
    requires generation >= 1
    ensures Signaled(r, job, generation).SignalsOf(id).canceledGeneration > 0 <==> r.SignalsOf(id).canceledGeneration > 0 || job == id
  {
  }

  lemma RegisterKeepsSignal(r: Registry, job: string, state: JobState, id: string)
    ensures Registered(r, job, state).0.SignalsOf(id).canceledGeneration == r.SignalsOf(id).canceledGeneration
  {
    hide MayCall;
  }

  lemma ReleaseKeepsSignal(r: Registry, lease: nat, id: string)
    ensures Released(r, lease).SignalsOf(id).canceledGeneration == r.SignalsOf(id).canceledGeneration
  {
  }

  lemma EndKeepsSignal(r: Registry, lease: nat, id: string)
    requires lease in r.leases
    ensures Ended(r, lease).SignalsOf(id) == r.SignalsOf(id)
  {
  }

  /** A generation of the job has been signaled exactly if a signal for it was sent. */
  lemma {:induction false} SignaledExactly(h: seq<System>, steps: seq<Step>, j: nat, id: string)
    requires SystemRun(h, steps) && j < |h|
    ensures h[j].registry.SignalsOf(id).canceledGeneration > 0 <==> exists i :: 0 <= i < j && steps[i].CancelSignals? && steps[i].jobId == id
  {
    hide SystemOk, Next, Enabled;
    if j > 0 {
      SignaledExactly(h, steps, j - 1, id);
      RunOk(h, steps, j - 1);
      assert Enabled(h[j - 1], steps[j - 1]) && h[j] == Next(h[j - 1], steps[j - 1]);
      StepSignals(h[j - 1], steps[j - 1], id);
    }
  }

  /** Nothing is kept of a job without leases and signals. */
  ghost predicate Lean(r: Registry) {
    forall id | id in r.jobs :: r.jobs[id].active != {} || r.jobs[id].canceledGeneration > 0
  }

  lemma StepKeepsLean(s: System, step: Step)
    requires SystemOk(s) && Enabled(s, step) && Lean(s.registry)
    ensures Lean(Next(s, step).registry)
  {
    hide RegistryOk, BeginOk, SignaledIsDurable, SameCall, JobState.Valid, Cancel, Lean, Registered, Signaled, Released;
    match step
    case CancelSignals(id, generation) => SignalLean(s.registry, id, generation);
    case BeginRegisters(t) => RegisterLean(s.registry, s.begins[t].jobId, s.begins[t].latest);
    case BeginConfirms(t) => ReleaseLean(s.registry, s.begins[t].lease);
    case LeaseReleased(l) => ReleaseLean(s.registry, l);
    case ContextEnds(l) => EndLean(s.registry, l);
    case _ =>
  }

  lemma SignalLean(r: Registry, id: string, generation: nat)
    requires Lean(r)
    ensures Lean(Signaled(r, id, generation))
  {
  }

  lemma RegisterLean(r: Registry, id: string, state: JobState)
    requires Lean(r)
    ensures Lean(Registered(r, id, state).0)
  {
    hide MayCall;
  }

  lemma ReleaseLean(r: Registry, lease: nat)
    requires Lean(r)
    ensures Lean(Released(r, lease))
  {
  }

  lemma EndLean(r: Registry, lease: nat)
    requires Lean(r) && lease in r.leases
    ensures Lean(Ended(r, lease))
  {
  }

  lemma {:induction false} RunLean(h: seq<System>, steps: seq<Step>, j: nat)
    requires SystemRun(h, steps) && j < |h|
    ensures Lean(h[j].registry)
  {
    hide SystemOk, Next, Enabled, Lean;
    if j == 0 {
      StartIsLean(h, steps);
    } else {
      RunLean(h, steps, j - 1);
      RunOk(h, steps, j - 1);
      assert Enabled(h[j - 1], steps[j - 1]) && h[j] == Next(h[j - 1], steps[j - 1]);
      StepKeepsLean(h[j - 1], steps[j - 1]);
    }
  }

  lemma StartIsLean(h: seq<System>, steps: seq<Step>)
    requires SystemRun(h, steps)
    ensures Lean(h[0].registry)
  {
  }

  /** The registry remembers a job exactly while it has an unreleased lease, or once a signal for it was sent. */
  lemma RemembersExactly(h: seq<System>, steps: seq<Step>, j: nat, id: string)
    requires SystemRun(h, steps) && j < |h|
    ensures id in h[j].registry.jobs <==>
      || (exists l :: l in h[j].registry.leases && h[j].registry.leases[l].jobId == id && !h[j].registry.leases[l].released)
      || exists i :: 0 <= i < j && steps[i].CancelSignals? && steps[i].jobId == id
  {
    hide Next, Enabled;
    RunOk(h, steps, j);
    RunLean(h, steps, j);
    SignaledExactly(h, steps, j, id);
    if id in h[j].registry.jobs && h[j].registry.jobs[id].active != {} {
      var l :| l in h[j].registry.jobs[id].active;
      assert l in h[j].registry.leases;
    }
  }

  /** A call gets through its reads exactly while the job still runs as the caller saw it, and registers exactly while no cancellation has been signaled. */
  lemma CallsGoOnExactly(h: seq<System>, steps: seq<Step>, i: nat)
    requires SystemRun(h, steps) && i < |steps| && (steps[i].BeginReads? || steps[i].BeginRegisters? || steps[i].BeginConfirms?)
    ensures steps[i].thread in h[i].begins && steps[i].thread in h[i + 1].begins
    ensures
      var was, now := h[i].begins[steps[i].thread], h[i + 1].begins[steps[i].thread];
      match steps[i]
      case BeginReads(_) =>
        was.Started? && now == if StillRuns(h[i], was.jobId, was.current) then HasRead(was.jobId, h[i].store[was.jobId]) else Begin.Failed
      case BeginRegisters(_) =>
        was.HasRead?
        && now == if exists j :: 0 <= j < i && steps[j].CancelSignals? && steps[j].jobId == was.jobId then Begin.Failed
                  else HasRegistered(was.jobId, was.latest, h[i].registry.next)
      case BeginConfirms(_) =>
        was.HasRegistered? && now == if StillRuns(h[i], was.jobId, was.latest) then Returned(was.jobId, was.lease) else Begin.Failed
      case _ => true
  {
    hide RegistryOk, SignaledIsDurable, PendingOk, Released;
    RunOk(h, steps, i);
    assert Enabled(h[i], steps[i]) && h[i + 1] == Next(h[i], steps[i]);
    assert BeginOk(h[i], h[i].begins[steps[i].thread]);
    if steps[i].BeginRegisters? { SignaledExactly(h, steps, i, h[i].begins[steps[i].thread].jobId); }
  }

  // ---------- The final check before a result is used ----------

  datatype Verdict = Accept | LateResult | InvalidState

  function AcceptResult(store: map<string, JobState>, lease: Lease): Verdict {
    if lease.jobId !in store || !store[lease.jobId].Valid() then InvalidState
    else
      var latest := store[lease.jobId];
      if latest.status == Running && latest.owner == lease.owner && latest.cancelGeneration == lease.observed
         && !latest.cancelRequested && !lease.canceled then Accept
      else if latest.cancelGeneration <= lease.observed || !latest.cancelRequested then InvalidState
      else LateResult
  }

  /** A result is accepted only while no cancellation of its job has ever been committed; after one it is late or invalid. */
  lemma AcceptedBeforeCancellation(h: seq<System>, steps: seq<Step>, i: nat, j: nat, l: nat)
    requires SystemRun(h, steps) && i <= j < |h| && l in h[j].registry.leases
    requires AcceptResult(h[j].store, h[j].registry.leases[l]) == Accept
    ensures
      var lease := h[j].registry.leases[l];
      var latest := h[j].store[lease.jobId];
      latest.status == Running && latest.owner == lease.owner && latest.cancelGeneration == lease.observed == 0
      && (lease.jobId in h[i].store ==> h[i].store[lease.jobId].cancelGeneration == 0)
  {
    RunOk(h, steps, j);
    RunRegistryGrows(h, steps, i, j);
  }

  // ---------- What the verdict says about the run ----------

  /** This step ends the context of lease `l`: by itself, by a release, or by a signal newer than the lease. */
  predicate EndsLease(s: System, step: Step, l: nat) {
    && l in s.registry.leases
    && match step
       case ContextEnds(k) => k == l
       case LeaseReleased(k) => k == l
       case BeginConfirms(t) =>
         t in s.begins && s.begins[t].HasRegistered? && s.begins[t].lease == l
         && !(s.begins[t].jobId in s.store && SameCall(s.store[s.begins[t].jobId], s.begins[t].latest))
       case CancelSignals(id, generation) => s.registry.leases[l].jobId == id && s.registry.leases[l].observed < generation
       case _ => false
  }

  /** Leases are taken before any cancellation, and a released one has ended. */
  ghost predicate LeasesOk(r: Registry) {
    forall l | l in r.leases :: r.leases[l].observed == 0 && (r.leases[l].released ==> r.leases[l].canceled)
  }

  lemma {:induction false} LeasedJobsAreStored(h: seq<System>, steps: seq<Step>, j: nat)
    requires SystemRun(h, steps) && j < |h|
    ensures h[j].store.Keys == h[0].store.Keys
    ensures forall l | l in h[j].registry.leases :: h[j].registry.leases[l].jobId in h[0].store
  {
    hide SystemOk, Next, Enabled;
    if j > 0 {
      LeasedJobsAreStored(h, steps, j - 1);
      RunOk(h, steps, j - 1);
      assert Enabled(h[j - 1], steps[j - 1]) && h[j] == Next(h[j - 1], steps[j - 1]);
      StepLeasesStored(h[j - 1], steps[j - 1]);
    }
  }

  lemma StepLeasesStored(s: System, step: Step)
    requires SystemOk(s) && Enabled(s, step)
    ensures Next(s, step).store.Keys == s.store.Keys
    ensures forall l | l in Next(s, step).registry.leases && (l in s.registry.leases ==> s.registry.leases[l].jobId in s.store) ::
      Next(s, step).registry.leases[l].jobId in s.store
  {
    hide RegistryOk, PendingOk, SignaledIsDurable, BeginOk, Next, Enabled;
    StepKeepsJobs(s, step);
    forall l | l in Next(s, step).registry.leases && l !in s.registry.leases ensures Next(s, step).registry.leases[l].jobId in s.store {
      NewLease(s, step, l);
    }
    StepGrows(s, step);
  }

  lemma StepKeepsJobs(s: System, step: Step)
    requires Enabled(s, step)
    ensures Next(s, step).store.Keys == s.store.Keys
  {
    hide Registered, Signaled, Released, Ended, MayCall, SameCall, Cancel, JobState.Valid;
  }

  lemma NewLease(s: System, step: Step, l: nat)
    requires SystemOk(s) && Enabled(s, step) && l in Next(s, step).registry.leases && l !in s.registry.leases
    ensures Next(s, step).registry.leases[l].jobId in s.store
  {
    hide RegistryOk, PendingOk, SignaledIsDurable, MayCall, SameCall, Cancel, JobState.Valid;
    if step.BeginRegisters? { assert BeginOk(s, s.begins[step.thread]); }
  }

  /** A step ends exactly the leases it is meant to end, and new leases start live and unreleased. */
  lemma StepEndsLeases(s: System, step: Step, l: nat)
    requires SystemOk(s) && LeasesOk(s.registry) && Enabled(s, step) && l in Next(s, step).registry.leases
    ensures
      var was, now := s.registry.leases, Next(s, step).registry.leases[l];
      && now.observed == 0 && (now.released ==> now.canceled)
      && (now.canceled <==> l in was && (was[l].canceled || EndsLease(s, step, l)))
  {
    hide MayCall, SameCall, Cancel, PendingOk, SignaledIsDurable, JobState.Valid, Registered, Signaled, Released;
    match step
    case CancelSignals(id, generation) => SignalEnds(s.registry, id, generation, l);
    case BeginRegisters(t) =>
      assert BeginOk(s, s.begins[t]);
      RegisterEnds(s.registry, s.begins[t].jobId, s.begins[t].latest, l);
    case BeginConfirms(t) =>
      if l in Released(s.registry, s.begins[t].lease).leases { ReleaseEnds(s.registry, s.begins[t].lease, l); }
    case LeaseReleased(k) => ReleaseEnds(s.registry, k, l);
    case _ =>
  }

  lemma SignalEnds(r: Registry, id: string, generation: nat, l: nat)
    requires RegistryOk(r) && LeasesOk(r) && l in Signaled(r, id, generation).leases
    ensures
      var was, now := r.leases, Signaled(r, id, generation).leases[l];
      && l in was && now.observed == 0 && (now.released ==> now.canceled)
      && (now.canceled <==> was[l].canceled || (was[l].jobId == id && was[l].observed < generation))
  {
  }

  lemma ReleaseEnds(r: Registry, k: nat, l: nat)
    requires RegistryOk(r) && LeasesOk(r) && l in Released(r, k).leases
    ensures
      var was, now := r.leases, Released(r, k).leases[l];
      && l in was && now.observed == 0 && (now.released ==> now.canceled)
      && (now.canceled <==> was[l].canceled || l == k)
  {
  }

  lemma RegisterEnds(r: Registry, id: string, state: JobState, l: nat)
    requires RegistryOk(r) && LeasesOk(r) && MayCall(state) && l in Registered(r, id, state).0.leases
    ensures
      var was, now := r.leases, Registered(r, id, state).0.leases[l];
      && now.observed == 0 && (now.released ==> now.canceled)
      && (now.canceled <==> l in was && was[l].canceled)
  {
  }

  lemma {:induction false} RunLeases(h: seq<System>, steps: seq<Step>, j: nat)
    requires SystemRun(h, steps) && j < |h|
    ensures LeasesOk(h[j].registry)
  {
    hide SystemOk, Next, Enabled, EndsLease;
    if j == 0 {
    } else {
      RunLeases(h, steps, j - 1);
      RunOk(h, steps, j - 1);
      forall l | l in h[j].registry.leases ensures h[j].registry.leases[l].observed == 0 && (h[j].registry.leases[l].released ==> h[j].registry.leases[l].canceled) {
        StepEndsLeases(h[j - 1], steps[j - 1], l);
      }
    }
  }

  /** The context of a lease has ended if and only if some step of the run ended it. */
  lemma {:induction false} LeaseEndsExactly(h: seq<System>, steps: seq<Step>, j: nat, l: nat)
    requires SystemRun(h, steps) && j < |h| && l in h[j].registry.leases
    ensures h[j].registry.leases[l].canceled <==> exists i :: 0 <= i < j && EndsLease(h[i], steps[i], l)
  {
    hide SystemOk, Next, Enabled, EndsLease, LeasesOk;
    if j > 0 {
      RunLeases(h, steps, j - 1);
      RunOk(h, steps, j - 1);
      StepEndsLeases(h[j - 1], steps[j - 1], l);
      if l in h[j - 1].registry.leases {
        LeaseEndsExactly(h, steps, j - 1, l);
      } else {
        NotYetEnded(h, steps, j - 1, l);
      }
    }
  }

  lemma {:induction false} NotYetEnded(h: seq<System>, steps: seq<Step>, j: nat, l: nat)
    requires SystemRun(h, steps) && j < |h| && l !in h[j].registry.leases
    ensures forall i | 0 <= i <= j && i < |steps| :: !EndsLease(h[i], steps[i], l)
  {
    hide Next, Enabled;
    forall i | 0 <= i <= j && i < |steps| ensures !EndsLease(h[i], steps[i], l) { RunRegistryGrows(h, steps, i, j); }
  }

  /** A job has been cancelled if and only if it was stored so or a cancellation of it has been committed. */
  lemma {:induction false} CancelledExactly(h: seq<System>, steps: seq<Step>, j: nat, id: string)
    requires SystemRun(h, steps) && j < |h| && id in h[0].store
    ensures id in h[j].store
    ensures h[j].store[id].cancelGeneration > 0 <==> h[0].store[id].cancelGeneration > 0 || exists i :: 0 <= i < j && steps[i] == CancelCommits(id)
  {
    hide Next, Enabled;
    if j > 0 {
      CancelledExactly(h, steps, j - 1, id);
      RunOk(h, steps, j - 1);
      assert Enabled(h[j - 1], steps[j - 1]) && h[j] == Next(h[j - 1], steps[j - 1]);
      StepCancels(h[j - 1], steps[j - 1], id);
    }
  }

  lemma StepCancels(s: System, step: Step, id: string)
    requires SystemOk(s) && Enabled(s, step) && id in s.store
    ensures id in Next(s, step).store
    ensures Next(s, step).store[id].cancelGeneration > 0 <==> s.store[id].cancelGeneration > 0 || step == CancelCommits(id)
  {
    hide Registered, Signaled, Released, SameCall, MayCall, RegistryOk, BeginOk, SignaledIsDurable, PendingOk;
    if step.CancelCommits? { CancelKeepsValid(s.store[step.jobId]); }
  }

  /** The verdict on a lease at any moment: late after a cancellation, accepted while its owner's job runs and nothing has ended it, invalid else. */
  lemma VerdictExactly(h: seq<System>, steps: seq<Step>, j: nat, l: nat)
    requires SystemRun(h, steps) && j < |h| && l in h[j].registry.leases
    ensures h[j].registry.leases[l].jobId in h[0].store && h[j].registry.leases[l].jobId in h[j].store
    ensures
      var lease := h[j].registry.leases[l];
      var id := lease.jobId;
      var cancelled := h[0].store[id].cancelGeneration > 0 || exists i :: 0 <= i < j && steps[i] == CancelCommits(id);
      var ended := exists i :: 0 <= i < j && EndsLease(h[i], steps[i], l);
      AcceptResult(h[j].store, lease) ==
        if cancelled then LateResult
        else if h[j].store[id].status == Running && h[j].store[id].owner == lease.owner && !ended then Accept
        else InvalidState
  {
    hide EndsLease, Next, Enabled;
    LeasedJobsAreStored(h, steps, j);
    var id := h[j].registry.leases[l].jobId;
    CancelledExactly(h, steps, j, id);
    LeaseEndsExactly(h, steps, j, l);
    RunLeases(h, steps, j);
    RunOk(h, steps, j);
  }
}
