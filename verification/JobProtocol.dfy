/** The durable AI design job: its states, the controller's transitions and the repository's compare-and-swap. */
module JobProtocol {
  import opened Wrappers
  import opened Text

  datatype Status = Queued | Running | Succeeded | Failed | Canceled | Interrupted

  datatype Phase = InputPinned | EvidencePinned | ProviderToolLoop | DeterministicPreview | PatchSealed

  function Order(p: Phase): (n: nat)
    ensures n <= 4
  {
    match p
    case InputPinned => 0
    case EvidencePinned => 1
    case ProviderToolLoop => 2
    case DeterministicPreview => 3
    case PatchSealed => 4
  }

  predicate CanTransitionTo(s: Status, next: Status) {
    match s
    case Queued => next == Running || next == Failed || next == Canceled || next == Interrupted
    case Running => next == Succeeded || next == Failed || next == Canceled || next == Interrupted
    case Interrupted => next == Succeeded || next == Failed || next == Canceled
    case _ => false
  }

  datatype JobResult = JobResult(typ: string, id: string, url: string)

  function PatchUrl(id: string): string { "/api/v1/draft-patches/" + id }

  predicate ValidPatchResult(r: Option<JobResult>) {
    r.Some? && r.value.typ == "draft_patch" && r.value.url == PatchUrl(r.value.id)
  }

  /** A worker's name: trimmed, at most 128 bytes, on one line. */
  predicate ValidOwner(owner: string) {
    && owner != "" && !IsSpace(owner[0] as int) && !IsSpace(owner[|owner| - 1] as int)
    && EncodedLength(owner) <= 128
    && '\0' !in owner && '\r' !in owner && '\n' !in owner
  }

  /** The mutable part of the job record; `cancelRequested` says whether the request time is set. */
  datatype JobState = JobState(
    status: Status,
    result: Option<JobResult>,
    cancelGeneration: nat,
    cancelRequested: bool,
    phase: Phase,
    owner: string)
  {
    predicate Valid() {
      && (status == Succeeded ==> result.Some?)
      && (cancelGeneration > 0 <==> cancelRequested)
      && match status
         case Queued => phase == InputPinned && owner == "" && result == None
         case Running => ValidOwner(owner) && result == None
         case Succeeded => phase == PatchSealed && owner == "" && ValidPatchResult(result)
         case _ => owner == "" && result == None
    }
  }

  const ADMITTED := JobState(Queued, None, 0, false, InputPinned, "")

  datatype Transition = Transition(
    expectedStatus: Status, nextStatus: Status,
    expectedPhase: Phase, nextPhase: Phase,
    expectedOwner: string, nextOwner: string,
    observedCancelGeneration: nat,
    result: Option<JobResult>)

  // ---------- What the controller asks for ----------

  datatype Action = Claim(owner: string) | Advance(next: Phase) | SealPatch(patchId: string) | SettleCancellation(remoteStopped: bool)

  function From(current: JobState, status: Status, phase: Phase, owner: string, result: Option<JobResult>): Transition {
    Transition(current.status, status, current.phase, phase, current.owner, owner, current.cancelGeneration, result)
  }

  datatype Request = Refused | AlreadySettled | Send(transition: Transition)

  /** The guard of each operation on the caller's snapshot, and the transition it then sends. */
  function Ask(current: JobState, a: Action): Request {
    if !current.Valid() then Refused
    else
      match a
      case Claim(owner) =>
        if current.status != Queued || !ValidOwner(owner) then Refused
        else Send(From(current, Running, current.phase, owner, None))
      case Advance(next) =>
        if current.status != Running || Order(next) != Order(current.phase) + 1 then Refused
        else Send(From(current, Running, next, current.owner, None))
      case SealPatch(patchId) =>
        if current.status != Running || current.phase != PatchSealed then Refused
        else Send(From(current, Succeeded, current.phase, "", Some(JobResult("draft_patch", patchId, PatchUrl(patchId)))))
      case SettleCancellation(remoteStopped) =>
        var next := if remoteStopped then Canceled else Interrupted;
        if current.cancelGeneration < 1 || !current.cancelRequested then Refused
        else if current.status == next && current.owner == "" && current.result == None then AlreadySettled
        else if current.status != Running then Refused
        else Send(From(current, next, current.phase, "", None))
  }

  // ---------- What any repository may do with it ----------

  /** Every expected field and the cancel generation match the stored state. */
  predicate Matches(store: JobState, t: Transition) {
    && store.status == t.expectedStatus && store.phase == t.expectedPhase && store.owner == t.expectedOwner
    && store.cancelGeneration == t.observedCancelGeneration
  }

  function Applied(store: JobState, t: Transition): JobState {
    store.(status := t.nextStatus, phase := t.nextPhase, owner := t.nextOwner, result := t.result)
  }

  /** The state already is what the transition asks for. */
  predicate IsReplay(store: JobState, t: Transition) {
    && store.status == t.nextStatus && store.phase == t.nextPhase && store.owner == t.nextOwner && store.result == t.result
    && store.cancelGeneration == t.observedCancelGeneration
  }

  datatype Reply = Committed(state: JobState) | Replayed(state: JobState) | Conflict

  /** The contract: commit only on a full match, replay only an identical outcome, change nothing otherwise. */
  ghost predicate Conforms(store: JobState, t: Transition, store': JobState, reply: Reply) {
    match reply
    case Committed(state) => Matches(store, t) && store' == Applied(store, t) && state == store'
    case Replayed(state) => IsReplay(store, t) && store' == store && state == store
    case Conflict => store' == store
  }

  /** Cancellation: first request wins, finished jobs refuse, waiting jobs end at once. */
  function Cancel(store: JobState): Reply {
    if store.cancelGeneration > 0 then Replayed(store)
    else
      match store.status
      case Running => Committed(store.(cancelGeneration := 1, cancelRequested := true))
      case Queued => Committed(store.(status := Canceled, owner := "", cancelGeneration := 1, cancelRequested := true))
      case Interrupted => Committed(store.(status := Canceled, owner := "", cancelGeneration := 1, cancelRequested := true))
      case _ => Conflict
  }

  /** The SQLite repository: replays first, then matches, checks the status graph and refuses success after a cancellation. */
  function SqliteTransition(store: JobState, t: Transition): Reply {
    if IsReplay(store, t) then Replayed(store)
    else if !Matches(store, t) then Conflict
    else if !((store.status == t.nextStatus && store.status == Running) || CanTransitionTo(store.status, t.nextStatus)) then Conflict
    else if t.nextStatus == Succeeded && t.observedCancelGeneration != 0 then Conflict
    else Committed(Applied(store, t))
  }

  function After(store: JobState, reply: Reply): JobState {
    match reply
    case Committed(state) => state
    case _ => store
  }

  lemma SqliteConforms(store: JobState, t: Transition)
    ensures Conforms(store, t, After(store, SqliteTransition(store, t)), SqliteTransition(store, t))
  {
  }

  // ---------- Runs: any number of workers, each acting on some state it once read ----------

  /** One commit: a cancellation, or an action whose snapshot is the stored state of some earlier moment. */
  datatype Event = CancelRequested | Acted(action: Action, snapshot: nat)

  ghost predicate Commits(h: seq<JobState>, i: nat, e: Event)
    requires i + 1 < |h|
  {
    match e
    case CancelRequested => Cancel(h[i]) == Committed(h[i + 1])
    case Acted(a, k) =>
      k <= i && Ask(h[k], a).Send? && Conforms(h[i], Ask(h[k], a).transition, h[i + 1], Committed(h[i + 1]))
  }

  /** The sequence of committed states, and what committed each of them. */
  ghost predicate Run(h: seq<JobState>, es: seq<Event>) {
    && |h| == |es| + 1 && h[0] == ADMITTED
    && forall i | 0 <= i < |es| :: Commits(h, i, es[i])
  }

  predicate IsClaim(e: Event) { e.Acted? && e.action.Claim? }

  predicate IsAdvance(e: Event) { e.Acted? && e.action.Advance? }

  /** How far the job has come; every commit raises it. */
  function Stage(s: JobState): nat {
    (match s.status
     case Queued => 0
     case Running => 1 + Order(s.phase)
     case _ => 6) + (if s.cancelGeneration > 0 then 1 else 0)
  }

  /** What every committed state satisfies. */
  predicate Reachable(s: JobState) {
    && s.Valid() && s.cancelGeneration <= 1 && s.status != Failed
    && (s.status == Canceled || s.status == Interrupted ==> s.cancelGeneration == 1)
  }

  /** What one commit does, whatever snapshot it came from. */
  lemma CommitEffect(h: seq<JobState>, i: nat, e: Event)
    requires i + 1 < |h| && Commits(h, i, e) && Reachable(h[i])
    ensures Reachable(h[i + 1]) && h[i].cancelGeneration <= h[i + 1].cancelGeneration
    ensures Stage(h[i]) < Stage(h[i + 1]) <= 7
    ensures h[i].status == Queued || h[i].status == Running
    ensures h[i + 1].status != Queued
    ensures IsClaim(e) <==> h[i].status == Queued && h[i + 1].status == Running
    ensures if IsAdvance(e) then h[i + 1].phase == e.action.next && Order(h[i + 1].phase) == Order(h[i].phase) + 1
            else h[i + 1].phase == h[i].phase
    ensures h[i].status == Running && h[i + 1].status == Running ==> h[i + 1].owner == h[i].owner
    ensures IsClaim(e) ==> h[i + 1].owner == e.action.owner
    ensures e.Acted? ==> h[e.snapshot].cancelGeneration == h[i].cancelGeneration == h[i + 1].cancelGeneration
    ensures h[i + 1].status == Succeeded ==>
              (e.Acted? && e.action.SealPatch? && h[i].phase == PatchSealed && h[i + 1].result.value.id == e.action.patchId)
  {
    hide ValidOwner, PatchUrl;
  }

  /** What every kind of commit leaves, field by field: nothing else changes. */
  lemma CommitExactly(h: seq<JobState>, i: nat, e: Event)
    requires i + 1 < |h| && Commits(h, i, e) && Reachable(h[i])
    ensures
      var was, now := h[i], h[i + 1];
      match e
      case CancelRequested =>
        was.cancelGeneration == 0
        && now == JobState(if was.status == Running then Running else Canceled, None, 1, true, was.phase, if was.status == Running then was.owner else "")
      case Acted(Claim(owner), _) => was.status == Queued && now == JobState(Running, None, was.cancelGeneration, was.cancelRequested, was.phase, owner)
      case Acted(Advance(next), _) =>
        was.status == Running && now == JobState(Running, None, was.cancelGeneration, was.cancelRequested, next, was.owner)
      case Acted(SealPatch(id), _) =>
        was.status == Running && was.phase == PatchSealed
        && now == JobState(Succeeded, Some(JobResult("draft_patch", id, "/api/v1/draft-patches/" + id)),
                          was.cancelGeneration, was.cancelRequested, PatchSealed, "")
      case Acted(SettleCancellation(stopped), _) =>
        was.status == Running && was.cancelGeneration == 1
        && now == JobState(if stopped then Canceled else Interrupted, None, 1, true, was.phase, "")
  {
    hide ValidOwner;
  }

  /** A settlement ends the job as canceled if and only if the remote stop is confirmed, and as interrupted otherwise. */
  lemma SettlementEnds(h: seq<JobState>, es: seq<Event>, i: nat)
    requires Run(h, es) && i < |es| && es[i].Acted? && es[i].action.SettleCancellation?
    ensures h[i + 1].status == Canceled <==> es[i].action.remoteStopped
    ensures h[i + 1].status == Interrupted <==> !es[i].action.remoteStopped
    ensures h[i + 1].owner == "" && h[i + 1].result == None && h[i + 1].phase == h[i].phase && h[i + 1].cancelGeneration == h[i].cancelGeneration == 1
    ensures i + 2 == |h|
  {
    RunReachable(h, es, i);
    assert Commits(h, i, es[i]);
    CommitExactly(h, i, es[i]);
    if i + 2 < |h| { RunGrows(h, es, i + 1, |h| - 1); }
  }

  lemma {:induction false} RunReachable(h: seq<JobState>, es: seq<Event>, i: nat)
    requires Run(h, es) && i < |h|
    ensures Reachable(h[i]) && Stage(h[i]) >= i
  {
    if i > 0 {
      RunReachable(h, es, i - 1);
      assert Commits(h, i - 1, es[i - 1]);
      CommitEffect(h, i - 1, es[i - 1]);
    }
  }

  /** Between two moments of a run, generations, phases and stages only grow, and a running job keeps its owner. */
  lemma {:induction false} RunGrows(h: seq<JobState>, es: seq<Event>, i: nat, j: nat)
    requires Run(h, es) && i <= j < |h|
    ensures h[i].cancelGeneration <= h[j].cancelGeneration && Order(h[i].phase) <= Order(h[j].phase)
    ensures i < j ==> Stage(h[i]) < Stage(h[j]) && h[j].status != Queued
    ensures i < j ==> h[i].status == Queued || h[i].status == Running
    ensures h[i].status == Running && h[j].status == Running ==> h[i].owner == h[j].owner
    decreases j - i
  {
    RunReachable(h, es, i);
    if i < j {
      assert Commits(h, i, es[i]);
      CommitEffect(h, i, es[i]);
      RunGrows(h, es, i + 1, j);
    }
  }

  /** At most one claim is ever committed, so at most one worker ever owns the job. */
  lemma OneClaim(h: seq<JobState>, es: seq<Event>, i: nat, j: nat)
    requires Run(h, es) && i < |es| && j < |es| && IsClaim(es[i]) && IsClaim(es[j])
    ensures i == j
  {
    assert Commits(h, i, es[i]) && Commits(h, j, es[j]);
    RunReachable(h, es, i);
    RunReachable(h, es, j);
    CommitEffect(h, i, es[i]);
    CommitEffect(h, j, es[j]);
    if i < j { RunGrows(h, es, i, j); } else if j < i { RunGrows(h, es, j, i); }
  }

  /** The number of advances among the first `n` commits. */
  function Advances(es: seq<Event>, n: nat): nat
    requires n <= |es|
  {
    if n == 0 then 0 else Advances(es, n - 1) + (if IsAdvance(es[n - 1]) then 1 else 0)
  }

  /** Phases are passed one at a time and in order: the phase counts the advances committed so far. */
  lemma {:induction false} PhasesInOrder(h: seq<JobState>, es: seq<Event>, n: nat)
    requires Run(h, es) && n < |h|
    ensures Order(h[n].phase) == Advances(es, n)
    ensures n > 0 && IsAdvance(es[n - 1]) ==> Order(es[n - 1].action.next) == Advances(es, n)
  {
    if n > 0 {
      PhasesInOrder(h, es, n - 1);
      RunReachable(h, es, n - 1);
      assert Commits(h, n - 1, es[n - 1]);
      CommitEffect(h, n - 1, es[n - 1]);
    }
  }

  /** A worker whose snapshot predates the cancellation commits nothing after it. */
  lemma StaleWorkerIsStopped(h: seq<JobState>, es: seq<Event>, k: nat, c: nat, i: nat, a: Action)
    requires Run(h, es) && k < |h| && c <= i < |es|
    requires h[k].cancelGeneration < h[c].cancelGeneration
    ensures !Commits(h, i, Acted(a, k))
  {
    RunGrows(h, es, c, i);
    RunReachable(h, es, i);
    if Commits(h, i, Acted(a, k)) { CommitEffect(h, i, Acted(a, k)); }
  }

  /** Success means the sealed phase, no owner, and the canonical link of the patch that was sealed last. */
  lemma SuccessIsSealed(h: seq<JobState>, es: seq<Event>, i: nat)
    requires Run(h, es) && i < |h| && h[i].status == Succeeded
    ensures i == |h| - 1 && i > 0 && h[i].phase == PatchSealed && h[i].owner == "" && Advances(es, i) == 4
    ensures es[i - 1].Acted? && es[i - 1].action.SealPatch?
    ensures h[i].result == Some(JobResult("draft_patch", es[i - 1].action.patchId, PatchUrl(es[i - 1].action.patchId)))
  {
    RunReachable(h, es, i);
    RunReachable(h, es, i - 1);
    assert Commits(h, i - 1, es[i - 1]);
    CommitEffect(h, i - 1, es[i - 1]);
    PhasesInOrder(h, es, i);
    if i < |h| - 1 { RunGrows(h, es, i, |h| - 1); }
  }

  /** Whatever the workers do, a job commits at most seven times. */
  lemma RunIsShort(h: seq<JobState>, es: seq<Event>)
    requires Run(h, es)
    ensures |es| <= 7
  {
    RunReachable(h, es, |es|);
    if |es| > 0 {
      RunReachable(h, es, |es| - 1);
      assert Commits(h, |es| - 1, es[|es| - 1]);
      CommitEffect(h, |es| - 1, es[|es| - 1]);
    }
  }

  // ---------- What the contract alone does not promise, and SQLite does ----------

  /** A worker that reads again after the cancellation may still seal: the interface's comparison lets it through. */
  lemma ContractAllowsSealAfterReread(store: JobState, patchId: string)
    requires store.Valid() && store.status == Running && store.phase == PatchSealed && store.cancelGeneration == 1
    ensures Ask(store, SealPatch(patchId)).Send?
    ensures
      var t := Ask(store, SealPatch(patchId)).transition;
      Conforms(store, t, Applied(store, t), Committed(Applied(store, t))) && Applied(store, t).status == Succeeded
      && SqliteTransition(store, t) == Conflict
  {
  }

  /** Runs against the SQLite repository. */
  ghost predicate SqliteRun(h: seq<JobState>, es: seq<Event>) {
    && Run(h, es)
    && forall i | 0 <= i < |es| && es[i].Acted? ::
         SqliteTransition(h[i], Ask(h[es[i].snapshot], es[i].action).transition) == Committed(h[i + 1])
  }

  lemma SqliteSuccessIsUncancelled(h: seq<JobState>, es: seq<Event>, j: nat)
    requires SqliteRun(h, es) && j < |h| && h[j].status == Succeeded
    ensures h[j].cancelGeneration == 0
  {
    hide ValidOwner, PatchUrl;
    SuccessIsSealed(h, es, j);
    RunReachable(h, es, j - 1);
    assert Commits(h, j - 1, es[j - 1]);
    CommitEffect(h, j - 1, es[j - 1]);
  }

  /** Against SQLite a cancelled job never succeeds, and a job that succeeded was never cancelled. */
  lemma SqliteNeverSealsCancelled(h: seq<JobState>, es: seq<Event>, i: nat, j: nat)
    requires SqliteRun(h, es) && i < |h| && j < |h| && h[i].cancelGeneration > 0
    ensures h[j].status != Succeeded
  {
    if h[j].status == Succeeded {
      SuccessIsSealed(h, es, j);
      SqliteSuccessIsUncancelled(h, es, j);
      RunGrows(h, es, i, j);
    }
  }

  // ---------- The controller and its repository ----------

  datatype Error = NotFound | InvalidTransition | StoreConflict

  /** The stored jobs, changed only by whole transitions. */
  class Repository {
    var jobs: map<string, JobState>

    constructor ()
      ensures jobs == map[]
    {
      jobs := map[];
    }

    method GetAIJob(id: string) returns (r: Result<JobState, Error>)
      ensures r == if id in jobs then Success(jobs[id]) else Failure(NotFound)
    {
      if id !in jobs { return Failure(NotFound); }
      r := Success(jobs[id]);
    }

    method TransitionAIJob(id: string, t: Transition) returns (r: Result<(JobState, bool), Error>)
      modifies this
      ensures id !in old(jobs) ==> r == Failure(NotFound) && jobs == old(jobs)
      ensures id in old(jobs) ==>
        var reply := SqliteTransition(old(jobs)[id], t);
        jobs == old(jobs)[id := After(old(jobs)[id], reply)] && r == Answer(reply)
    {
      if id !in jobs { return Failure(NotFound); }
      var current := jobs[id];
      if current.status == t.nextStatus && current.phase == t.nextPhase && current.owner == t.nextOwner && current.result == t.result
         && current.cancelGeneration == t.observedCancelGeneration {
        return Success((current, true));
      }
      if current.status != t.expectedStatus || current.phase != t.expectedPhase || current.owner != t.expectedOwner
         || current.cancelGeneration != t.observedCancelGeneration
         || !((current.status == t.nextStatus && current.status == Running) || CanTransitionTo(current.status, t.nextStatus)) {
        return Failure(StoreConflict);
      }
      if t.nextStatus == Succeeded && t.observedCancelGeneration != 0 { return Failure(StoreConflict); }
      jobs := jobs[id := current.(status := t.nextStatus, result := t.result, phase := t.nextPhase, owner := t.nextOwner)];
      r := Success((jobs[id], false));
    }

    method RequestAIJobCancellation(id: string) returns (r: Result<(JobState, bool), Error>)
      modifies this
      ensures id !in old(jobs) ==> r == Failure(NotFound) && jobs == old(jobs)
      ensures id in old(jobs) ==>
        var reply := Cancel(old(jobs)[id]);
        jobs == old(jobs)[id := After(old(jobs)[id], reply)] && r == Answer(reply)
    {
      if id !in jobs { return Failure(NotFound); }
      var current := jobs[id];
      if current.cancelGeneration > 0 { return Success((current, true)); }
      if current.status == Succeeded || current.status == Failed || current.status == Canceled { return Failure(StoreConflict); }
      var nextStatus, nextOwner := current.status, current.owner;
      if current.status == Queued || current.status == Interrupted {
        nextStatus, nextOwner := Canceled, "";
      }
      jobs := jobs[id := current.(status := nextStatus, owner := nextOwner, cancelGeneration := 1, cancelRequested := true)];
      r := Success((jobs[id], false));
    }
  }

  function Answer(reply: Reply): Result<(JobState, bool), Error> {
    match reply
    case Committed(state) => Success((state, false))
    case Replayed(state) => Success((state, true))
    case Conflict => Failure(StoreConflict)
  }

  /** What a controller call answers and leaves behind, given the stored job and the caller's snapshot. */
  function Perform(store: JobState, current: JobState, a: Action): (JobState, Result<(JobState, bool), Error>) {
    match Ask(current, a)
    case Refused => (store, Failure(InvalidTransition))
    case AlreadySettled => (store, Success((current, true)))
    case Send(t) =>
      var reply := SqliteTransition(store, t);
      var stored := After(store, reply);
      match reply
      case Conflict => (stored, Failure(StoreConflict))
      case _ => if stored.Valid() then (stored, Answer(reply)) else (stored, Failure(InvalidTransition))
  }

  class Controller {
    const repository: Repository

    constructor (repository: Repository)
      ensures this.repository == repository
    {
      this.repository := repository;
    }

    method Claim(id: string, current: JobState, owner: string) returns (r: Result<(JobState, bool), Error>)
      requires id in repository.jobs
      modifies repository
      ensures (repository.jobs, r) == Performed(old(repository.jobs), id, current, Action.Claim(owner))
    {
      assert repository.jobs == repository.jobs[id := repository.jobs[id]];
      if !current.Valid() || current.status != Queued || !ValidOwner(owner) { return Failure(InvalidTransition); }
      r := Transit(id, current, Running, current.phase, owner, None);
    }

    method Advance(id: string, current: JobState, next: Phase) returns (r: Result<(JobState, bool), Error>)
      requires id in repository.jobs
      modifies repository
      ensures (repository.jobs, r) == Performed(old(repository.jobs), id, current, Action.Advance(next))
    {
      assert repository.jobs == repository.jobs[id := repository.jobs[id]];
      if !current.Valid() || current.status != Running || Order(next) != Order(current.phase) + 1 { return Failure(InvalidTransition); }
      r := Transit(id, current, Running, next, current.owner, None);
    }

    method SealPatch(id: string, current: JobState, patchId: string) returns (r: Result<(JobState, bool), Error>)
      requires id in repository.jobs
      modifies repository
      ensures (repository.jobs, r) == Performed(old(repository.jobs), id, current, Action.SealPatch(patchId))
    {
      assert repository.jobs == repository.jobs[id := repository.jobs[id]];
      if !current.Valid() || current.status != Running || current.phase != PatchSealed { return Failure(InvalidTransition); }
      var result := JobResult("draft_patch", patchId, PatchUrl(patchId));
      r := Transit(id, current, Succeeded, current.phase, "", Some(result));
    }

    method SettleCancellation(id: string, current: JobState, remoteStopped: bool) returns (r: Result<(JobState, bool), Error>)
      requires id in repository.jobs
      modifies repository
      ensures (repository.jobs, r) == Performed(old(repository.jobs), id, current, Action.SettleCancellation(remoteStopped))
    {
      assert repository.jobs == repository.jobs[id := repository.jobs[id]];
      if !current.Valid() || current.cancelGeneration < 1 || !current.cancelRequested { return Failure(InvalidTransition); }
      var next := if remoteStopped then Canceled else Interrupted;
      if current.status == next && current.owner == "" && current.result == None { return Success((current, true)); }
      if current.status != Running { return Failure(InvalidTransition); }
      r := Transit(id, current, next, current.phase, "", None);
    }

    /** Sends the transition and checks what came back. */
    method Transit(id: string, current: JobState, status: Status, phase: Phase, owner: string, result: Option<JobResult>)
        returns (r: Result<(JobState, bool), Error>)
      requires id in repository.jobs && current.Valid()
      modifies repository
      ensures
        var reply := SqliteTransition(old(repository.jobs)[id], From(current, status, phase, owner, result));
        var stored := After(old(repository.jobs)[id], reply);
        repository.jobs == old(repository.jobs)[id := stored]
        && r == if reply == Conflict || stored.Valid() then Answer(reply) else Failure(InvalidTransition)
    {
      var t := From(current, status, phase, owner, result);
      r := repository.TransitionAIJob(id, t);
      if r.Success? {
        var next := r.value.0;
        if !next.Valid() || next.cancelGeneration != current.cancelGeneration || next.status != status || next.phase != phase
           || next.owner != owner || next.result != result {
          return Failure(InvalidTransition);
        }
      }
    }
  }

  function Performed(jobs: map<string, JobState>, id: string, current: JobState, a: Action): (map<string, JobState>, Result<(JobState, bool), Error>)
    requires id in jobs
  {
    var (stored, r) := Perform(jobs[id], current, a);
    (jobs[id := stored], r)
  }

  /** A controller call that changes the stored job is a commit in the sense of runs, made from the caller's snapshot. */
  lemma CallsAreCommits(h: seq<JobState>, k: nat, a: Action)
    requires h != [] && k < |h| && Reachable(h[|h| - 1])
    requires Perform(h[|h| - 1], h[k], a).0 != h[|h| - 1]
    ensures Commits(h + [Perform(h[|h| - 1], h[k], a).0], |h| - 1, Acted(a, k))
    ensures Perform(h[|h| - 1], h[k], a).1 == Success((Perform(h[|h| - 1], h[k], a).0, false))
  {
    var h' := h + [Perform(h[|h| - 1], h[k], a).0];
    assert h'[k] == h[k] && h'[|h| - 1] == h[|h| - 1];
  }

  // ---------- What callers are told ----------

  /** A call from snapshot `k` at moment `i` of a run: it changes nothing, or it is the next commit. */
  ghost predicate CalledAt(h: seq<JobState>, es: seq<Event>, i: nat, a: Action, k: nat) {
    && k <= i < |h|
    && var (stored, _) := Perform(h[i], h[k], a);
       stored == h[i] || (i < |es| && es[i] == Acted(a, k) && i + 1 < |h| && h[i + 1] == stored)
  }

  /** A claim is told of success, by commit or by replay, only when its owner holds the running job. */
  lemma ClaimHolds(h: seq<JobState>, es: seq<Event>, i: nat, owner: string, k: nat) returns (m: nat)
    requires Run(h, es) && CalledAt(h, es, i, Claim(owner), k) && Perform(h[i], h[k], Claim(owner)).1.Success?
    ensures m < |h| && h[m].status == Running && h[m].owner == owner
  {
    RunReachable(h, es, i);
    m := if Perform(h[i], h[k], Claim(owner)).0 == h[i] then i else i + 1;
  }

  /** Whatever the interleaving, all claims that are told of success name the same owner. */
  lemma SuccessfulClaimsAgree(h: seq<JobState>, es: seq<Event>, i: nat, j: nat, first: string, second: string, k: nat, l: nat)
    requires Run(h, es)
    requires CalledAt(h, es, i, Claim(first), k) && Perform(h[i], h[k], Claim(first)).1.Success?
    requires CalledAt(h, es, j, Claim(second), l) && Perform(h[j], h[l], Claim(second)).1.Success?
    ensures first == second
  {
    var m := ClaimHolds(h, es, i, first, k);
    var n := ClaimHolds(h, es, j, second, l);
    if m <= n { RunGrows(h, es, m, n); } else { RunGrows(h, es, n, m); }
  }

  /** From a snapshot older than a cancellation no action is told of success after it, not even by replay. */
  lemma StaleWorkerGetsNoSuccess(h: seq<JobState>, es: seq<Event>, c: nat, i: nat, a: Action, k: nat)
    requires Run(h, es) && k < |h| && c <= i < |h| && h[k].cancelGeneration < h[c].cancelGeneration
    ensures Perform(h[i], h[k], a).1.Failure? && Perform(h[i], h[k], a).0 == h[i]
  {
    RunGrows(h, es, c, i);
    RunReachable(h, es, c);
  }

  // ---------- Calls on what was just read ----------

  /** A call on the stored state itself commits exactly when the protocol allows it. */
  lemma FreshCallsCommit(s: JobState, a: Action)
    requires Reachable(s)
    ensures
      var (stored, r) := Perform(s, s, a);
      r == Success((stored, false)) && stored != s <==>
        match a
        case Claim(owner) => s.status == Queued && ValidOwner(owner)
        case Advance(next) => s.status == Running && Order(next) == Order(s.phase) + 1
        case SealPatch(_) => s.status == Running && s.phase == PatchSealed && s.cancelGeneration == 0
        case SettleCancellation(_) => s.status == Running && s.cancelGeneration == 1
  {
    hide ValidOwner, PatchUrl;
  }

  /** A settlement is told of success without a commit exactly when the caller's state, or the stored one, is the settled state already. */
  lemma SettledAlready(store: JobState, current: JobState, stopped: bool)
    requires Reachable(store) && Reachable(current)
    ensures
      var (stored, r) := Perform(store, current, SettleCancellation(stopped));
      var end := if stopped then Canceled else Interrupted;
      && (r.Success? && stored == store <==>
            current.status == end
            || (current.status == Running && current.cancelGeneration == 1 && store == current.(status := end, owner := "")))
      && (r.Success? && stored == store ==> r.value == (if current.status == end then current else store, true))
  {
    hide ValidOwner;
  }

  /** The status graph: queued jobs start, running and interrupted ones may succeed, whatever is not over may fail or be canceled. */
  lemma StatusGraph(s: Status, next: Status)
    ensures
      CanTransitionTo(s, next) <==>
        match next
        case Queued => false
        case Running => s == Queued
        case Succeeded => s == Running || s == Interrupted
        case Interrupted => s == Queued || s == Running
        case _ => s == Queued || s == Running || s == Interrupted
  {
  }

  /** A printable name without blanks may own a job exactly if it has between 1 and 128 characters. */
  lemma PrintableOwners(owner: string)
    requires forall i | 0 <= i < |owner| :: 0x21 <= owner[i] as int <= 0x7E
    ensures ValidOwner(owner) <==> 1 <= |owner| <= 128
  {
    AsciiLength(owner);
  }

  lemma {:induction false} AsciiLength(s: string)
    requires forall i | 0 <= i < |s| :: s[i] as int < 0x80
    ensures EncodedLength(s) == |s|
  {
    if s != [] { AsciiLength(s[1..]); }
  }

  /** A first cancellation is accepted exactly where the status graph leads to canceled; it ends every job but a running one. */
  lemma CancelsExactly(s: JobState)
    requires s.Valid()
    ensures Cancel(s).Replayed? <==> s.cancelGeneration > 0
    ensures Cancel(s).Committed? <==> s.cancelGeneration == 0 && CanTransitionTo(s.status, Canceled)
    ensures Cancel(s).Committed? ==>
      var now := Cancel(s).state;
      && now.Valid() && now.cancelGeneration == 1 && now.phase == s.phase && now.result == None
      && (now.status == Running <==> s.status == Running) && (now.status == Canceled <==> s.status != Running)
      && now.owner == s.owner
  {
  }
}
