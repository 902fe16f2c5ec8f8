/** Bounded format repair: one lineage of attempts, each ended once and linked to the next. */
module RepairLineage {
  import opened Wrappers

  /** An attempt's manifest: its id, and everything a repair may not change. */
  datatype Manifest = Manifest(attemptId: string, frozen: string)

  datatype Reason = JsonRepresentation | Schema | Identity | Scope | Evidence | Policy | SemanticBlock | Budget | Dependency | Unknown

  predicate Repairable(r: Reason) { r == JsonRepresentation || r == Schema }

  datatype Outcome = FailedOutcome | RunningOutcome

  datatype Record = Record(
    attemptId: string, parentAttemptId: string, ordinal: int, repairRound: int,
    manifest: Manifest, outcome: Outcome, reason: Option<Reason>)

  /** What the store commits at once: the end of one attempt and perhaps the start of the next. */
  datatype Transition = Transition(terminal: Record, next: Option<Record>)

  datatype Plan = Plan(manifest: Manifest, round: int, parentAttemptId: string, reason: Reason)

  datatype Error = Invalid | NotAllowed | Exhausted | Closed | Persistence

  /** One call: how the response, the proposed id, the encoded instruction and the store turn out. */
  datatype Failed = Failed(
    responseValid: bool,
    reason: Reason,
    nextAttemptId: string,
    idValid: bool,
    manifestValid: bool,
    instructionFits: bool,
    commits: bool)

  datatype State = State(
    current: Manifest, parent: string, ordinal: int, round: int, maxRounds: int, closed: bool, seen: set<string>,
    log: seq<Transition>)

  const V1_MAX_FORMAT_REPAIRS := 3

  function MaxRounds(maxFormatRepairs: int, maxProviderTurns: int): int {
    var capped := if maxFormatRepairs > V1_MAX_FORMAT_REPAIRS then V1_MAX_FORMAT_REPAIRS else maxFormatRepairs;
    if capped > maxProviderTurns - 1 then maxProviderTurns - 1 else capped
  }

  function Fresh(initial: Manifest, maxRounds: int): State {
    State(initial, "", 1, 0, maxRounds, false, {initial.attemptId}, [])
  }

  function Terminal(s: State, reason: Reason): Record {
    Record(s.current.attemptId, s.parent, s.ordinal, s.round, s.current, FailedOutcome, Some(reason))
  }

  function NextRecord(s: State, id: string): Record {
    Record(id, s.current.attemptId, s.ordinal + 1, s.round + 1, Manifest(id, s.current.frozen), RunningOutcome, None)
  }

  /** The state after a call and its answer. */
  function Handle(s: State, f: Failed): (State, Result<Plan, Error>) {
    var ended := s.(closed := true, log := s.log + [Transition(Terminal(s, f.reason), None)]);
    if s.closed then (s, Failure(Closed))
    else if !f.responseValid then (s, Failure(Invalid))
    else if !Repairable(f.reason) then if f.commits then (ended, Failure(NotAllowed)) else (s, Failure(Persistence))
    else if s.round >= s.maxRounds then if f.commits then (ended, Failure(Exhausted)) else (s, Failure(Persistence))
    else if !f.idValid || f.nextAttemptId in s.seen then (s, Failure(Invalid))
    else if !f.manifestValid || !f.instructionFits then (s, Failure(Invalid))
    else if !f.commits then (s, Failure(Persistence))
    else
      (State(Manifest(f.nextAttemptId, s.current.frozen), s.current.attemptId, s.ordinal + 1, s.round + 1, s.maxRounds, false,
             s.seen + {f.nextAttemptId},
             s.log + [Transition(Terminal(s, f.reason), Some(NextRecord(s, f.nextAttemptId)))]),
       Success(Plan(Manifest(f.nextAttemptId, s.current.frozen), s.round + 1, s.current.attemptId, f.reason)))
  }

  // ---------- The controller as it runs ----------

  class TransitionStore {
    var log: seq<Transition>

    constructor ()
      ensures log == []
    {
      log := [];
    }

    /** Either appends the transition or fails and leaves the log alone. */
    method CommitRepairTransition(t: Transition, works: bool) returns (ok: bool)
      modifies this
      ensures ok == works && log == if works then old(log) + [t] else old(log)
    {
      if works { log := log + [t]; }
      ok := works;
    }
  }

  class RepairController {
    const store: TransitionStore
    const maxRounds: int
    var current: Manifest
    var parent: string
    var ordinal: int
    var round: int
    var closed: bool
    var seen: set<string>

    function Now(): State
      reads this, store
    {
      State(current, parent, ordinal, round, maxRounds, closed, seen, store.log)
    }

    constructor (initial: Manifest, maxFormatRepairs: int, maxProviderTurns: int)
      ensures fresh(store) && Now() == Fresh(initial, MaxRounds(maxFormatRepairs, maxProviderTurns))
    {
      var rounds := maxFormatRepairs;
      if rounds > V1_MAX_FORMAT_REPAIRS { rounds := V1_MAX_FORMAT_REPAIRS; }
      if rounds > maxProviderTurns - 1 { rounds := maxProviderTurns - 1; }
      var s := new TransitionStore();
      store, maxRounds := s, rounds;
      current, parent, ordinal, round, closed, seen := initial, "", 1, 0, false, {initial.attemptId};
    }

    method HandleFailure(f: Failed) returns (r: Result<Plan, Error>)
      modifies this, store
      ensures (Now(), r) == Handle(old(Now()), f)
    {
      if closed { return Failure(Closed); }
      if !f.responseValid { return Failure(Invalid); }
      var terminal := Record(current.attemptId, parent, ordinal, round, current, FailedOutcome, Some(f.reason));
      if !Repairable(f.reason) {
        var ok := store.CommitRepairTransition(Transition(terminal, None), f.commits);
        if !ok { return Failure(Persistence); }
        closed := true;
        return Failure(NotAllowed);
      }
      if round >= maxRounds {
        var ok := store.CommitRepairTransition(Transition(terminal, None), f.commits);
        if !ok { return Failure(Persistence); }
        closed := true;
        return Failure(Exhausted);
      }
      if !f.idValid || f.nextAttemptId in seen { return Failure(Invalid); }
      var nextManifest := current.(attemptId := f.nextAttemptId);
      if current.frozen != nextManifest.frozen || !f.manifestValid || !f.instructionFits { return Failure(Invalid); }
      var next := Record(f.nextAttemptId, current.attemptId, ordinal + 1, round + 1, nextManifest, RunningOutcome, None);
      var ok := store.CommitRepairTransition(Transition(terminal, Some(next)), f.commits);
      if !ok { return Failure(Persistence); }
      r := Success(Plan(nextManifest, round + 1, current.attemptId, f.reason));
      parent := current.attemptId;
      current := nextManifest;
      ordinal := ordinal + 1;
      round := round + 1;
      seen := seen + {f.nextAttemptId};
    }
  }

  // ---------- Lineages ----------

  function RunFrom(s: State, fs: seq<Failed>): State {
    if fs == [] then s else Handle(RunFrom(s, fs[..|fs| - 1]), fs[|fs| - 1]).0
  }

  /** The id of attempt `i`, counted from zero. */
  function AttemptId(s: State, i: nat): string
    requires i <= |s.log|
  {
    if i < |s.log| then s.log[i].terminal.attemptId else s.current.attemptId
  }

  /** The number of attempts ever started. */
  function Attempts(s: State): nat {
    if s.closed then |s.log| else |s.log| + 1
  }

  /** One linked chain of attempts, ended one after the other. */
  ghost predicate Lineage(initial: Manifest, s: State) {
    && (s.closed ==> s.log != [] && s.log[|s.log| - 1].next == None && s.log[|s.log| - 1].terminal.attemptId == s.current.attemptId)
    && s.ordinal == Attempts(s) && s.round == s.ordinal - 1 && s.round <= Cap(s.maxRounds)
    && s.current.frozen == initial.frozen && AttemptId(s, 0) == initial.attemptId
    && (forall i | 0 <= i < |s.log| :: TerminalOk(initial, s, i))
    && (forall i | 0 <= i < Attempts(s) - 1 :: LinkOk(initial, s, i))
    && (forall i, j | 0 <= i < j < Attempts(s) :: AttemptId(s, i) != AttemptId(s, j))
    && s.seen == (set i | 0 <= i < Attempts(s) :: AttemptId(s, i))
    && s.parent == (if s.ordinal == 1 then "" else AttemptId(s, s.ordinal - 2))
  }

  function Cap(maxRounds: int): nat { if maxRounds < 0 then 0 else maxRounds }

  /** Attempt `i` ends as attempt `i`: contiguous numbers, its own manifest, the attempt before it as parent. */
  ghost predicate TerminalOk(initial: Manifest, s: State, i: nat)
    requires i < |s.log|
  {
    var t := s.log[i].terminal;
    && t.ordinal == i + 1 && t.repairRound == i && t.outcome == FailedOutcome
    && t.manifest == Manifest(t.attemptId, initial.frozen)
    && t.parentAttemptId == if i == 0 then "" else s.log[i - 1].terminal.attemptId
  }

  /** The end of attempt `i` starts attempt `i + 1`, after a repairable failure, with nothing but the id changed. */
  ghost predicate LinkOk(initial: Manifest, s: State, i: nat)
    requires i < |s.log|
  {
    var id := AttemptId(s, i + 1);
    && s.log[i].terminal.reason.Some? && Repairable(s.log[i].terminal.reason.value)
    && s.log[i].next == Some(Record(id, s.log[i].terminal.attemptId, i + 2, i + 1, Manifest(id, initial.frozen), RunningOutcome, None))
  }

  lemma FreshLineage(initial: Manifest, maxRounds: int)
    ensures Lineage(initial, Fresh(initial, maxRounds))
  {
    var s := Fresh(initial, maxRounds);
    assert AttemptId(s, 0) == initial.attemptId;
  }

  /** A call either changes nothing or adds exactly one ended attempt. */
  lemma HandleEffect(s: State, f: Failed)
    ensures var (s', r) := Handle(s, f);
      s' == s || (!s.closed && f.commits && |s'.log| == |s.log| + 1 && s'.log[..|s.log|] == s.log && s'.log[|s.log|].terminal == Terminal(s, f.reason))
    ensures Handle(s, f).1.Success? <==> Handle(s, f).0.round == s.round + 1
    ensures s.closed ==> Handle(s, f) == (s, Failure(Closed))
    ensures !f.commits ==> Handle(s, f).0 == s
  {
  }

  /** Ended attempts stay as they are, and the one that ends now is linked like the others. */
  lemma HandleLinks(initial: Manifest, s: State, f: Failed)
    requires Lineage(initial, s) && Handle(s, f).0 != s
    ensures var s' := Handle(s, f).0;
      && (forall i | 0 <= i <= |s.log| :: AttemptId(s', i) == AttemptId(s, i))
      && (forall i | 0 <= i < |s'.log| :: TerminalOk(initial, s', i))
      && (forall i | 0 <= i < Attempts(s') - 1 :: LinkOk(initial, s', i))
  {
    var s' := Handle(s, f).0;
    HandleEffect(s, f);
    forall i | 0 <= i < |s'.log| ensures TerminalOk(initial, s', i) {
      if i < |s.log| { assert TerminalOk(initial, s, i); }
    }
    forall i | 0 <= i < Attempts(s') - 1 ensures LinkOk(initial, s', i) {
      if i < |s.log| { assert LinkOk(initial, s, i); }
    }
  }

  lemma SeenGrows(s: State, s': State, id: string)
    requires s.seen == (set i | 0 <= i < Attempts(s) :: AttemptId(s, i)) && s'.seen == s.seen + {id}
    requires Attempts(s') == Attempts(s) + 1 && AttemptId(s', Attempts(s)) == id
    requires forall i | 0 <= i < Attempts(s) :: AttemptId(s', i) == AttemptId(s, i)
    ensures s'.seen == (set i | 0 <= i < Attempts(s') :: AttemptId(s', i))
  {
    hide AttemptId;
    var ids := set i | 0 <= i < Attempts(s') :: AttemptId(s', i);
    forall x ensures x in ids <==> x in s'.seen {
      if x in s.seen {
        var i :| 0 <= i < Attempts(s) && AttemptId(s, i) == x;
        assert AttemptId(s', i) == x;
      }
    }
  }

  /** The id that was fresh when its attempt started differs from all before it. */
  lemma NewAttempt(initial: Manifest, s: State, f: Failed)
    requires Lineage(initial, s) && Handle(s, f).0 != s && !Handle(s, f).0.closed
    ensures var s' := Handle(s, f).0;
      && AttemptId(s', |s.log| + 1) == f.nextAttemptId
      && (forall i | 0 <= i <= |s.log| :: AttemptId(s', i) == AttemptId(s, i) != f.nextAttemptId)
      && s'.seen == (set i | 0 <= i < Attempts(s') :: AttemptId(s', i))
  {
    hide TerminalOk, LinkOk;
    var s' := Handle(s, f).0;
    forall i | 0 <= i <= |s.log| ensures AttemptId(s', i) == AttemptId(s, i) != f.nextAttemptId {
      assert AttemptId(s, i) in s.seen;
    }
    SeenGrows(s, s', f.nextAttemptId);
  }

  lemma HandleKeepsLineage(initial: Manifest, s: State, f: Failed)
    requires Lineage(initial, s)
    ensures Lineage(initial, Handle(s, f).0)
  {
    hide TerminalOk, LinkOk;
    var s' := Handle(s, f).0;
    if s' != s {
      HandleLinks(initial, s, f);
      if !s'.closed { NewAttempt(initial, s, f); }
    }
  }

  /** Whatever failures arrive, the controller's state and log form one bounded, linked, duplicate-free lineage. */
  lemma {:induction false} EveryRunIsALineage(initial: Manifest, maxFormatRepairs: int, maxProviderTurns: int, fs: seq<Failed>)
    ensures
      var s := RunFrom(Fresh(initial, MaxRounds(maxFormatRepairs, maxProviderTurns)), fs);
      Lineage(initial, s) && s.maxRounds == MaxRounds(maxFormatRepairs, maxProviderTurns)
      && s.round <= 3 && (maxFormatRepairs >= 0 ==> s.round <= maxFormatRepairs) && (maxProviderTurns >= 1 ==> s.round <= maxProviderTurns - 1)
  {
    var start := Fresh(initial, MaxRounds(maxFormatRepairs, maxProviderTurns));
    if fs == [] {
      FreshLineage(initial, start.maxRounds);
    } else {
      var before := fs[..|fs| - 1];
      EveryRunIsALineage(initial, maxFormatRepairs, maxProviderTurns, before);
      HandleKeepsLineage(initial, RunFrom(start, before), fs[|fs| - 1]);
    }
  }

  /** Closed is absorbing, and the log is append-only: later calls never rewrite an ended attempt. */
  lemma {:induction false} LogIsAppendOnly(s: State, fs: seq<Failed>, more: seq<Failed>)
    ensures RunFrom(s, fs).log <= RunFrom(s, fs + more).log
    ensures RunFrom(s, fs).closed ==> RunFrom(s, fs + more) == RunFrom(s, fs)
  {
    if more == [] {
      assert fs + more == fs;
    } else {
      var m, last := more[..|more| - 1], more[|more| - 1];
      LogIsAppendOnly(s, fs, m);
      assert fs + more == (fs + m) + [last];
      HandleEffect(RunFrom(s, fs + m), last);
    }
  }

  /** In a lineage no attempt is ended twice. */
  lemma OneEndPerAttempt(initial: Manifest, s: State, i: nat, j: nat)
    requires Lineage(initial, s) && i < |s.log| && j < |s.log|
    ensures s.log[i].terminal.attemptId == s.log[j].terminal.attemptId <==> i == j
  {
    assert AttemptId(s, i) == s.log[i].terminal.attemptId && AttemptId(s, j) == s.log[j].terminal.attemptId;
  }

  // ---------- The answers of a run, from the calls alone ----------

  /** What call `i` is answered. */
  function Answer(s: State, fs: seq<Failed>, i: nat): Result<Plan, Error>
    requires i < |fs|
  {
    Handle(RunFrom(s, fs[..i]), fs[i]).1
  }

  /** The calls before call `i` that were answered with a plan. */
  ghost function Planned(s: State, fs: seq<Failed>, i: nat): set<nat>
    requires i <= |fs|
  {
    set j: nat | j < i && Answer(s, fs, j).Success?
  }

  /** Some call before call `i` ended the lineage. */
  ghost predicate Ended(s: State, fs: seq<Failed>, i: nat)
    requires i <= |fs|
  {
    exists j: nat :: j < i && (Answer(s, fs, j) == Failure(NotAllowed) || Answer(s, fs, j) == Failure(Exhausted))
  }

  /** The attempt that is running before call `i`: the one of the latest plan. */
  ghost predicate RunningAttempt(s: State, fs: seq<Failed>, i: nat, initial: Manifest, id: string)
    requires i <= |fs|
  {
    || (id == initial.attemptId && Planned(s, fs, i) == {})
    || exists j: nat :: j in Planned(s, fs, i) && id == fs[j].nextAttemptId && forall k | k in Planned(s, fs, i) :: k <= j
  }

  /** What the state remembers of the calls so far. */
  ghost predicate Remembers(initial: Manifest, start: State, fs: seq<Failed>, i: nat)
    requires i <= |fs|
  {
    var s := RunFrom(start, fs[..i]);
    && (s.closed <==> Ended(start, fs, i)) && s.round == |Planned(start, fs, i)| && s.maxRounds == start.maxRounds
    && s.seen == {initial.attemptId} + (set j | j in Planned(start, fs, i) :: fs[j].nextAttemptId)
    && s.current.frozen == initial.frozen && RunningAttempt(start, fs, i, initial, s.current.attemptId)
  }

  lemma PlannedGrows(s: State, fs: seq<Failed>, i: nat)
    requires i < |fs|
    ensures Planned(s, fs, i + 1) == Planned(s, fs, i) + (if Answer(s, fs, i).Success? then {i} else {})
    ensures forall j | j in Planned(s, fs, i) :: j < i
    ensures Ended(s, fs, i + 1) <==> Ended(s, fs, i) || Answer(s, fs, i) == Failure(NotAllowed) || Answer(s, fs, i) == Failure(Exhausted)
  {
    hide Answer;
  }

  /** The effect of a call in terms of its answer. */
  lemma AnswerEffect(s: State, f: Failed)
    ensures var (s', r) := Handle(s, f);
      && s'.maxRounds == s.maxRounds && s'.current.frozen == s.current.frozen
      && (s'.closed <==> s.closed || r == Failure(NotAllowed) || r == Failure(Exhausted))
      && s'.round == (if r.Success? then s.round + 1 else s.round)
      && s'.seen == (if r.Success? then s.seen + {f.nextAttemptId} else s.seen)
      && s'.current.attemptId == if r.Success? then f.nextAttemptId else s.current.attemptId
  {
  }

  lemma {:induction false} RunRemembers(initial: Manifest, maxRounds: int, fs: seq<Failed>, i: nat)
    requires i <= |fs|
    ensures Remembers(initial, Fresh(initial, maxRounds), fs, i)
  {
    hide Answer, Handle;
    var start := Fresh(initial, maxRounds);
    if i == 0 {
      assert fs[..0] == [] && Planned(start, fs, 0) == {};
    } else {
      RunRemembers(initial, maxRounds, fs, i - 1);
      RemembersOn(initial, start, fs, i - 1);
    }
  }

  lemma RemembersOn(initial: Manifest, start: State, fs: seq<Failed>, i: nat)
    requires i < |fs| && Remembers(initial, start, fs, i)
    ensures Remembers(initial, start, fs, i + 1)
  {
    hide Handle, Planned, Ended;
    var s := RunFrom(start, fs[..i]);
    assert fs[..i + 1][..i] == fs[..i];
    PlannedGrows(start, fs, i);
    AnswerEffect(s, fs[i]);
    assert RunFrom(start, fs[..i + 1]) == Handle(s, fs[i]).0;
    if Answer(start, fs, i).Success? {
      assert i in Planned(start, fs, i + 1);
    } else {
      assert Planned(start, fs, i + 1) == Planned(start, fs, i);
    }
  }

  predicate OfFormat(f: Failed) {
    f.reason == JsonRepresentation || f.reason == Schema
  }

  /** After so many plans one more is within the limits. */
  predicate Room(planned: nat, maxFormatRepairs: int, maxProviderTurns: int) {
    planned < 3 && planned < maxFormatRepairs && planned < maxProviderTurns - 1
  }

  /** The proposed attempt is acceptable and its id differs from the first one and from those of all plans before. */
  ghost predicate Fits(initial: Manifest, start: State, fs: seq<Failed>, i: nat)
    requires i < |fs|
  {
    && fs[i].idValid && fs[i].manifestValid && fs[i].instructionFits && fs[i].nextAttemptId != initial.attemptId
    && forall j | j in Planned(start, fs, i) :: fs[i].nextAttemptId != fs[j].nextAttemptId
  }

  /** A repair is planned exactly while the lineage is open, fewer than three and fewer than both limits have been planned,
      the failure is one of format and the attempt id is new; every other answer has its own exact condition. */
  lemma AnswersExactly(initial: Manifest, maxFormatRepairs: int, maxProviderTurns: int, start: State, fs: seq<Failed>, i: nat)
    requires i < |fs| && start == Fresh(initial, MaxRounds(maxFormatRepairs, maxProviderTurns))
    ensures
      var f, r, open := fs[i], Answer(start, fs, i), !Ended(start, fs, i);
      var room, fits := Room(|Planned(start, fs, i)|, maxFormatRepairs, maxProviderTurns), Fits(initial, start, fs, i);
      && (r.Success? <==> open && f.responseValid && OfFormat(f) && room && fits && f.commits)
      && (r == Failure(Closed) <==> !open)
      && (r == Failure(Invalid) <==> open && (!f.responseValid || (OfFormat(f) && room && !fits)))
      && (r == Failure(NotAllowed) <==> open && f.responseValid && !OfFormat(f) && f.commits)
      && (r == Failure(Exhausted) <==> open && f.responseValid && OfFormat(f) && !room && f.commits)
      && (r == Failure(Persistence) <==> open && f.responseValid && (OfFormat(f) && room ==> fits) && !f.commits)
  {
    hide Planned, Ended, RunningAttempt;
    RunRemembers(initial, start.maxRounds, fs, i);
  }

  /** The plan repairs the running attempt: the same manifest under the new id, counted one further. */
  lemma PlansTheNextAttempt(initial: Manifest, maxRounds: int, fs: seq<Failed>, i: nat)
    requires i < |fs| && Answer(Fresh(initial, maxRounds), fs, i).Success?
    ensures
      var start := Fresh(initial, maxRounds);
      var plan := Answer(start, fs, i).value;
      && plan.manifest == Manifest(fs[i].nextAttemptId, initial.frozen) && plan.reason == fs[i].reason
      && plan.round == |Planned(start, fs, i)| + 1 && RunningAttempt(start, fs, i, initial, plan.parentAttemptId)
  {
    hide Planned, Ended, RunningAttempt;
    RunRemembers(initial, maxRounds, fs, i);
  }
}
