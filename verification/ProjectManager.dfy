/** The single active project, its maintenance sessions and its one-use selection tokens. */
module ProjectManager {
  import opened Wrappers

  datatype Error = InvalidSelection | ActiveProject | ProjectLocked | CloseBlocked | InMaintenance | OpenFailed | RecordFailed | CloseFailed | UnlockFailed

  /** Selection tokens: a directory and an expiry each. */
  datatype TokenValue = TokenValue(directory: string, expires: int)

  type Tokens = map<string, TokenValue>

  function Issued(ts: Tokens, token: string, directory: string, expires: int): Tokens {
    ts[token := TokenValue(directory, expires)]
  }

  /** Whatever the outcome, the token is gone afterwards. */
  function Consumed(ts: Tokens, token: string, now: int): (Tokens, Result<string, Error>) {
    (ts - {token}, if token in ts && now < ts[token].expires then Success(ts[token].directory) else Failure(InvalidSelection))
  }

  class TokenStore {
    var values: Tokens
    const ttl: int

    constructor (ttl: int)
      ensures values == map[] && this.ttl == ttl
    {
      values, this.ttl := map[], ttl;
    }

    method Issue(token: string, directory: string, now: int)
      modifies this
      ensures values == Issued(old(values), token, directory, now + ttl)
    {
      values := values[token := TokenValue(directory, now + ttl)];
    }

    method Consume(token: string, now: int) returns (r: Result<string, Error>)
      modifies this
      ensures (values, r) == Consumed(old(values), token, now)
    {
      var found, v := false, TokenValue("", 0);
      if token in values { found, v := true, values[token]; }
      values := values - {token};
      if !found || !(now < v.expires) { return Failure(InvalidSelection); }
      r := Success(v.directory);
    }
  }

  // ---------- The manager ----------

  /** The active project; `handle` is the id of its database, if any, `open` whether that has not been closed, `lock` the held lock. */
  datatype Active = Active(id: string, path: string, handle: Option<string>, open: bool, lock: nat)

  datatype Maintenance = Maintenance(projectId: string, nonInterruptible: bool, restoredTarget: bool)

  /** `locks` are the project locks this process holds. */
  datatype State = State(active: Option<Active>, maintenance: Option<Maintenance>, locks: set<nat>, nextLock: nat)

  datatype Session = Session(projectId: string, path: string, closed: bool)

  /** How the world answers an installation: the lock, the id of the opened project, the recent list, and giving the lock back. */
  datatype Opening = Opening(lockFree: bool, handleId: Option<string>, recorded: bool, unlocks: bool)

  /** Whether closing the handle and giving back the lock work. */
  datatype Closing = Closing(closes: bool, unlocks: bool)

  function Installed(s: State, directory: Result<string, Error>, o: Opening): (State, Result<string, Error>) {
    match directory
    case Failure(e) => (s, Failure(e))
    case Success(path) =>
      var taken := s.(nextLock := s.nextLock + 1, locks := if o.unlocks then s.locks else s.locks + {s.nextLock});
      if !o.lockFree then (s, Failure(ProjectLocked))
      else if o.handleId.None? then (taken, Failure(OpenFailed))
      else if !o.recorded then (taken, Failure(RecordFailed))
      else
        (State(Some(Active(o.handleId.value, path, o.handleId, true, s.nextLock)), s.maintenance, s.locks + {s.nextLock}, s.nextLock + 1),
         Success(o.handleId.value))
  }

  /** Closing dereferences the handle: `Panic` is that dereference failing. */
  datatype Outcome = Done | Refused(error: Error) | Panic

  function ClosedProject(s: State, guardPasses: bool, c: Closing): (State, Outcome) {
    if s.active.None? then (s, Done)
    else if s.maintenance.Some? then (s, Refused(InMaintenance))
    else if !guardPasses then (s, Refused(CloseBlocked))
    else if s.active.value.handle.None? then (s, Panic)
    else if !c.closes then (s, Refused(CloseFailed))
    else if !c.unlocks then (s.(active := Some(s.active.value.(open := false))), Refused(UnlockFailed))
    else (s.(active := None, locks := s.locks - {s.active.value.lock}), Done)
  }

  function MaintenanceAcquired(s: State, projectId: string, guardPasses: bool): (State, Option<Session>) {
    if s.active.None? || s.active.value.id != projectId || s.active.value.handle.None? || s.maintenance.Some? then (s, None)
    else if !guardPasses then (s, None)
    else (s.(maintenance := Some(Maintenance(projectId, false, false))), Some(Session(projectId, s.active.value.path, false)))
  }

  /** The caller's lock on the restored directory becomes the project lock. */
  function RestoredTargetAcquired(s: State, projectId: string, path: string): (State, Option<Session>) {
    if path == "" || s.active.Some? || s.maintenance.Some? then (s, None)
    else
      (State(Some(Active(projectId, path, None, false, s.nextLock)), Some(Maintenance(projectId, false, true)), s.locks + {s.nextLock}, s.nextLock + 1),
       Some(Session(projectId, path, false)))
  }

  predicate Governs(s: State, session: Session) {
    s.maintenance.Some? && s.maintenance.value.projectId == session.projectId
  }

  function MarkedNonInterruptible(s: State, session: Session): (State, Outcome) {
    if !Governs(s, session) then (s, Refused(InMaintenance))
    else (s.(maintenance := Some(s.maintenance.value.(nonInterruptible := true))), Done)
  }

  function ConnectionsClosed(s: State, session: Session, prepared: bool, closes: bool): (State, Outcome) {
    if !Governs(s, session) || s.active.None? then (s, Refused(InMaintenance))
    else if s.active.value.handle.None? && s.maintenance.value.restoredTarget then (s, Done)
    else if s.active.value.handle.None? then (s, Refused(InMaintenance))
    else if !prepared then (s, Refused(CloseBlocked))
    else if !closes then (s, Refused(CloseFailed))
    else (s.(active := Some(s.active.value.(handle := None, open := false))), Done)
  }

  function Reopened(s: State, session: Session, handleId: Option<string>, recorded: bool): (State, Result<string, Error>) {
    if !Governs(s, session) || s.active.None? || s.active.value.handle.Some? then (s, Failure(InMaintenance))
    else if handleId.None? then (s, Failure(OpenFailed))
    else if handleId.value != session.projectId then (s, Failure(InMaintenance))
    else if s.maintenance.value.restoredTarget && !recorded then (s, Failure(RecordFailed))
    else (s.(active := Some(s.active.value.(handle := handleId, open := true))), Success(handleId.value))
  }

  function SessionReleased(s: State, session: Session, unlocks: bool): (State, Session, Outcome) {
    if session.closed then (s, session, Done)
    else if !Governs(s, session) || s.active.None? then (s, session, Refused(InMaintenance))
    else if s.active.value.handle.Some? then (s.(maintenance := None), session.(closed := true), Done)
    else if !s.maintenance.value.restoredTarget then (s, session, Refused(InMaintenance))
    else if !unlocks then (s, session, Refused(UnlockFailed))
    else (s.(active := None, maintenance := None, locks := s.locks - {s.active.value.lock}), session.(closed := true), Done)
  }

  class Manager {
    const tokens: TokenStore
    var active: Option<Active>
    var maintenance: Option<Maintenance>
    var locks: set<nat>
    var nextLock: nat

    function View(): State
      reads this
    {
      State(active, maintenance, locks, nextLock)
    }

    constructor (tokens: TokenStore)
      ensures this.tokens == tokens && View() == State(None, None, {}, 0)
    {
      this.tokens := tokens;
      active, maintenance, locks, nextLock := None, None, {}, 0;
    }

    method Install(token: string, now: int, o: Opening) returns (r: Result<string, Error>)
      requires nextLock !in locks
      modifies this, tokens
      ensures old(active).Some? || old(maintenance).Some? ==>
        r == Failure(ActiveProject) && View() == old(View()) && tokens.values == old(tokens.values)
      ensures old(active).None? && old(maintenance).None? ==>
        var (values, directory) := Consumed(old(tokens.values), token, now);
        tokens.values == values && (View(), r) == Installed(old(View()), directory, o)
    {
      if active.Some? || maintenance.Some? { return Failure(ActiveProject); }
      var directory := tokens.Consume(token, now);
      if directory.Failure? { return directory; }
      if !o.lockFree { return Failure(ProjectLocked); }
      var lock := nextLock;
      nextLock := nextLock + 1;
      locks := locks + {lock};
      if o.handleId.None? {
        GiveBack(lock, o.unlocks);
        return Failure(OpenFailed);
      }
      active := Some(Active(o.handleId.value, directory.value, o.handleId, true, lock));
      if !o.recorded {
        GiveBack(lock, o.unlocks);
        active := None;
        return Failure(RecordFailed);
      }
      r := Success(o.handleId.value);
    }

    /** Gives the lock back, or fails to. */
    method GiveBack(lock: nat, works: bool)
      modifies this`locks
      ensures locks == if works then old(locks) - {lock} else old(locks)
    {
      if works { locks := locks - {lock}; }
    }

    method ActiveHandle() returns (handle: Option<string>)
      ensures handle == if active.None? || maintenance.Some? then None else active.value.handle
    {
      if active.None? || maintenance.Some? || active.value.handle.None? { return None; }
      handle := active.value.handle;
    }

    method Close(guardPasses: bool, c: Closing) returns (o: Outcome)
      modifies this
      ensures (View(), o) == ClosedProject(old(View()), guardPasses, c)
    {
      if active.None? { return Done; }
      if maintenance.Some? { return Refused(InMaintenance); }
      if !guardPasses { return Refused(CloseBlocked); }
      if active.value.handle.None? { return Panic; }
      if !c.closes { return Refused(CloseFailed); }
      GiveBack(active.value.lock, c.unlocks);
      if !c.unlocks {
        active := Some(active.value.(open := false));
        return Refused(UnlockFailed);
      }
      active := None;
      o := Done;
    }

    method AcquireMaintenance(projectId: string, guardPasses: bool) returns (session: MaintenanceSession?)
      modifies this
      ensures
        var (s, made) := MaintenanceAcquired(old(View()), projectId, guardPasses);
        View() == s && (made.None? <==> session == null)
        && (session != null ==> fresh(session) && session.manager == this && session.View() == made.value)
    {
      if active.None? || active.value.id != projectId || active.value.handle.None? || maintenance.Some? { return null; }
      if !guardPasses { return null; }
      maintenance := Some(Maintenance(projectId, false, false));
      session := new MaintenanceSession(this, projectId, active.value.path);
    }

    method AcquireRestoredTarget(projectId: string, path: string) returns (session: MaintenanceSession?)
      modifies this
      ensures
        var (s, made) := RestoredTargetAcquired(old(View()), projectId, path);
        View() == s && (made.None? <==> session == null)
        && (session != null ==> fresh(session) && session.manager == this && session.View() == made.value)
    {
      if path == "" || active.Some? || maintenance.Some? { return null; }
      active := Some(Active(projectId, path, None, false, nextLock));
      locks := locks + {nextLock};
      nextLock := nextLock + 1;
      maintenance := Some(Maintenance(projectId, false, true));
      session := new MaintenanceSession(this, projectId, path);
    }
  }

  class MaintenanceSession {
    const manager: Manager
    const projectId: string
    const path: string
    var closed: bool

    function View(): Session
      reads this
    {
      Session(projectId, path, closed)
    }

    constructor (manager: Manager, projectId: string, path: string)
      ensures this.manager == manager && View() == Session(projectId, path, false)
    {
      this.manager, this.projectId, this.path, closed := manager, projectId, path, false;
    }

    method MarkNonInterruptible() returns (o: Outcome)
      modifies manager
      ensures (manager.View(), o) == MarkedNonInterruptible(old(manager.View()), old(View()))
    {
      if manager.maintenance.None? || manager.maintenance.value.projectId != projectId { return Refused(InMaintenance); }
      manager.maintenance := Some(manager.maintenance.value.(nonInterruptible := true));
      o := Done;
    }

    method CloseConnections(prepared: bool, closes: bool) returns (o: Outcome)
      modifies manager
      ensures (manager.View(), o) == ConnectionsClosed(old(manager.View()), old(View()), prepared, closes)
    {
      if manager.maintenance.None? || manager.maintenance.value.projectId != projectId || manager.active.None? { return Refused(InMaintenance); }
      if manager.active.value.handle.None? && manager.maintenance.value.restoredTarget { return Done; }
      if manager.active.value.handle.None? { return Refused(InMaintenance); }
      if !prepared { return Refused(CloseBlocked); }
      if !closes { return Refused(CloseFailed); }
      manager.active := Some(manager.active.value.(handle := None, open := false));
      o := Done;
    }

    method Reopen(handleId: Option<string>, recorded: bool) returns (r: Result<string, Error>)
      modifies manager
      ensures (manager.View(), r) == Reopened(old(manager.View()), old(View()), handleId, recorded)
    {
      if manager.maintenance.None? || manager.maintenance.value.projectId != projectId || manager.active.None?
         || manager.active.value.handle.Some? {
        return Failure(InMaintenance);
      }
      if handleId.None? { return Failure(OpenFailed); }
      if handleId.value != projectId { return Failure(InMaintenance); }
      if manager.maintenance.value.restoredTarget && !recorded { return Failure(RecordFailed); }
      manager.active := Some(manager.active.value.(handle := handleId, open := true));
      r := Success(handleId.value);
    }

    method Release(unlocks: bool) returns (o: Outcome)
      modifies this, manager
      ensures (manager.View(), View(), o) == SessionReleased(old(manager.View()), old(View()), unlocks)
    {
      if closed { return Done; }
      if manager.maintenance.None? || manager.maintenance.value.projectId != projectId || manager.active.None? { return Refused(InMaintenance); }
      if manager.active.value.handle.None? {
        if !manager.maintenance.value.restoredTarget { return Refused(InMaintenance); }
        manager.GiveBack(manager.active.value.lock, unlocks);
        if !unlocks { return Refused(UnlockFailed); }
        manager.active := None;
        manager.maintenance := None;
        closed := true;
        return Done;
      }
      manager.maintenance := None;
      closed := true;
      o := Done;
    }
  }

  // ---------- Runs over one manager, its tokens and all sessions ever handed out ----------

  /** `issued` and `used` record which tokens were ever issued and ever consumed successfully, `leaked` the locks that refused installations kept. */
  datatype System = System(
    manager: State, sessions: seq<Session>, tokens: Tokens, issued: map<string, int>, used: set<string>, leaked: set<nat>)

  datatype Step =
    | Issues(token: string, directory: string, expires: int)
    | Installs(token: string, now: int, opening: Opening)
    | Closes(guardPasses: bool, closing: Closing)
    | AcquiresMaintenance(projectId: string, guardPasses: bool)
    | AcquiresRestoredTarget(projectId: string, path: string)
    | Marks(session: nat)
    | ClosesConnections(session: nat, prepared: bool, closes: bool)
    | Reopens(session: nat, handleId: Option<string>, recorded: bool)
    | Releases(session: nat, unlocks: bool)

  /** Random tokens never repeat; session operations need a session. */
  predicate Enabled(s: System, step: Step) {
    match step
    case Issues(token, directory, expires) => token !in s.issued
    case Marks(i) => i < |s.sessions|
    case ClosesConnections(i, prepared, closes) => i < |s.sessions|
    case Reopens(i, handleId, recorded) => i < |s.sessions|
    case Releases(i, unlocks) => i < |s.sessions|
    case _ => true
  }

  /** An installation that took the lock, failed, and failed to give the lock back; the code ignores that failure. */
  predicate Leaks(s: System, step: Step) {
    && step.Installs? && s.manager.active.None? && s.manager.maintenance.None?
    && Consumed(s.tokens, step.token, step.now).1.Success?
    && step.opening.lockFree && (step.opening.handleId.None? || !step.opening.recorded) && !step.opening.unlocks
  }

  function WithSession(s: System, made: (State, Option<Session>)): System {
    s.(manager := made.0, sessions := if made.1.Some? then s.sessions + [made.1.value] else s.sessions)
  }

  function Next(s: System, step: Step): System
    requires Enabled(s, step)
  {
    match step
    case Issues(token, directory, expires) =>
      s.(tokens := Issued(s.tokens, token, directory, expires), issued := s.issued[token := expires])
    case Installs(token, now, o) =>
      if s.manager.active.Some? || s.manager.maintenance.Some? then s
      else
        var (tokens, directory) := Consumed(s.tokens, token, now);
        s.(manager := Installed(s.manager, directory, o).0, tokens := tokens,
           used := if directory.Success? then s.used + {token} else s.used,
           leaked := if Leaks(s, step) then s.leaked + {s.manager.nextLock} else s.leaked)
    case Closes(guardPasses, c) => s.(manager := ClosedProject(s.manager, guardPasses, c).0)
    case AcquiresMaintenance(projectId, guardPasses) => WithSession(s, MaintenanceAcquired(s.manager, projectId, guardPasses))
    case AcquiresRestoredTarget(projectId, path) => WithSession(s, RestoredTargetAcquired(s.manager, projectId, path))
    case Marks(i) => s.(manager := MarkedNonInterruptible(s.manager, s.sessions[i]).0)
    case ClosesConnections(i, prepared, closes) => s.(manager := ConnectionsClosed(s.manager, s.sessions[i], prepared, closes).0)
    case Reopens(i, handleId, recorded) => s.(manager := Reopened(s.manager, s.sessions[i], handleId, recorded).0)
    case Releases(i, unlocks) =>
      var (manager, session, o) := SessionReleased(s.manager, s.sessions[i], unlocks);
      s.(manager := manager, sessions := s.sessions[i := session])
  }

  function ActiveLock(s: State): set<nat> {
    if s.active.Some? then {s.active.value.lock} else {}
  }

  /** The lock of the active project and the leaked ones; maintenance is of that project; only maintenance may lack a handle. */
  ghost predicate ManagerOk(s: State, leaked: set<nat>) {
    && s.locks == ActiveLock(s) + leaked && ActiveLock(s) !! leaked
    && (forall l | l in s.locks :: l < s.nextLock)
    && (s.maintenance.Some? ==> s.active.Some? && s.active.value.id == s.maintenance.value.projectId)
    && (s.active.Some? && s.active.value.handle.None? ==> s.maintenance.Some?)
    && (s.active.Some? && s.active.value.handle.Some? ==> s.active.value.handle.value == s.active.value.id)
  }

  /** The sessions not yet released. */
  ghost function OpenSessions(s: System): set<nat> {
    set i | 0 <= i < |s.sessions| && !s.sessions[i].closed
  }

  ghost predicate SessionsOk(s: System) {
    && (s.manager.maintenance.None? ==> OpenSessions(s) == {})
    && (s.manager.maintenance.Some? ==> exists i :: OpenSessions(s) == {i} && s.sessions[i].projectId == s.manager.maintenance.value.projectId)
  }

  ghost predicate TokensOk(s: System) {
    && (forall t | t in s.tokens :: t in s.issued && s.tokens[t].expires == s.issued[t] && t !in s.used)
    && (forall t | t in s.used :: t in s.issued)
  }

  ghost predicate SystemOk(s: System) {
    ManagerOk(s.manager, s.leaked) && SessionsOk(s) && TokensOk(s)
  }

  lemma StepKeepsManager(s: System, step: Step)
    requires SystemOk(s) && Enabled(s, step)
    ensures ManagerOk(Next(s, step).manager, Next(s, step).leaked) && TokensOk(Next(s, step))
  {
    hide SessionsOk;
  }

  lemma StepKeepsSessions(s: System, step: Step)
    requires SystemOk(s) && Enabled(s, step)
    ensures SessionsOk(Next(s, step))
  {
    hide TokensOk;
    var s' := Next(s, step);
    if |s'.sessions| == |s.sessions| + 1 {
      assert s'.sessions[|s.sessions|] == s'.sessions[|s'.sessions| - 1];
      assert OpenSessions(s) == {};
      assert forall i | 0 <= i < |s.sessions| :: i !in OpenSessions(s) && s'.sessions[i] == s.sessions[i];
      assert OpenSessions(s') == {|s.sessions|};
    } else if step.Releases? && s'.manager.maintenance != s.manager.maintenance {
      var i :| OpenSessions(s) == {i} && s.sessions[i].projectId == s.manager.maintenance.value.projectId;
      assert step.session in OpenSessions(s);
      forall j | 0 <= j < |s'.sessions| ensures s'.sessions[j].closed {
        if j != i { assert j !in OpenSessions(s); }
      }
    } else {
      assert s'.sessions == s.sessions;
      assert OpenSessions(s') == OpenSessions(s);
    }
  }

  const START := System(State(None, None, {}, 0), [], map[], map[], {}, {})

  ghost predicate Run(h: seq<System>, steps: seq<Step>) {
    && |h| == |steps| + 1 && h[0] == START
    && forall i | 0 <= i < |steps| :: Enabled(h[i], steps[i]) && h[i + 1] == Next(h[i], steps[i])
  }

  lemma {:induction false} RunOk(h: seq<System>, steps: seq<Step>, i: nat)
    requires Run(h, steps) && i < |h|
    ensures SystemOk(h[i])
  {
    hide SystemOk, Next, Enabled;
    if i == 0 {
      StartOk();
    } else {
      RunOk(h, steps, i - 1);
      StepOk(h[i - 1], steps[i - 1]);
    }
  }

  lemma StartOk()
    ensures SystemOk(START)
  {
  }

  lemma StepOk(s: System, step: Step)
    requires SystemOk(s) && Enabled(s, step)
    ensures SystemOk(Next(s, step))
  {
    hide ManagerOk, SessionsOk, TokensOk;
    StepKeepsManager(s, step);
    StepKeepsSessions(s, step);
  }

  /** At every moment: one unreleased session iff in maintenance, always of the active project, and outside maintenance its handle. */
  lemma OneProjectOneSession(h: seq<System>, steps: seq<Step>, i: nat)
    requires Run(h, steps) && i < |h|
    ensures h[i].manager.locks == ActiveLock(h[i].manager) + h[i].leaked && ActiveLock(h[i].manager) !! h[i].leaked
    ensures |OpenSessions(h[i])| == if h[i].manager.maintenance.Some? then 1 else 0
    ensures h[i].manager.maintenance.Some? ==> h[i].manager.active.Some? && h[i].manager.active.value.id == h[i].manager.maintenance.value.projectId
    ensures h[i].manager.active.Some? && h[i].manager.maintenance.None? ==> h[i].manager.active.value.handle == Some(h[i].manager.active.value.id)
  {
    RunOk(h, steps, i);
  }

  lemma {:induction false} LeaksAreCounted(h: seq<System>, steps: seq<Step>, i: nat)
    requires Run(h, steps) && i < |h|
    ensures h[i].leaked == {} <==> forall j | 0 <= j < i :: !Leaks(h[j], steps[j])
  {
    hide Leaks;
    if i > 0 {
      LeaksAreCounted(h, steps, i - 1);
      assert Enabled(h[i - 1], steps[i - 1]) && h[i] == Next(h[i - 1], steps[i - 1]);
      LeakStep(h[i - 1], steps[i - 1]);
    }
  }

  lemma LeakStep(s: System, step: Step)
    requires Enabled(s, step)
    ensures Next(s, step).leaked == if Leaks(s, step) then s.leaked + {s.manager.nextLock} else s.leaked
  {
  }

  /** One lock is held exactly while a project is active, if and only if no refused installation has kept its lock. */
  lemma OneLockExactlyWithoutLeaks(h: seq<System>, steps: seq<Step>, i: nat)
    requires Run(h, steps) && i < |h|
    ensures h[i].manager.locks == ActiveLock(h[i].manager) <==> forall j | 0 <= j < i :: !Leaks(h[j], steps[j])
  {
    hide Leaks;
    OneProjectOneSession(h, steps, i);
    LeaksAreCounted(h, steps, i);
  }

  /** Closing never dereferences a missing handle, and leaves no project and no lock of its own when it succeeds. */
  lemma CloseNeverPanics(h: seq<System>, steps: seq<Step>, i: nat, guardPasses: bool, c: Closing)
    requires Run(h, steps) && i < |h|
    ensures ClosedProject(h[i].manager, guardPasses, c).1 != Panic
    ensures ClosedProject(h[i].manager, guardPasses, c).1 == Done ==>
      ClosedProject(h[i].manager, guardPasses, c).0.active == None && ClosedProject(h[i].manager, guardPasses, c).0.locks == h[i].leaked
  {
    RunOk(h, steps, i);
  }

  // ---------- Whether a handle that is given out is open ----------

  predicate HasHandle(s: System) {
    s.manager.active.Some? && s.manager.active.value.handle.Some?
  }

  /** A close that closed the handle but could not give back the lock: the project stays active with a closed handle. */
  predicate HalfCloses(s: System, step: Step) {
    step.Closes? && ClosedProject(s.manager, step.guardPasses, step.closing).1 == Refused(UnlockFailed)
  }

  /** Since some half-done close the project has never lost its handle. */
  ghost predicate HalfClosedSince(h: seq<System>, steps: seq<Step>, i: nat)
    requires Run(h, steps) && i < |h|
  {
    exists j :: 0 <= j < i && HalfCloses(h[j], steps[j]) && forall k | j < k <= i :: HasHandle(h[k])
  }

  lemma HandleStep(s: System, step: Step)
    requires Enabled(s, step) && HasHandle(Next(s, step))
    ensures Next(s, step).manager.active.value.open <==>
      !HalfCloses(s, step) && (HasHandle(s) ==> s.manager.active.value.open)
  {
  }

  /** A handle is closed while it is still the active one if and only if a close was left half done since it was installed or reopened. */
  lemma {:induction false} ClosedHandleExactlyAfterHalfClose(h: seq<System>, steps: seq<Step>, i: nat)
    requires Run(h, steps) && i < |h| && HasHandle(h[i])
    ensures !h[i].manager.active.value.open <==> HalfClosedSince(h, steps, i)
  {
    hide HalfCloses, HasHandle;
    StartHasNoHandle();
    var p := i - 1;
    assert Enabled(h[p], steps[p]) && h[i] == Next(h[p], steps[p]);
    HandleStep(h[p], steps[p]);
    if HasHandle(h[p]) { ClosedHandleExactlyAfterHalfClose(h, steps, p); }
  }

  lemma StartHasNoHandle()
    ensures !HasHandle(START)
  {
  }

  predicate Consumes(s: System, step: Step, token: string) {
    step.Installs? && step.token == token && s.manager.active.None? && s.manager.maintenance.None? && Consumed(s.tokens, token, step.now).1.Success?
  }

  lemma {:induction false} UsedStays(h: seq<System>, steps: seq<Step>, i: nat, j: nat, token: string)
    requires Run(h, steps) && i <= j < |h| && token in h[i].used
    ensures token in h[j].used
    decreases j - i
  {
    if i < j { UsedStays(h, steps, i + 1, j, token); }
  }

  /** Each token is consumed successfully at most once, only after it was issued and only before it expires. */
  lemma TokensAreSingleUse(h: seq<System>, steps: seq<Step>, i: nat, j: nat, token: string)
    requires Run(h, steps) && i <= j < |steps| && Consumes(h[i], steps[i], token) && Consumes(h[j], steps[j], token)
    ensures i == j && token in h[i].issued && steps[i].now < h[i].issued[token]
  {
    RunOk(h, steps, i);
    RunOk(h, steps, j);
    if i < j {
      assert h[i + 1] == Next(h[i], steps[i]);
      UsedStays(h, steps, i + 1, j, token);
    }
  }

  // ---------- When a project comes, stays and goes ----------

  /** Step `i` puts the project `id` at `path` in charge, by a valid token or by a restored target. */
  predicate BringsIn(s: System, step: Step, id: string, path: string) {
    match step
    case Installs(token, now, o) =>
      && s.manager.active.None? && s.manager.maintenance.None?
      && token in s.tokens && s.tokens[token].directory == path && now < s.tokens[token].expires
      && o.lockFree && o.handleId == Some(id) && o.recorded
    case AcquiresRestoredTarget(projectId, restored) =>
      s.manager.active.None? && s.manager.maintenance.None? && projectId == id && restored == path && path != ""
    case _ => false
  }

  /** Step `i` ends the time of the active project: a guarded close that works, or giving up a restored target. */
  predicate LetsGo(s: System, step: Step) {
    match step
    case Closes(guardPasses, c) => guardPasses && c.closes && c.unlocks && s.manager.maintenance.None?
    case Releases(i, unlocks) =>
      && unlocks && i < |s.sessions| && !s.sessions[i].closed && s.manager.maintenance.Some? && s.manager.maintenance.value.restoredTarget
      && s.manager.active.Some? && s.manager.active.value.handle.None?
    case _ => false
  }

  predicate IsAt(s: System, id: string, path: string) {
    s.manager.active.Some? && s.manager.active.value.id == id && s.manager.active.value.path == path
  }

  /** A project is put in charge, stays where it is, and leaves, in exactly the steps that say so. */
  lemma ProjectStep(s: System, step: Step, id: string, path: string)
    requires SystemOk(s) && Enabled(s, step)
    ensures IsAt(Next(s, step), id, path) <==> BringsIn(s, step, id, path) || (IsAt(s, id, path) && !LetsGo(s, step))
    ensures BringsIn(s, step, id, path) ==> s.manager.active.None?
  {
    hide TokensOk;
    if step.Releases? && s.manager.maintenance.Some? && !s.sessions[step.session].closed {
      assert step.session in OpenSessions(s);
    }
  }

  /** Some step brought the project in and none has let it go since. */
  ghost predicate InChargeSince(h: seq<System>, steps: seq<Step>, j: nat, i: nat, id: string, path: string)
    requires Run(h, steps) && i < |h|
  {
    j < i && BringsIn(h[j], steps[j], id, path) && forall k | j < k < i :: !LetsGo(h[k], steps[k])
  }

  /** The active project is the last one brought in, at the directory its token was issued for or its target was restored to,
      until a close whose guard passes, or the release of a target that was never reopened. */
  lemma {:induction false} InChargeExactly(h: seq<System>, steps: seq<Step>, i: nat, id: string, path: string)
    requires Run(h, steps) && i < |h|
    ensures IsAt(h[i], id, path) <==> exists j: nat :: InChargeSince(h, steps, j, i, id, path)
  {
    hide BringsIn, LetsGo, IsAt, Next, SystemOk, Enabled;
    if i == 0 {
      NobodyAtStart(id, path);
    } else {
      var p := i - 1;
      RunOk(h, steps, p);
      assert Enabled(h[p], steps[p]) && h[i] == Next(h[p], steps[p]);
      ProjectStep(h[p], steps[p], id, path);
      InChargeExactly(h, steps, p, id, path);
      if j: nat :| InChargeSince(h, steps, j, p, id, path) && !LetsGo(h[p], steps[p]) { assert InChargeSince(h, steps, j, i, id, path); }
      if BringsIn(h[p], steps[p], id, path) { assert InChargeSince(h, steps, p, i, id, path); }
      forall j: nat | InChargeSince(h, steps, j, i, id, path) ensures IsAt(h[i], id, path) {
        if j < p { assert InChargeSince(h, steps, j, p, id, path); }
      }
    }
  }

  lemma NobodyAtStart(id: string, path: string)
    ensures !IsAt(START, id, path)
  {
  }

  /** A token stands for the directory of the step that issued it. */
  lemma {:induction false} TokenIsAsIssued(h: seq<System>, steps: seq<Step>, i: nat, token: string)
    requires Run(h, steps) && i < |h| && token in h[i].tokens
    ensures exists j :: 0 <= j < i && steps[j] == Issues(token, h[i].tokens[token].directory, h[i].tokens[token].expires)
  {
    hide SystemOk;
    if i > 0 {
      assert Enabled(h[i - 1], steps[i - 1]) && h[i] == Next(h[i - 1], steps[i - 1]);
      if token in h[i - 1].tokens && h[i - 1].tokens[token] == h[i].tokens[token] {
        TokenIsAsIssued(h, steps, i - 1, token);
      } else {
        assert steps[i - 1] == Issues(token, h[i].tokens[token].directory, h[i].tokens[token].expires);
      }
    }
  }

  /** The session a step works with is of the active project. */
  predicate Serves(s: System, session: nat) {
    && session < |s.sessions| && s.manager.maintenance.Some? && s.manager.active.Some?
    && s.sessions[session].projectId == s.manager.active.value.id
  }

  /** A project that stays loses its handle exactly when a session closes it after preparing,
      and gets one back exactly when a session reopens the same project, recorded if it is a restored one. */
  lemma HandleComesAndGoes(h: seq<System>, steps: seq<Step>, i: nat)
    requires Run(h, steps) && i < |steps| && h[i].manager.active.Some? && h[i + 1].manager.active.Some?
    ensures HasHandle(h[i]) ==>
      (!HasHandle(h[i + 1]) <==>
        steps[i].ClosesConnections? && Serves(h[i], steps[i].session) && steps[i].prepared && steps[i].closes)
    ensures !HasHandle(h[i]) ==>
      (HasHandle(h[i + 1]) <==>
        && steps[i].Reopens? && Serves(h[i], steps[i].session) && steps[i].handleId == Some(h[i].manager.active.value.id)
        && (h[i].manager.maintenance.value.restoredTarget ==> steps[i].recorded))
  {
    RunOk(h, steps, i);
    assert Enabled(h[i], steps[i]) && h[i + 1] == Next(h[i], steps[i]);
  }

  /** A step that hands out a session: on the open project with a passing guard, or on a restored target while nothing is active. */
  predicate Begins(s: System, step: Step) {
    match step
    case AcquiresMaintenance(projectId, guardPasses) =>
      guardPasses && s.manager.maintenance.None? && s.manager.active.Some? && s.manager.active.value.id == projectId
    case AcquiresRestoredTarget(projectId, path) => path != "" && s.manager.maintenance.None? && s.manager.active.None?
    case _ => false
  }

  lemma SessionsBeginExactly(h: seq<System>, steps: seq<Step>, i: nat)
    requires Run(h, steps) && i < |steps|
    ensures |h[i + 1].sessions| == |h[i].sessions| + if Begins(h[i], steps[i]) then 1 else 0
    ensures Begins(h[i], steps[i]) ==> !h[i + 1].sessions[|h[i].sessions|].closed
  {
    RunOk(h, steps, i);
    assert Enabled(h[i], steps[i]) && h[i + 1] == Next(h[i], steps[i]);
  }

  /** A session that is not released knows the project in charge and where it is. */
  lemma {:induction false} OpenSessionKnowsTheProject(h: seq<System>, steps: seq<Step>, i: nat, k: nat)
    requires Run(h, steps) && i < |h| && k < |h[i].sessions| && !h[i].sessions[k].closed
    ensures IsAt(h[i], h[i].sessions[k].projectId, h[i].sessions[k].path)
  {
    hide SystemOk, Next, Enabled, IsAt;
    StartHasNoSession();
    var p := i - 1;
    assert Enabled(h[p], steps[p]) && h[i] == Next(h[p], steps[p]);
    RunOk(h, steps, p);
    RunOk(h, steps, i);
    if k < |h[p].sessions| && !h[p].sessions[k].closed { OpenSessionKnowsTheProject(h, steps, p, k); }
    SessionStep(h[p], steps[p], k);
  }

  lemma StartHasNoSession()
    ensures START.sessions == []
  {
  }

  lemma SessionStep(s: System, step: Step, k: nat)
    requires SystemOk(s) && Enabled(s, step) && k < |Next(s, step).sessions| && !Next(s, step).sessions[k].closed
    requires k < |s.sessions| && !s.sessions[k].closed ==> IsAt(s, s.sessions[k].projectId, s.sessions[k].path)
    ensures IsAt(Next(s, step), Next(s, step).sessions[k].projectId, Next(s, step).sessions[k].path)
  {
    hide TokensOk;
    if k < |s.sessions| {
      assert k in OpenSessions(s);
      if step.Releases? && !s.sessions[step.session].closed { assert step.session in OpenSessions(s); }
    }
  }

  /** Some session of the project marked this maintenance. */
  ghost predicate MarkedSince(h: seq<System>, steps: seq<Step>, i: nat)
    requires Run(h, steps) && i < |h|
  {
    exists j: nat :: MarkedAt(h, steps, j, i)
  }

  ghost predicate MarkedAt(h: seq<System>, steps: seq<Step>, j: nat, i: nat)
    requires Run(h, steps) && i < |h|
  {
    j < i && steps[j].Marks? && Serves(h[j], steps[j].session) && forall k | j <= k <= i :: h[k].manager.maintenance.Some?
  }

  lemma MarkStep(s: System, step: Step)
    requires SystemOk(s) && Enabled(s, step) && Next(s, step).manager.maintenance.Some?
    ensures Next(s, step).manager.maintenance.value.nonInterruptible <==>
      s.manager.maintenance.Some? && (s.manager.maintenance.value.nonInterruptible || (step.Marks? && Serves(s, step.session)))
  {
    hide TokensOk, SessionsOk;
  }

  /** Maintenance is not to be interrupted exactly from the moment a session of the project says so until it ends. */
  lemma {:induction false} NonInterruptibleExactly(h: seq<System>, steps: seq<Step>, i: nat)
    requires Run(h, steps) && i < |h| && h[i].manager.maintenance.Some?
    ensures h[i].manager.maintenance.value.nonInterruptible <==> MarkedSince(h, steps, i)
  {
    hide SystemOk, Next, Enabled, Serves;
    StartHasNoMaintenance();
    var p := i - 1;
    RunOk(h, steps, p);
    assert Enabled(h[p], steps[p]) && h[i] == Next(h[p], steps[p]);
    MarkStep(h[p], steps[p]);
    if h[p].manager.maintenance.Some? {
      NonInterruptibleExactly(h, steps, p);
      if j: nat :| MarkedAt(h, steps, j, p) { assert MarkedAt(h, steps, j, i); }
      if steps[p].Marks? && Serves(h[p], steps[p].session) { assert MarkedAt(h, steps, p, i); }
      forall j: nat | MarkedAt(h, steps, j, i) && j < p ensures MarkedAt(h, steps, j, p) {}
    }
  }

  lemma StartHasNoMaintenance()
    ensures START.manager.maintenance.None?
  {
  }

  /** Maintenance ends exactly when its session is released with the project open again, or gives up a restored target and its lock. */
  lemma MaintenanceEndsExactly(h: seq<System>, steps: seq<Step>, i: nat)
    requires Run(h, steps) && i < |steps| && h[i].manager.maintenance.Some?
    ensures h[i + 1].manager.maintenance.None? <==>
      && steps[i].Releases? && !h[i].sessions[steps[i].session].closed
      && (HasHandle(h[i]) || (h[i].manager.maintenance.value.restoredTarget && steps[i].unlocks))
    ensures h[i + 1].manager.maintenance.None? ==> h[i + 1].sessions[steps[i].session].closed
  {
    hide TokensOk;
    RunOk(h, steps, i);
    assert Enabled(h[i], steps[i]) && h[i + 1] == Next(h[i], steps[i]);
    if steps[i].Releases? && !h[i].sessions[steps[i].session].closed { assert steps[i].session in OpenSessions(h[i]); }
  }
}
