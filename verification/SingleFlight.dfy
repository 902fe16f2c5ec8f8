/** The single-flight cache of runtime actions, over all interleavings of its callers. */
module SingleFlight {
  import opened Wrappers
  import opened Ordering

  const CACHE_LIMIT := 256

  /** A call in progress or over; waiters read `err` once `done` is closed. */
  datatype Call = Call(done: bool, err: string)

  /** The handler's fields; calls are known by the number of their allocation. */
  datatype Cache = Cache(inflight: map<string, nat>, completed: map<string, string>, order: seq<string>)

  function CacheKey(actionId: string, idempotencyKey: string): string {
    actionId + "\0" + idempotencyKey
  }

  /** What the first locked region decides. */
  datatype Entry = Cached(err: string) | Joined(call: nat) | Opened

  function Look(c: Cache, key: string): Entry {
    if key in c.completed then Cached(c.completed[key])
    else if key in c.inflight then Joined(c.inflight[key])
    else Opened
  }

  function Open(c: Cache, key: string, call: nat): Cache {
    c.(inflight := c.inflight[key := call])
  }

  /** The second locked region: the result moves from in-flight to completed, and the oldest result may go. */
  function Settle(c: Cache, key: string, err: string): Cache {
    var order := c.order + [key];
    var completed := c.completed[key := err];
    if |order| > CACHE_LIMIT then Cache(c.inflight - {key}, completed - {order[0]}, order[1..])
    else Cache(c.inflight - {key}, completed, order)
  }

  ghost predicate CacheOk(c: Cache) {
    && c.completed.Keys == Elements(c.order)
    && Distinct(c.order) && |c.order| <= CACHE_LIMIT
    && c.inflight.Keys !! c.completed.Keys
  }

  lemma SettleKeeps(c: Cache, key: string, err: string)
    requires CacheOk(c) && key in c.inflight
    ensures CacheOk(Settle(c, key, err))
    ensures Settle(c, key, err).inflight == c.inflight - {key}
    ensures key in Settle(c, key, err).completed && Settle(c, key, err).completed[key] == err
    ensures forall k | k in Settle(c, key, err).completed && k != key :: k in c.completed && Settle(c, key, err).completed[k] == c.completed[k]
  {
    var order := c.order + [key];
    assert key !in c.order by { assert key !in Elements(c.order); }
    assert Distinct(order);
    assert Elements(order) == Elements(c.order) + {key};
    if |order| > CACHE_LIMIT {
      assert order == [order[0]] + order[1..];
      assert order[0] !in order[1..];
      assert Elements(order[1..]) == Elements(order) - {order[0]};
      assert order[0] in c.order && order[0] != key;
    }
  }

  // ---------- The handler as it runs ----------

  class RuntimeActionHandler {
    var inflight: map<string, nat>
    var completed: map<string, string>
    var order: seq<string>

    function View(): Cache
      reads this
    {
      Cache(inflight, completed, order)
    }

    constructor ()
      ensures View() == Cache(map[], map[], []) && CacheOk(View())
    {
      inflight, completed, order := map[], map[], [];
    }

    /** From taking the lock to starting the effect, waiting, or answering from the cache. */
    method Enter(key: string, call: nat) returns (e: Entry)
      modifies this
      ensures e == Look(old(View()), key)
      ensures View() == if e.Opened? then Open(old(View()), key, call) else old(View())
    {
      if key in completed { return Cached(completed[key]); }
      if key in inflight { return Joined(inflight[key]); }
      inflight := inflight[key := call];
      e := Opened;
    }

    /** After the effect. */
    method Finish(key: string, err: string)
      requires CacheOk(View()) && key in inflight
      modifies this
      ensures View() == Settle(old(View()), key, err) && CacheOk(View())
    {
      SettleKeeps(View(), key, err);
      inflight := inflight - {key};
      completed := completed[key := err];
      order := order + [key];
      if |order| > CACHE_LIMIT {
        completed := completed - {order[0]};
        order := order[1..];
      }
    }
  }

  // ---------- Interleaved callers ----------

  datatype Thread =
    | Running(key: string, call: nat)
    | Waiting(key: string, call: nat)
    | Answered(key: string, source: Option<nat>, err: string)
    | GaveUp(key: string)

  datatype System = System(cache: Cache, calls: map<nat, Call>, threads: map<nat, Thread>, next: nat)

  datatype Step =
    | Arrives(thread: nat, key: string)
    | Finishes(thread: nat, err: string)
    | Wakes(thread: nat)
    | ContextEnds(thread: nat)

  predicate Enabled(s: System, step: Step) {
    match step
    case Arrives(t, key) => t !in s.threads
    case Finishes(t, err) => t in s.threads && s.threads[t].Running?
    case Wakes(t) => t in s.threads && s.threads[t].Waiting? && s.threads[t].call in s.calls && s.calls[s.threads[t].call].done
    case ContextEnds(t) => t in s.threads && s.threads[t].Waiting?
  }

  function Next(s: System, step: Step): System
    requires Enabled(s, step)
  {
    match step
    case Arrives(t, key) =>
      (match Look(s.cache, key)
       case Cached(err) => s.(threads := s.threads[t := Answered(key, None, err)])
       case Joined(call) => s.(threads := s.threads[t := Waiting(key, call)])
       case Opened => System(Open(s.cache, key, s.next), s.calls[s.next := Call(false, "")], s.threads[t := Running(key, s.next)], s.next + 1))
    case Finishes(t, err) =>
      var b := s.threads[t];
      System(Settle(s.cache, b.key, err), s.calls[b.call := Call(true, err)], s.threads[t := Answered(b.key, Some(b.call), err)], s.next)
    case Wakes(t) =>
      var b := s.threads[t];
      s.(threads := s.threads[t := Answered(b.key, Some(b.call), s.calls[b.call].err)])
    case ContextEnds(t) => s.(threads := s.threads[t := GaveUp(s.threads[t].key)])
  }

  /** A running effect is exactly a key in flight; a waiter waits for its key's call; an answer is that call's result. */
  ghost predicate ThreadOk(s: System, th: Thread) {
    match th
    case Running(key, call) => call in s.calls && !s.calls[call].done && key in s.cache.inflight && s.cache.inflight[key] == call
    case Waiting(key, call) => call in s.calls && (!s.calls[call].done ==> key in s.cache.inflight && s.cache.inflight[key] == call)
    case Answered(key, call, err) => call.Some? ==> call.value in s.calls && s.calls[call.value] == Call(true, err)
    case GaveUp(key) => true
  }

  ghost predicate SystemOk(s: System) {
    CacheOk(s.cache) && CallsOk(s) && ThreadsOk(s) && OneRunner(s.threads) && EachHasRunner(s.cache.inflight, s.threads)
  }

  /** Different keys in flight have different unfinished calls. */
  ghost predicate CallsOk(s: System) {
    && (forall c | c in s.calls :: c < s.next)
    && (forall k | k in s.cache.inflight :: s.cache.inflight[k] in s.calls && !s.calls[s.cache.inflight[k]].done)
    && (forall k, l | k in s.cache.inflight && l in s.cache.inflight && s.cache.inflight[k] == s.cache.inflight[l] :: k == l)
  }

  ghost predicate ThreadsOk(s: System) {
    forall t | t in s.threads :: ThreadOk(s, s.threads[t])
  }

  ghost predicate OneRunner(threads: map<nat, Thread>) {
    forall t, u | t in threads && u in threads && threads[t].Running? && threads[u].Running? && threads[t].key == threads[u].key :: t == u
  }

  ghost predicate EachHasRunner(inflight: map<string, nat>, threads: map<nat, Thread>) {
    forall k | k in inflight :: exists t :: t in threads && threads[t] == Running(k, inflight[k])
  }

  lemma OpenKeepsCache(c: Cache, key: string, call: nat)
    requires CacheOk(c) && key !in c.completed
    ensures CacheOk(Open(c, key, call))
  {
  }

  /** A thread that is none of the running ones joins, or takes an answer. */
  lemma ThreadJoins(s: System, t: nat, th: Thread)
    requires SystemOk(s) && !th.Running? && ThreadOk(s, th) && (t in s.threads ==> !s.threads[t].Running?)
    ensures SystemOk(s.(threads := s.threads[t := th]))
  {
    hide CacheOk;
    var s' := s.(threads := s.threads[t := th]);
    forall u | u in s'.threads ensures ThreadOk(s', s'.threads[u]) {
      assert ThreadOk(s, s'.threads[u]);
    }
    forall k | k in s'.cache.inflight ensures exists u :: u in s'.threads && s'.threads[u] == Running(k, s'.cache.inflight[k]) {
      var u :| u in s.threads && s.threads[u] == Running(k, s.cache.inflight[k]);
      assert s'.threads[u] == s.threads[u];
    }
  }

  lemma FirstArrives(s: System, t: nat, key: string)
    requires SystemOk(s) && Enabled(s, Arrives(t, key)) && Look(s.cache, key).Opened?
    ensures SystemOk(Next(s, Arrives(t, key)))
  {
    hide CacheOk, CallsOk, ThreadsOk, OneRunner, EachHasRunner, Open;
    OpenKeepsCache(s.cache, key, s.next);
    OpenKeepsThreads(s, t, key);
    OpenKeepsRunners(s, t, key);
  }

  lemma OpenKeepsThreads(s: System, t: nat, key: string)
    requires CallsOk(s) && ThreadsOk(s) && Enabled(s, Arrives(t, key)) && Look(s.cache, key).Opened?
    ensures CallsOk(Next(s, Arrives(t, key))) && ThreadsOk(Next(s, Arrives(t, key)))
  {
    var s' := Next(s, Arrives(t, key));
    forall u | u in s'.threads ensures ThreadOk(s', s'.threads[u]) {
      if u != t { assert ThreadOk(s, s.threads[u]); }
    }
  }

  lemma OpenKeepsRunners(s: System, t: nat, key: string)
    requires ThreadsOk(s) && OneRunner(s.threads) && EachHasRunner(s.cache.inflight, s.threads)
    requires Enabled(s, Arrives(t, key)) && Look(s.cache, key).Opened?
    ensures var s' := Next(s, Arrives(t, key)); OneRunner(s'.threads) && EachHasRunner(s'.cache.inflight, s'.threads)
  {
    var s' := Next(s, Arrives(t, key));
    forall k | k in s'.cache.inflight ensures exists u :: u in s'.threads && s'.threads[u] == Running(k, s'.cache.inflight[k]) {
      if k != key {
        var u :| u in s.threads && s.threads[u] == Running(k, s.cache.inflight[k]);
        assert s'.threads[u] == s.threads[u];
      } else {
        assert s'.threads[t] == Running(k, s'.cache.inflight[k]);
      }
    }
    forall u | u in s.threads && s.threads[u].Running? ensures s.threads[u].key != key {
      assert ThreadOk(s, s.threads[u]);
    }
  }

  lemma ArriveKeeps(s: System, t: nat, key: string)
    requires SystemOk(s) && Enabled(s, Arrives(t, key))
    ensures SystemOk(Next(s, Arrives(t, key)))
  {
    hide SystemOk;
    match Look(s.cache, key)
    case Cached(err) => ThreadJoins(s, t, Answered(key, None, err));
    case Joined(call) =>
      InFlightCall(s, key);
      ThreadJoins(s, t, Waiting(key, call));
    case Opened => FirstArrives(s, t, key);
  }

  lemma InFlightCall(s: System, key: string)
    requires SystemOk(s) && key in s.cache.inflight
    ensures s.cache.inflight[key] in s.calls && !s.calls[s.cache.inflight[key]].done
  {
  }

  /** Finishing one call leaves every other thread as it was. */
  lemma FinishOthers(s: System, t: nat, err: string, th: Thread)
    requires Enabled(s, Finishes(t, err)) && ThreadOk(s, s.threads[t]) && ThreadOk(s, th)
    requires th.Running? ==> th.key != s.threads[t].key
    requires forall k, l | k in s.cache.inflight && l in s.cache.inflight && s.cache.inflight[k] == s.cache.inflight[l] :: k == l
    ensures ThreadOk(Next(s, Finishes(t, err)), th)
  {
    assert Next(s, Finishes(t, err)).cache.inflight == s.cache.inflight - {s.threads[t].key};
  }

  lemma FinishKeeps(s: System, t: nat, err: string)
    requires SystemOk(s) && Enabled(s, Finishes(t, err))
    ensures SystemOk(Next(s, Finishes(t, err)))
  {
    hide CacheOk, CallsOk, OneRunner, EachHasRunner, Settle;
    assert ThreadOk(s, s.threads[t]);
    SettleKeeps(s.cache, s.threads[t].key, err);
    FinishKeepsCalls(s, t, err);
    FinishKeepsThreads(s, t, err);
    FinishKeepsRunners(s, t, err);
  }

  lemma FinishKeepsCalls(s: System, t: nat, err: string)
    requires CallsOk(s) && Enabled(s, Finishes(t, err)) && ThreadOk(s, s.threads[t])
    ensures CallsOk(Next(s, Finishes(t, err)))
  {
    assert Next(s, Finishes(t, err)).cache.inflight == s.cache.inflight - {s.threads[t].key};
  }

  lemma FinishKeepsThreads(s: System, t: nat, err: string)
    requires CallsOk(s) && ThreadsOk(s) && OneRunner(s.threads) && Enabled(s, Finishes(t, err))
    ensures ThreadsOk(Next(s, Finishes(t, err)))
  {
    hide ThreadOk, Settle;
    var s' := Next(s, Finishes(t, err));
    forall u | u in s'.threads ensures ThreadOk(s', s'.threads[u]) {
      if u != t {
        FinishOthers(s, t, err, s.threads[u]);
      } else {
        FinisherAnswered(s, t, err);
      }
    }
  }

  lemma FinisherAnswered(s: System, t: nat, err: string)
    requires Enabled(s, Finishes(t, err)) && ThreadOk(s, s.threads[t])
    ensures ThreadOk(Next(s, Finishes(t, err)), Next(s, Finishes(t, err)).threads[t])
  {
    hide Settle;
  }

  lemma FinishKeepsRunners(s: System, t: nat, err: string)
    requires OneRunner(s.threads) && EachHasRunner(s.cache.inflight, s.threads) && Enabled(s, Finishes(t, err))
    ensures var s' := Next(s, Finishes(t, err)); OneRunner(s'.threads) && EachHasRunner(s'.cache.inflight, s'.threads)
  {
    var s' := Next(s, Finishes(t, err));
    assert s'.cache.inflight == s.cache.inflight - {s.threads[t].key};
    forall k | k in s'.cache.inflight ensures exists u :: u in s'.threads && s'.threads[u] == Running(k, s'.cache.inflight[k]) {
      var u :| u in s.threads && s.threads[u] == Running(k, s.cache.inflight[k]);
      assert s'.threads[u] == s.threads[u];
    }
  }

  lemma WaiterKeeps(s: System, t: nat, step: Step)
    requires SystemOk(s) && Enabled(s, step) && (step == Wakes(t) || step == ContextEnds(t))
    ensures SystemOk(Next(s, step))
  {
    hide SystemOk;
    ThreadJoins(s, t, Next(s, step).threads[t]);
  }

  lemma StepKeeps(s: System, step: Step)
    requires SystemOk(s) && Enabled(s, step)
    ensures SystemOk(Next(s, step))
  {
    match step
    case Arrives(t, key) => ArriveKeeps(s, t, key);
    case Finishes(t, err) => FinishKeeps(s, t, err);
    case Wakes(t) => WaiterKeeps(s, t, step);
    case ContextEnds(t) => WaiterKeeps(s, t, step);
  }

  const START := System(Cache(map[], map[], []), map[], map[], 0)

  ghost predicate Run(h: seq<System>, steps: seq<Step>) {
    && |h| == |steps| + 1 && h[0] == START
    && forall i | 0 <= i < |steps| :: Enabled(h[i], steps[i]) && h[i + 1] == Next(h[i], steps[i])
  }

  /** The cache stays bounded and consistent, and no key's effect ever runs twice at once. */
  lemma {:induction false} RunOk(h: seq<System>, steps: seq<Step>, i: nat)
    requires Run(h, steps) && i < |h|
    ensures SystemOk(h[i])
  {
    hide SystemOk, Next, Enabled;
    if i == 0 {
      StartOk();
    } else {
      RunOk(h, steps, i - 1);
      StepKeeps(h[i - 1], steps[i - 1]);
    }
  }

  lemma StartOk()
    ensures SystemOk(START)
  {
  }

  /** A call's result is written once: everyone who joined the call and is answered gets it. */
  lemma {:induction false} AnswersAgree(h: seq<System>, steps: seq<Step>, i: nat, j: nat, t: nat, u: nat, call: nat)
    requires Run(h, steps) && i < |h| && j < |h| && i <= j
    requires t in h[i].threads && h[i].threads[t].Answered? && h[i].threads[t].source == Some(call)
    requires u in h[j].threads && h[j].threads[u].Answered? && h[j].threads[u].source == Some(call)
    ensures h[i].threads[t].err == h[j].threads[u].err
  {
    RunOk(h, steps, i);
    RunOk(h, steps, j);
    assert ThreadOk(h[i], h[i].threads[t]) && ThreadOk(h[j], h[j].threads[u]);
    CallsSettle(h, steps, i, j, call);
  }

  lemma {:induction false} CallsSettle(h: seq<System>, steps: seq<Step>, i: nat, j: nat, call: nat)
    requires Run(h, steps) && i <= j < |h| && call in h[i].calls && h[i].calls[call].done
    ensures call in h[j].calls && h[j].calls[call] == h[i].calls[call]
    decreases j - i
  {
    if i < j {
      RunOk(h, steps, i);
      CallsSettle(h, steps, i + 1, j, call);
    }
  }

  // ---------- What the cache answers ----------

  /** The effect of `key` finished with `err` in step `i`, and its result has been kept up to moment `j`. */
  ghost predicate HeldSince(h: seq<System>, steps: seq<Step>, i: int, j: nat, key: string, err: string)
    requires Run(h, steps) && j < |h|
  {
    && 0 <= i < j && steps[i].Finishes? && steps[i].err == err && h[i].threads[steps[i].thread].key == key
    && forall m | i < m <= j :: key in h[m].cache.completed
  }

  /** One step keeps a result, replaces it never, and adds one only by finishing. */
  lemma ResultStep(s: System, step: Step, key: string)
    requires SystemOk(s) && Enabled(s, step) && key in Next(s, step).cache.completed
    ensures key in s.cache.completed ==> Next(s, step).cache.completed[key] == s.cache.completed[key]
    ensures key !in s.cache.completed ==>
      step.Finishes? && s.threads[step.thread].key == key && Next(s, step).cache.completed[key] == step.err
  {
    hide CacheOk, Settle;
    if step.Finishes? {
      FinisherInFlight(s, step.thread);
      SettleKeeps(s.cache, s.threads[step.thread].key, step.err);
      CachedNotInFlight(s, s.threads[step.thread].key);
    }
  }

  lemma CachedNotInFlight(s: System, key: string)
    requires SystemOk(s) && key in s.cache.inflight
    ensures key !in s.cache.completed
  {
  }

  /** A key is cached with a result exactly from the step that finished it with that result until it is evicted. */
  lemma {:induction false} CachedExactlySinceFinish(h: seq<System>, steps: seq<Step>, j: nat, key: string, err: string)
    requires Run(h, steps) && j < |h|
    ensures key in h[j].cache.completed && h[j].cache.completed[key] == err <==> exists i :: HeldSince(h, steps, i, j, key, err)
  {
    hide SystemOk, Next, Enabled;
    if j == 0 {
      StartIsEmpty(key);
    } else if key in h[j].cache.completed {
      var k := j - 1;
      RunOk(h, steps, k);
      assert Enabled(h[k], steps[k]) && h[j] == Next(h[k], steps[k]);
      ResultStep(h[k], steps[k], key);
      CachedExactlySinceFinish(h, steps, k, key, err);
      if key in h[k].cache.completed {
        if i :| HeldSince(h, steps, i, k, key, err) { assert HeldSince(h, steps, i, j, key, err); }
      } else if steps[k].err == err {
        assert HeldSince(h, steps, k, j, key, err);
      }
      if i :| HeldSince(h, steps, i, j, key, err) {
        if i < k { assert HeldSince(h, steps, i, k, key, err); }
        if i == k { JustFinished(h[k], steps[k], key); }
      }
    }
  }

  lemma StartIsEmpty(key: string)
    ensures key !in START.cache.completed
  {
  }

  lemma JustFinished(s: System, step: Step, key: string)
    requires SystemOk(s) && Enabled(s, step) && step.Finishes? && s.threads[step.thread].key == key
    ensures key !in s.cache.completed
  {
    FinisherInFlight(s, step.thread);
    CachedNotInFlight(s, key);
  }

  /** Whoever arrives while a result is kept is answered at once with that result, and only then from the cache. */
  lemma CacheAnswersTheFinishedResult(h: seq<System>, steps: seq<Step>, j: nat, t: nat, key: string, err: string)
    requires Run(h, steps) && j < |steps| && steps[j] == Arrives(t, key)
    ensures h[j + 1].threads[t] == Answered(key, None, err) <==> exists i :: HeldSince(h, steps, i, j, key, err)
  {
    hide SystemOk, HeldSince;
    CachedExactlySinceFinish(h, steps, j, key, err);
    assert Enabled(h[j], steps[j]) && h[j + 1] == Next(h[j], steps[j]);
  }

  /** Different actions or idempotency keys are different cache keys; action names contain no zero byte. */
  lemma CacheKeysSeparate(action: string, key: string, other: string, otherKey: string)
    requires '\0' !in action && '\0' !in other && CacheKey(action, key) == CacheKey(other, otherKey)
    ensures action == other && key == otherKey
  {
    assert CacheKey(action, key) == action + ['\0'] + key && CacheKey(other, otherKey) == other + ['\0'] + otherKey;
    CutOnce(action, key, other, otherKey, '\0');
  }

  // ---------- When a key can run again ----------

  /** The keys whose effects finished in steps `i` up to, not including, `j`. */
  ghost function FinishedKeys(h: seq<System>, steps: seq<Step>, i: nat, j: nat): set<string>
    requires Run(h, steps) && i <= j <= |steps|
  {
    set m | i <= m < j && steps[m].Finishes? && Enabled(h[m], steps[m]) :: h[m].threads[steps[m].thread].key
  }

  /** `key` is remembered, and exactly the keys of `since` stand behind it. */
  ghost predicate Behind(c: Cache, key: string, since: set<string>) {
    exists p :: 0 <= p < |c.order| && c.order[p] == key && Elements(c.order[p + 1..]) == since
  }

  /** What stands behind place `p` once another element is appended. */
  lemma BehindGrows(order: seq<string>, p: nat, other: string)
    requires Distinct(order) && p < |order| && other !in order
    ensures Distinct(order + [other])
    ensures Elements((order + [other])[p + 1..]) == Elements(order[p + 1..]) + {other}
    ensures |Elements(order[p + 1..]) + {other}| == |order| - p && order[p] !in Elements(order[p + 1..]) + {other}
  {
    var rest := (order + [other])[p + 1..];
    assert rest == order[p + 1..] + [other];
    assert Distinct(rest);
    assert Elements(rest) == Elements(order[p + 1..]) + {other};
    DistinctSize(rest);
  }

  /** A remembered key goes when the 256th key behind it finishes, and not before. */
  lemma SettleBehind(c: Cache, key: string, since: set<string>, other: string, err: string)
    requires CacheOk(c) && other in c.inflight && Behind(c, key, since)
    ensures key in Settle(c, other, err).completed <==> |(since + {other}) - {key}| < 256
    ensures key in Settle(c, other, err).completed ==> Behind(Settle(c, other, err), key, since + {other})
  {
    hide Distinct, Settle, CacheOk, Elements;
    var p :| 0 <= p < |c.order| && c.order[p] == key && Elements(c.order[p + 1..]) == since;
    OtherIsNew(c, other);
    BehindGrows(c.order, p, other);
    assert (since + {other}) - {key} == since + {other};
    SettlePlace(c, p, other, err);
  }

  lemma OtherIsNew(c: Cache, other: string)
    requires CacheOk(c) && other in c.inflight
    ensures other !in c.order && Distinct(c.order) && |c.order| <= 256
  {
    assert other !in Elements(c.order);
  }

  /** Only the key at the front of a full order loses its place. */
  lemma SettlePlace(c: Cache, p: nat, other: string, err: string)
    requires CacheOk(c) && other in c.inflight && p < |c.order|
    ensures var key, behind, c' := c.order[p], Elements((c.order + [other])[p + 1..]), Settle(c, other, err);
      && (key in c'.completed <==> |c.order| - p < 256)
      && (key in c'.completed ==> Behind(c', key, behind))
  {
    var order := c.order + [other];
    var key := order[p];
    OtherIsNew(c, other);
    if |order| > CACHE_LIMIT {
      if p > 0 {
        assert order[1..][p - 1] == key && order[1..][p..] == order[p + 1..];
        assert key != order[0];
      }
    } else {
      assert order[p] == key;
    }
  }

  /** The result that step `i` finished has been kept up to moment `j`. */
  ghost predicate Kept(h: seq<System>, steps: seq<Step>, i: nat, j: nat)
    requires Run(h, steps) && i < j < |h| && steps[i].Finishes? && Enabled(h[i], steps[i])
  {
    forall m | i < m <= j :: h[i].threads[steps[i].thread].key in h[m].cache.completed
  }

  /** A result is kept exactly as long as fewer than 256 other keys have finished since. */
  lemma {:induction false} KeptExactly(h: seq<System>, steps: seq<Step>, i: nat, j: nat)
    requires Run(h, steps) && i < j < |h| && steps[i].Finishes?
    ensures Kept(h, steps, i, j) <==> |FinishedKeys(h, steps, i + 1, j) - {h[i].threads[steps[i].thread].key}| < 256
    ensures Kept(h, steps, i, j) ==> Behind(h[j].cache, h[i].threads[steps[i].thread].key, FinishedKeys(h, steps, i + 1, j))
    decreases j
  {
    hide SystemOk, Behind, Next, FinishedKeys, Kept;
    RunOk(h, steps, j - 1);
    if j == i + 1 {
      KeptAtFirst(h, steps, i);
    } else {
      KeptExactly(h, steps, i, j - 1);
      KeptOn(h, steps, i, j);
      SinceGrows(h, steps, i + 1, j);
      var key := h[i].threads[steps[i].thread].key;
      var since := FinishedKeys(h, steps, i + 1, j - 1);
      if steps[j - 1].Finishes? {
        SubsetSize(since - {key}, FinishedKeys(h, steps, i + 1, j) - {key});
        if Kept(h, steps, i, j - 1) { FinishBehind(h[j - 1], steps[j - 1], key, since); }
      } else {
        OrderUnchanged(h[j - 1], steps[j - 1], key, since);
      }
    }
  }

  lemma KeptAtFirst(h: seq<System>, steps: seq<Step>, i: nat)
    requires Run(h, steps) && i < |steps| && steps[i].Finishes? && SystemOk(h[i])
    ensures Kept(h, steps, i, i + 1) && FinishedKeys(h, steps, i + 1, i + 1) == {}
    ensures Behind(h[i + 1].cache, h[i].threads[steps[i].thread].key, {})
  {
    hide SystemOk, Behind, Next;
    JustSettled(h[i], steps[i].thread, steps[i].err);
  }

  lemma KeptOn(h: seq<System>, steps: seq<Step>, i: nat, j: nat)
    requires Run(h, steps) && i + 1 < j < |h| && steps[i].Finishes?
    ensures var key := h[i].threads[steps[i].thread].key;
      && (Kept(h, steps, i, j) <==> Kept(h, steps, i, j - 1) && key in h[j].cache.completed)
      && (Kept(h, steps, i, j - 1) ==> key in h[j - 1].cache.completed)
    ensures Enabled(h[j - 1], steps[j - 1]) && h[j] == Next(h[j - 1], steps[j - 1])
  {
    hide Next, Enabled;
  }

  lemma SinceGrows(h: seq<System>, steps: seq<Step>, i: nat, j: nat)
    requires Run(h, steps) && i < j <= |steps|
    ensures steps[j - 1].Finishes? ==>
      Enabled(h[j - 1], steps[j - 1])
      && FinishedKeys(h, steps, i, j) == FinishedKeys(h, steps, i, j - 1) + {h[j - 1].threads[steps[j - 1].thread].key}
    ensures !steps[j - 1].Finishes? ==> FinishedKeys(h, steps, i, j) == FinishedKeys(h, steps, i, j - 1)
  {
    hide Next;
    assert Enabled(h[j - 1], steps[j - 1]);
  }

  lemma FinishBehind(s: System, step: Step, key: string, since: set<string>)
    requires SystemOk(s) && Enabled(s, step) && step.Finishes? && Behind(s.cache, key, since)
    ensures var other, c := s.threads[step.thread].key, Next(s, step).cache;
      && (key in c.completed <==> |(since + {other}) - {key}| < 256)
      && (key in c.completed ==> Behind(c, key, since + {other}))
  {
    hide SystemOk, Settle, Behind, CacheOk;
    FinisherInFlight(s, step.thread);
    SettleBehind(s.cache, key, since, s.threads[step.thread].key, step.err);
  }

  lemma {:induction false} SubsetSize(a: set<string>, b: set<string>)
    requires a <= b
    ensures |a| <= |b|
  {
    if a != {} {
      var x :| x in a;
      SubsetSize(a - {x}, b - {x});
    }
  }

  lemma FinisherInFlight(s: System, t: nat)
    requires SystemOk(s) && t in s.threads && s.threads[t].Running?
    ensures CacheOk(s.cache) && s.threads[t].key in s.cache.inflight
  {
    assert ThreadOk(s, s.threads[t]);
  }

  lemma JustSettled(s: System, t: nat, err: string)
    requires SystemOk(s) && Enabled(s, Finishes(t, err))
    ensures Behind(Next(s, Finishes(t, err)).cache, s.threads[t].key, {})
    ensures s.threads[t].key in Next(s, Finishes(t, err)).cache.completed
  {
    var c := Next(s, Finishes(t, err)).cache;
    FinisherInFlight(s, t);
    SettleKeeps(s.cache, s.threads[t].key, err);
    assert c.order[|c.order| - 1] == s.threads[t].key;
    assert c.order[|c.order|..] == [];
  }

  lemma OrderUnchanged(s: System, step: Step, key: string, since: set<string>)
    requires Enabled(s, step) && !step.Finishes?
    ensures Next(s, step).cache.completed == s.cache.completed
    ensures Behind(s.cache, key, since) ==> Behind(Next(s, step).cache, key, since)
  {
    assert Next(s, step).cache.order == s.cache.order;
  }

  /** A finished key runs again only after 256 other keys have finished in between. */
  lemma RerunsAfterEviction(h: seq<System>, steps: seq<Step>, i: nat, j: nat, t: nat)
    requires Run(h, steps) && i < j < |steps| && steps[i].Finishes?
    requires steps[j] == Arrives(t, h[i].threads[steps[i].thread].key) && h[j + 1].threads[t].Running?
    ensures |FinishedKeys(h, steps, i + 1, j) - {h[i].threads[steps[i].thread].key}| >= 256
  {
    KeptExactly(h, steps, i, j);
    assert h[j + 1] == Next(h[j], steps[j]);
  }

  /** The cache never holds more than 256 results. */
  lemma AtMost256(h: seq<System>, steps: seq<Step>, i: nat)
    requires Run(h, steps) && i < |h|
    ensures |h[i].cache.completed| <= 256
  {
    RunOk(h, steps, i);
    DistinctSize(h[i].cache.order);
    assert |h[i].cache.completed| == |h[i].cache.completed.Keys|;
  }
}
