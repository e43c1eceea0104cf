/** The generation controller and the refresh cycle, as values.

    The loop keeps one cancel handle, that of the current scope.  On every
    successful fetch it invokes that handle (when there is one), creates a new
    scope, dispatches the job list under it, sleeps and dumps metrics; on a
    failed fetch it logs a warning and tries again at once.  Scopes are
    numbered in creation order; `Scopes` is the bookkeeping the model keeps
    beside the Go variable: the current scope, the scopes already cancelled and
    the number of the next scope to create. */
module ScopeLifecycle {
  import opened JobDispatch

  datatype Scopes = Scopes(current: Option<nat>, cancelled: set<nat>, nextId: nat)

  const Initial := Scopes(None, {}, 0)

  /** Before the first successful fetch no scope exists and nothing is
      cancelled; afterwards exactly one scope, the newest, is current and not
      cancelled, and every scope created before it has been cancelled. */
  ghost predicate OneLiveScope(g: Scopes)
  {
    match g.current
    case None => g.nextId == 0 && g.cancelled == {}
    case Some(c) => g.nextId == c + 1 && forall s: nat :: s in g.cancelled <==> s < c
  }

  /** The generation controller's replace step on the bookkeeping. */
  function Replaced(g: Scopes): Scopes
  {
    Scopes(Some(g.nextId),
           if g.current.Some? then g.cancelled + {g.current.value} else g.cancelled,
           g.nextId + 1)
  }

  /** What the replace step logs: the cancel of the previous scope, if there
      is one, then the creation of the new scope. */
  function ReplaceEvents(g: Scopes): seq<Event>
  {
    (if g.current.Some? then [Cancel(g.current.value)] else []) + [NewScope(g.nextId)]
  }

  /** One iteration of the refresh loop on the bookkeeping. */
  function StepState(g: Scopes, f: Fetch): Scopes
  {
    match f
    case Err => g
    case Ok(_) => Replaced(g)
  }

  /** What one iteration of the refresh loop logs. */
  function StepEvents(g: Scopes, f: Fetch, registry: set<string>): seq<Event>
  {
    match f
    case Err => [FetchFailed]
    case Ok(jobs) => ReplaceEvents(g) + DispatchEvents(g.nextId, jobs, registry) + [Sleep, Dump]
  }

  /** The loop driven over a finite sequence of fetch outcomes. */
  function RunState(g: Scopes, outcomes: seq<Fetch>): Scopes
  {
    if outcomes == [] then g
    else StepState(RunState(g, outcomes[..|outcomes| - 1]), outcomes[|outcomes| - 1])
  }

  function RunEvents(g: Scopes, outcomes: seq<Fetch>, registry: set<string>): seq<Event>
  {
    if outcomes == [] then []
    else
      var init := outcomes[..|outcomes| - 1];
      RunEvents(g, init, registry) + StepEvents(RunState(g, init), outcomes[|outcomes| - 1], registry)
  }

  /** Number of successful fetches among the outcomes. */
  function Successes(outcomes: seq<Fetch>): (n: nat)
    ensures n <= |outcomes|
  {
    if outcomes == [] then 0
    else Successes(outcomes[..|outcomes| - 1]) + (if outcomes[|outcomes| - 1].Ok? then 1 else 0)
  }

  // Ordering of the scoped events.  Within a scope the creation comes first,
  // then its workers, then its cancellation, and all of a scope's events
  // come before those of the next scope.

  predicate Scoped(e: Event)
  {
    e.NewScope? || e.Launch? || e.Cancel?
  }

  function Rank(e: Event): nat
  {
    match e
    case NewScope(s) => 3 * s + 1
    case Launch(s, _, _) => 3 * s + 2
    case Cancel(s) => 3 * s + 3
    case _ => 0
  }

  /** The rank of the entry at position `i`, or -1 when it belongs to no scope. */
  function RankAt(log: seq<Event>, i: nat): int
    requires i < |log|
  {
    if Scoped(log[i]) then Rank(log[i]) else -1
  }

  /** The scoped events of `log` appear in rank order. */
  ghost predicate Ordered(log: seq<Event>)
  {
    forall i, j {:trigger RankAt(log, i), RankAt(log, j)} |
      0 <= i < j < |log| && RankAt(log, i) >= 0 && RankAt(log, j) >= 0 :: RankAt(log, i) <= RankAt(log, j)
  }

  /** Every scoped event of `log` has a rank in [lo, hi). */
  ghost predicate RanksWithin(log: seq<Event>, lo: int, hi: int)
  {
    forall i {:trigger RankAt(log, i)} | 0 <= i < |log| && RankAt(log, i) >= 0 :: lo <= RankAt(log, i) < hi
  }

  /** The least rank an event of the next cycle can have. */
  function Bound(g: Scopes): nat
  {
    3 * g.nextId
  }

  /** The cancelled scopes are exactly those whose cancellation was logged. */
  ghost predicate CancelsLogged(g: Scopes, log: seq<Event>)
  {
    forall s: nat :: s in g.cancelled <==> Cancel(s) in log
  }

  /** The invariant the refresh loop keeps between iterations. */
  ghost predicate Consistent(g: Scopes, log: seq<Event>)
  {
    OneLiveScope(g) && CancelsLogged(g, log) && Ordered(log) && RanksWithin(log, 0, Bound(g))
  }

  lemma OrderedAppend(a: seq<Event>, b: seq<Event>, lo: int, mid: int, hi: int)
    requires lo <= mid <= hi
    requires Ordered(a) && RanksWithin(a, lo, mid)
    requires Ordered(b) && RanksWithin(b, mid, hi)
    ensures Ordered(a + b) && RanksWithin(a + b, lo, hi)
  {
    var ab := a + b;
    forall i, j | 0 <= i < j < |ab| && RankAt(ab, i) >= 0 && RankAt(ab, j) >= 0
      ensures RankAt(ab, i) <= RankAt(ab, j)
    {
      if j < |a| {
        assert RankAt(ab, i) == RankAt(a, i) && RankAt(ab, j) == RankAt(a, j);
      } else if i >= |a| {
        assert RankAt(ab, i) == RankAt(b, i - |a|) && RankAt(ab, j) == RankAt(b, j - |a|);
      } else {
        assert RankAt(ab, i) == RankAt(a, i) && RankAt(ab, j) == RankAt(b, j - |a|);
      }
    }
    forall i | 0 <= i < |ab| && RankAt(ab, i) >= 0
      ensures lo <= RankAt(ab, i) < hi
    {
      if i < |a| {
        assert RankAt(ab, i) == RankAt(a, i);
      } else {
        assert RankAt(ab, i) == RankAt(b, i - |a|);
      }
    }
  }

  /** The entries of one iteration are in rank order and lie between the
      bound of the bookkeeping before it and the bound after it. */
  lemma StepEventsRanked(g: Scopes, f: Fetch, registry: set<string>)
    requires OneLiveScope(g)
    ensures Ordered(StepEvents(g, f, registry))
    ensures RanksWithin(StepEvents(g, f, registry), Bound(g), Bound(StepState(g, f)))
  {
    match f
    case Err =>
    case Ok(jobs) =>
      var n := g.nextId;
      var r := ReplaceEvents(g);
      var d := DispatchEvents(n, jobs, registry);
      var tail := [Sleep, Dump];
      assert RanksWithin(r, 3 * n, 3 * n + 2);
      forall i | 0 <= i < |d|
        ensures RankAt(d, i) >= 0 ==> RankAt(d, i) == 3 * n + 2
      {
        assert d[i] in d;
      }
      OrderedAppend(r, d, 3 * n, 3 * n + 2, 3 * n + 3);
      OrderedAppend(r + d, tail, 3 * n, 3 * n + 3, 3 * n + 3);
  }

  /** The only cancellation an iteration logs is that of the scope current
      before a successful fetch. */
  lemma StepCancels(g: Scopes, f: Fetch, registry: set<string>)
    ensures forall s: nat :: Cancel(s) in StepEvents(g, f, registry) <==> f.Ok? && g.current == Some(s)
  {
    if f.Ok? {
      var d := DispatchEvents(g.nextId, f.jobs, registry);
      forall s: nat
        ensures Cancel(s) in StepEvents(g, f, registry) <==> g.current == Some(s)
      {
        assert Cancel(s) !in d;
      }
    }
  }

  /** Every iteration keeps the loop invariant, whatever the fetch returned. */
  lemma StepKeepsConsistent(g: Scopes, log: seq<Event>, f: Fetch, registry: set<string>)
    requires Consistent(g, log)
    ensures Consistent(StepState(g, f), log + StepEvents(g, f, registry))
  {
    var ev := StepEvents(g, f, registry);
    StepEventsRanked(g, f, registry);
    OrderedAppend(log, ev, 0, Bound(g), Bound(StepState(g, f)));
    StepCancels(g, f, registry);
    forall s: nat
      ensures s in StepState(g, f).cancelled <==> Cancel(s) in log + ev
    {
      assert Cancel(s) in log + ev <==> Cancel(s) in log || Cancel(s) in ev;
    }
  }

  /** The replace step on its own keeps the invariant. */
  lemma ReplaceKeepsConsistent(g: Scopes, log: seq<Event>)
    requires Consistent(g, log)
    ensures Consistent(Replaced(g), log + ReplaceEvents(g))
    ensures Replaced(g).current == Some(g.nextId) && g.nextId !in Replaced(g).cancelled
  {
    var r := ReplaceEvents(g);
    assert Ordered(r) && RanksWithin(r, Bound(g), Bound(Replaced(g)));
    OrderedAppend(log, r, 0, Bound(g), Bound(Replaced(g)));
    forall s: nat
      ensures s in Replaced(g).cancelled <==> Cancel(s) in log + r
    {
      assert Cancel(s) in log + r <==> Cancel(s) in log || Cancel(s) in r;
    }
  }

  /** Dispatching a job list under the current scope keeps the invariant:
      its workers rank after everything already logged for that scope. */
  lemma DispatchKeepsConsistent(g: Scopes, log: seq<Event>, jobs: seq<JobDesc>, registry: set<string>)
    requires Consistent(g, log) && g.current.Some?
    ensures Consistent(g, log + DispatchEvents(g.current.value, jobs, registry))
  {
    var c := g.current.value;
    var d := DispatchEvents(c, jobs, registry);
    var ld := log + d;
    forall i | 0 <= i < |ld| && RankAt(ld, i) >= 0
      ensures RankAt(ld, i) <= 3 * c + 2 && (i >= |log| ==> RankAt(ld, i) == 3 * c + 2)
    {
      if i < |log| {
        assert RankAt(ld, i) == RankAt(log, i);
      } else {
        assert ld[i] == d[i - |log|] && d[i - |log|] in d;
      }
    }
    forall i, j | 0 <= i < j < |ld| && RankAt(ld, i) >= 0 && RankAt(ld, j) >= 0
      ensures RankAt(ld, i) <= RankAt(ld, j)
    {
      if j < |log| {
        assert RankAt(ld, i) == RankAt(log, i) && RankAt(ld, j) == RankAt(log, j);
      }
    }
    forall s: nat
      ensures s in g.cancelled <==> Cancel(s) in ld
    {
      assert Cancel(s) !in d;
      assert Cancel(s) in ld <==> Cancel(s) in log || Cancel(s) in d;
    }
  }

  /** A successful iteration: the previous scope, if any, is cancelled first,
      the new scope is created next and only then are workers started, all of
      them under the new scope; the iteration ends with a sleep followed by a
      metrics dump.  In the first successful iteration nothing is cancelled. */
  lemma SuccessfulStepOrder(g: Scopes, jobs: seq<JobDesc>, registry: set<string>)
    ensures var ev := StepEvents(g, Ok(jobs), registry);
      var k := if g.current.Some? then 1 else 0;
      |ev| >= k + 3 &&
      (g.current.Some? ==> ev[0] == Cancel(g.current.value)) &&
      ev[k] == NewScope(g.nextId) &&
      (forall i | 0 <= i < |ev| && ev[i].Cancel? :: i == 0) &&
      (forall i | 0 <= i < |ev| && ev[i].Launch? :: k < i < |ev| - 2 && ev[i].scope == g.nextId) &&
      ev[|ev| - 2] == Sleep && ev[|ev| - 1] == Dump
  {
    var r := ReplaceEvents(g);
    var d := DispatchEvents(g.nextId, jobs, registry);
    var ev := r + d + [Sleep, Dump];
    var k := |r| - 1;
    forall i | 0 <= i < |ev|
      ensures ev[i].Cancel? ==> i == 0
      ensures ev[i].Launch? ==> k < i < |ev| - 2 && ev[i].scope == g.nextId
    {
      if i <= k {
        assert ev[i] == r[i];
      } else if i < |r| + |d| {
        assert ev[i] == d[i - |r|] && d[i - |r|] in d;
      }
    }
  }

  /** How often the unscoped entries occur in one iteration: a success logs
      exactly one sleep, one dump and no fetch warning; a failure logs its
      warning and neither a sleep nor a dump. */
  lemma StepCounts(g: Scopes, f: Fetch, registry: set<string>)
    ensures Count(StepEvents(g, f, registry), Sleep) == if f.Ok? then 1 else 0
    ensures Count(StepEvents(g, f, registry), Dump) == if f.Ok? then 1 else 0
    ensures Count(StepEvents(g, f, registry), FetchFailed) == if f.Ok? then 0 else 1
  {
    if f.Ok? {
      var rd := ReplaceEvents(g) + DispatchEvents(g.nextId, f.jobs, registry);
      var tail := [Sleep, Dump];
      assert Sleep !in rd && Dump !in rd && FetchFailed !in rd;
      assert tail[..1] == [Sleep] && [Sleep][..0] == [];
      CountAppend(rd, tail, Sleep);
      CountAppend(rd, tail, Dump);
      CountAppend(rd, tail, FetchFailed);
    } else {
      assert [FetchFailed][..0] == [];
    }
  }

  /** A successful iteration starts exactly `Expected` workers. */
  lemma StepWorkers(g: Scopes, jobs: seq<JobDesc>, registry: set<string>)
    ensures Workers(StepEvents(g, Ok(jobs), registry), {}) == Expected(jobs, registry)
  {
    var r := ReplaceEvents(g);
    var d := DispatchEvents(g.nextId, jobs, registry);
    var tail := [Sleep, Dump];
    DispatchWorkers(g.nextId, jobs, registry, {});
    WorkersAllDead(r, {});
    WorkersAllDead(tail, {});
    WorkersAppend(r + d, tail, {});
    WorkersAppend(r, d, {});
  }

  /** After a successful iteration the workers that have not been told to
      stop are exactly the ones started for the new job list: every earlier
      worker belongs to a scope that is now cancelled. */
  lemma LiveAfterRefresh(g: Scopes, log: seq<Event>, jobs: seq<JobDesc>, registry: set<string>)
    requires Consistent(g, log)
    ensures forall i | 0 <= i < |log| && log[i].Launch? :: log[i].scope in StepState(g, Ok(jobs)).cancelled
    ensures Workers(log + StepEvents(g, Ok(jobs), registry), StepState(g, Ok(jobs)).cancelled) ==
      Expected(jobs, registry)
  {
    var g' := StepState(g, Ok(jobs));
    var r := ReplaceEvents(g);
    var d := DispatchEvents(g.nextId, jobs, registry);
    var tail := [Sleep, Dump];
    forall i | 0 <= i < |log| && log[i].Launch?
      ensures log[i].scope in g'.cancelled
    {
      assert RankAt(log, i) == Rank(log[i]);
    }
    WorkersAllDead(log, g'.cancelled);
    WorkersAllDead(r, g'.cancelled);
    WorkersAllDead(tail, g'.cancelled);
    DispatchWorkers(g.nextId, jobs, registry, g'.cancelled);
    WorkersAppend(log, r + d + tail, g'.cancelled);
    WorkersAppend(r + d, tail, g'.cancelled);
    WorkersAppend(r, d, g'.cancelled);
  }

  /** In a log that keeps the invariant, no worker is started under a scope
      after that scope was cancelled or before it was created, and no scope is
      cancelled before it was created. */
  lemma CancelledScopeGetsNoWorkers(log: seq<Event>)
    requires Ordered(log)
    ensures forall i, j | 0 <= i < j < |log| && log[i].Cancel? && log[j].Launch? ::
      log[j].scope != log[i].scope
    ensures forall i, j | 0 <= i < j < |log| && log[i].Launch? && log[j].NewScope? ::
      log[j].scope != log[i].scope
    ensures forall i, j | 0 <= i < j < |log| && log[i].Cancel? && log[j].NewScope? ::
      log[j].scope != log[i].scope
  {
    forall i, j | 0 <= i < j < |log| && Scoped(log[i]) && Scoped(log[j])
      ensures Rank(log[i]) <= Rank(log[j])
    {
      assert RankAt(log, i) <= RankAt(log, j);
    }
  }

  /** Running the loop one outcome further is one more iteration. */
  lemma RunExtend(g: Scopes, outcomes: seq<Fetch>, i: nat, registry: set<string>)
    requires i < |outcomes|
    ensures RunState(g, outcomes[..i + 1]) == StepState(RunState(g, outcomes[..i]), outcomes[i])
    ensures RunEvents(g, outcomes[..i + 1], registry) ==
      RunEvents(g, outcomes[..i], registry) + StepEvents(RunState(g, outcomes[..i]), outcomes[i], registry)
  {
    assert outcomes[..i + 1][..i] == outcomes[..i];
  }

  /** A log that was `log0 + done` and then had `step` appended is `log0`
      followed by `done + step`. */
  lemma LogGrows(log0: seq<Event>, done: seq<Event>, step: seq<Event>, before: seq<Event>, after: seq<Event>)
    requires before == log0 + done && after == before + step
    ensures after == log0 + (done + step)
  {
  }

  /** Running the loop keeps the invariant; every success creates exactly
      one scope, and after at least one success the newest scope is current. */
  lemma {:induction false} RunKeepsConsistent(g: Scopes, log: seq<Event>, outcomes: seq<Fetch>, registry: set<string>)
    requires Consistent(g, log)
    ensures Consistent(RunState(g, outcomes), log + RunEvents(g, outcomes, registry))
    ensures RunState(g, outcomes).nextId == g.nextId + Successes(outcomes)
    ensures Successes(outcomes) > 0 ==> RunState(g, outcomes).current == Some(g.nextId + Successes(outcomes) - 1)
  {
    if outcomes != [] {
      var init := outcomes[..|outcomes| - 1];
      var done, before := RunEvents(g, init, registry), log + RunEvents(g, init, registry);
      var step := StepEvents(RunState(g, init), outcomes[|outcomes| - 1], registry);
      RunKeepsConsistent(g, log, init, registry);
      StepKeepsConsistent(RunState(g, init), before, outcomes[|outcomes| - 1], registry);
      LogGrows(log, done, step, before, before + step);
      assert RunEvents(g, outcomes, registry) == done + step;
      assert log + RunEvents(g, outcomes, registry) == before + step;
      assert RunState(g, outcomes) == StepState(RunState(g, init), outcomes[|outcomes| - 1]);
    } else {
      assert log + RunEvents(g, outcomes, registry) == log;
    }
  }

  /** Every successful fetch is followed by exactly one sleep and one dump;
      a failed fetch produces its warning and neither. */
  lemma {:induction false} RunSleepsAndDumps(g: Scopes, outcomes: seq<Fetch>, registry: set<string>)
    ensures Count(RunEvents(g, outcomes, registry), Sleep) == Successes(outcomes)
    ensures Count(RunEvents(g, outcomes, registry), Dump) == Successes(outcomes)
    ensures Count(RunEvents(g, outcomes, registry), FetchFailed) == |outcomes| - Successes(outcomes)
  {
    if outcomes != [] {
      var init := outcomes[..|outcomes| - 1];
      var last := outcomes[|outcomes| - 1];
      var done, step := RunEvents(g, init, registry), StepEvents(RunState(g, init), last, registry);
      RunSleepsAndDumps(g, init, registry);
      StepCounts(RunState(g, init), last, registry);
      CountAppend(done, step, Sleep);
      CountAppend(done, step, Dump);
      CountAppend(done, step, FetchFailed);
    }
  }

  /** Registry {"A"} and the list [A×3, B×1]: a new scope, three workers of
      A, a warning for B, then a sleep and a dump. */
  lemma ScenarioUnknownType()
    ensures var jobs := [JobDesc("A", 3, ""), JobDesc("B", 1, "")];
      StepEvents(Initial, Ok(jobs), {"A"}) ==
        [NewScope(0), Launch(0, "A", ""), Launch(0, "A", ""), Launch(0, "A", ""), Warn("B"), Sleep, Dump]
  {
    var a, b := JobDesc("A", 3, ""), JobDesc("B", 1, "");
    var l := Launch(0, "A", "");
    assert Launches(0, a, 3) == [l, l, l] by {
      assert Launches(0, a, 1) == [l];
      assert Launches(0, a, 2) == [l, l];
    }
    assert "B" !in {"A"};
    assert [a, b][..1] == [a] && [a][..0] == [];
    assert "A" in {"A"} && Replicas(3) == 3;
    assert DispatchEvents(0, [a], {"A"}) == [l, l, l];
    assert DispatchEvents(0, [a, b], {"A"}) == [l, l, l, Warn("B")];
  }

  /** Two successful fetches in a row: they create two scopes and cancel the
      first one between them. */
  lemma ScenarioTwoRefreshes(a: seq<JobDesc>, b: seq<JobDesc>, registry: set<string>)
    ensures RunEvents(Initial, [Ok(a), Ok(b)], registry) ==
      ([NewScope(0)] + DispatchEvents(0, a, registry) + [Sleep, Dump]) +
      ([Cancel(0), NewScope(1)] + DispatchEvents(1, b, registry) + [Sleep, Dump])
    ensures RunState(Initial, [Ok(a), Ok(b)]) == Scopes(Some(1), {0}, 2)
  {
    var outs := [Ok(a), Ok(b)];
    var g1 := Scopes(Some(0), {}, 1);
    RunExtend(Initial, outs, 0, registry);
    RunExtend(Initial, outs, 1, registry);
    assert outs[..0] == [] && outs[..2] == outs;
    assert RunState(Initial, outs[..1]) == g1;
    assert ReplaceEvents(Initial) == [NewScope(0)];
    assert ReplaceEvents(g1) == [Cancel(0), NewScope(1)];
    assert RunEvents(Initial, outs[..1], registry) == StepEvents(Initial, Ok(a), registry);
    assert {} + {0} == {0};
  }
}
