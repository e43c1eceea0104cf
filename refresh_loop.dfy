/** The refresh loop of the client's `main`, as the imperative program it is.

    A `Controller` holds what the loop keeps between iterations: the cancel
    handle of the current scope (here the number of that scope), and, for the
    model, the scopes already cancelled, the number of the next scope and the
    log of everything the loop has done.  Each method is proved against the
    functions of `ScopeLifecycle` and `JobDispatch`, whose properties are
    proved there. */
module RefreshLoop {
  import opened JobDispatch
  import opened ScopeLifecycle

  class Controller {
    /** The job registry: the type names for which a job function exists. */
    const registry: set<string>
    var current: Option<nat>
    var cancelled: set<nat>
    var nextId: nat
    var log: seq<Event>

    ghost function State(): Scopes
      reads this
    {
      Scopes(current, cancelled, nextId)
    }

    ghost predicate Valid()
      reads this
    {
      Consistent(State(), log)
    }

    /** The loop before its first iteration: no cancel handle yet. */
    constructor (registry: set<string>)
      ensures Valid()
      ensures this.registry == registry && State() == Initial && log == []
    {
      this.registry := registry;
      current, cancelled, nextId, log := None, {}, 0, [];
    }

    /** Generation controller: invoke the cancel handle of the current scope,
        if there is one, then create a new scope and make it current. */
    method Replace() returns (scope: nat)
      requires Valid()
      modifies this
      ensures Valid() && current == Some(scope) && scope !in cancelled
      ensures scope == old(nextId)
      ensures State() == Replaced(old(State()))
      ensures log == old(log) + ReplaceEvents(old(State()))
    {
      ghost var g, log0 := State(), log;
      if current.Some? {
        cancelled := cancelled + {current.value};
        log := log + [Cancel(current.value)];
      }
      scope := nextId;
      nextId := nextId + 1;
      current := Some(scope);
      log := log + [NewScope(scope)];
      ReplaceKeepsConsistent(g, log0);
      assert State() == Replaced(g) && log == log0 + ReplaceEvents(g);
    }

    /** Dispatch fan-out: for each descriptor in list order, warn and skip it
        when its type is not registered, otherwise raise its count to at
        least one and start that many workers under `scope`. */
    method Dispatch(scope: nat, jobs: seq<JobDesc>)
      requires Valid() && current == Some(scope)
      modifies this`log
      ensures Valid()
      ensures log == old(log) + DispatchEvents(scope, jobs, registry)
    {
      ghost var log0 := log;
      var i := 0;
      while i < |jobs|
        invariant 0 <= i <= |jobs|
        invariant log == log0 + DispatchEvents(scope, jobs[..i], registry)
      {
        var desc := jobs[i];
        ghost var done := DispatchEvents(scope, jobs[..i], registry);
        assert jobs[..i + 1][..i] == jobs[..i];
        if desc.jobType !in registry {
          log := log + [Warn(desc.jobType)];
          ConcatAssoc(log0, done, [Warn(desc.jobType)]);
          i := i + 1;
          continue;
        }
        var count := desc.count;
        if count < 1 {
          count := 1;
        }
        var k := 0;
        while k < count
          invariant 0 <= k <= count
          invariant log == log0 + done + Launches(scope, desc, k)
        {
          log := log + [Launch(scope, desc.jobType, desc.args)];
          k := k + 1;
        }
        ConcatAssoc(log0, done, Launches(scope, desc, k));
        i := i + 1;
      }
      assert jobs[..|jobs|] == jobs;
      DispatchKeepsConsistent(State(), log0, jobs, registry);
    }

    /** One iteration of the refresh loop, given what the fetch returned.  A
        failure logs a warning and changes no scope; a success replaces the
        scope, dispatches the job list, sleeps and dumps metrics, after which
        the workers not told to stop are exactly those of the new job list. */
    method Step(fetch: Fetch)
      requires Valid()
      modifies this
      ensures Valid()
      ensures State() == StepState(old(State()), fetch)
      ensures log == old(log) + StepEvents(old(State()), fetch, registry)
      ensures fetch.Err? ==> State() == old(State()) && log == old(log) + [FetchFailed]
      ensures fetch.Err? ==> Workers(log, cancelled) == old(Workers(log, cancelled))
      ensures fetch.Ok? ==> current == Some(old(nextId)) && old(nextId) !in cancelled
      ensures fetch.Ok? ==> Workers(log, cancelled) == Expected(fetch.jobs, registry)
    {
      ghost var g, log0 := State(), log;
      match fetch {
        case Err =>
          log := log + [FetchFailed];
          WorkersAppend(log0, [FetchFailed], cancelled);
        case Ok(jobs) =>
          var scope := Replace();
          Dispatch(scope, jobs);
          log := log + [Sleep];
          log := log + [Dump];
          assert log == log0 + StepEvents(g, fetch, registry);
          LiveAfterRefresh(g, log0, jobs, registry);
      }
      StepKeepsConsistent(g, log0, fetch, registry);
    }

    /** The loop driven over a finite sequence of fetch outcomes. */
    method Cycle(outcomes: seq<Fetch>)
      requires Valid()
      modifies this
      ensures Valid()
      ensures State() == RunState(old(State()), outcomes)
      ensures log == old(log) + RunEvents(old(State()), outcomes, registry)
    {
      ghost var start, log0 := State(), log;
      var i := 0;
      while i < |outcomes|
        invariant 0 <= i <= |outcomes|
        invariant Valid()
        invariant State() == RunState(start, outcomes[..i])
        invariant log == log0 + RunEvents(start, outcomes[..i], registry)
      {
        ghost var before, done := log, RunEvents(start, outcomes[..i], registry);
        ghost var step := StepEvents(State(), outcomes[i], registry);
        RunExtend(start, outcomes, i, registry);
        Step(outcomes[i]);
        LogGrows(log0, done, step, before, log);
        i := i + 1;
      }
      assert outcomes[..|outcomes|] == outcomes;
    }
  }
}
