/** The dispatch fan-out of one refresh cycle of the client's main loop.

    Every descriptor of the fetched job list is looked up in the job registry;
    an unknown type is reported with a warning and skipped, a known one has its
    replica count raised to at least one and that many workers are started
    under the cancellation scope of the cycle.  Goroutines are not modelled:
    starting a worker is an entry in an event log, and everything the loop does
    that can be observed from outside is such an entry. */
module JobDispatch {

  datatype Option<T> = None | Some(value: T)

  /** A job descriptor: the job type name, the requested number of replicas
      (a Go `int`, so it may be zero or negative) and an argument payload
      that the loop hands to the worker without looking at it. */
  datatype JobDesc = JobDesc(jobType: string, count: int, args: string)

  /** What one configuration fetch returned: a job list, or an error. */
  datatype Fetch = Ok(jobs: seq<JobDesc>) | Err

  /** The observable effects of the refresh loop. */
  datatype Event =
    | FetchFailed                                        // warning about a failed fetch
    | Cancel(scope: nat)                                 // the cancel handle of a scope is invoked
    | NewScope(scope: nat)                               // a fresh cancellable context is created
    | Launch(scope: nat, jobType: string, args: string)  // one worker goroutine is started
    | Warn(jobType: string)                              // "no such job" warning
    | Sleep                                              // the refresh interval is waited out
    | Dump                                               // usage metrics are dumped

  /** Number of workers started for a resolvable descriptor: a count below
      one is raised to one, any other count is kept. */
  function Replicas(count: int): (n: nat)
    ensures n >= 1 && n >= count
    ensures count >= 1 ==> n == count
    ensures count < 1 ==> n == 1
  {
    if count < 1 then 1 else count
  }

  /** The log entries of `n` workers of descriptor `d` started under `scope`. */
  function Launches(scope: nat, d: JobDesc, n: nat): (r: seq<Event>)
    ensures |r| == n
    ensures forall e | e in r :: e == Launch(scope, d.jobType, d.args)
  {
    if n == 0 then [] else Launches(scope, d, n - 1) + [Launch(scope, d.jobType, d.args)]
  }

  /** What dispatching one descriptor appends to the log. */
  function DescEvents(scope: nat, d: JobDesc, registry: set<string>): seq<Event>
  {
    if d.jobType in registry then Launches(scope, d, Replicas(d.count)) else [Warn(d.jobType)]
  }

  /** What dispatching a whole job list, in list order, appends to the log:
      nothing but launches under `scope` and warnings. */
  function DispatchEvents(scope: nat, jobs: seq<JobDesc>, registry: set<string>): (r: seq<Event>)
    ensures forall e | e in r :: (e.Launch? && e.scope == scope) || e.Warn?
  {
    if jobs == [] then []
    else DispatchEvents(scope, jobs[..|jobs| - 1], registry) + DescEvents(scope, jobs[|jobs| - 1], registry)
  }

  /** The expected number of workers for a job list: the sum of
      `Replicas(d.count)` over the descriptors whose type is registered. */
  function Expected(jobs: seq<JobDesc>, registry: set<string>): nat
  {
    if jobs == [] then 0
    else
      var d := jobs[|jobs| - 1];
      Expected(jobs[..|jobs| - 1], registry) + (if d.jobType in registry then Replicas(d.count) else 0)
  }

  /** Number of workers in `log` whose scope is not in `dead`: with `dead`
      the set of cancelled scopes, the workers that have not been told to stop. */
  function Workers(log: seq<Event>, dead: set<nat>): (n: nat)
    ensures n <= |log|
  {
    if log == [] then 0
    else
      var e := log[|log| - 1];
      Workers(log[..|log| - 1], dead) + (if e.Launch? && e.scope !in dead then 1 else 0)
  }

  /** Number of occurrences of `e` in `log`. */
  function Count(log: seq<Event>, e: Event): (n: nat)
    ensures n <= |log|
    ensures n == 0 <==> e !in log
  {
    if log == [] then 0
    else Count(log[..|log| - 1], e) + (if log[|log| - 1] == e then 1 else 0)
  }

  lemma {:induction false} CountAppend(a: seq<Event>, b: seq<Event>, e: Event)
    ensures Count(a + b, e) == Count(a, e) + Count(b, e)
    decreases |b|
  {
    if b == [] {
      assert a + b == a;
    } else {
      var b' := b[..|b| - 1];
      CountAppend(a, b', e);
      assert (a + b)[..|a + b| - 1] == a + b';
    }
  }

  lemma ConcatAssoc<T>(a: seq<T>, b: seq<T>, c: seq<T>)
    ensures a + b + c == a + (b + c)
  {
  }

  lemma {:induction false} WorkersAppend(a: seq<Event>, b: seq<Event>, dead: set<nat>)
    ensures Workers(a + b, dead) == Workers(a, dead) + Workers(b, dead)
    decreases |b|
  {
    if b == [] {
      assert a + b == a;
    } else {
      var b' := b[..|b| - 1];
      WorkersAppend(a, b', dead);
      assert (a + b)[..|a + b| - 1] == a + b';
    }
  }

  /** A log whose every worker belongs to a dead scope has no live worker. */
  lemma {:induction false} WorkersAllDead(log: seq<Event>, dead: set<nat>)
    requires forall i | 0 <= i < |log| && log[i].Launch? :: log[i].scope in dead
    ensures Workers(log, dead) == 0
  {
    if log != [] {
      WorkersAllDead(log[..|log| - 1], dead);
    }
  }

  lemma {:induction false} LaunchesWorkers(scope: nat, d: JobDesc, n: nat, dead: set<nat>)
    ensures Workers(Launches(scope, d, n), dead) == if scope in dead then 0 else n
  {
    if n > 0 {
      LaunchesWorkers(scope, d, n - 1, dead);
      var r := Launches(scope, d, n);
      assert r[..|r| - 1] == Launches(scope, d, n - 1);
    }
  }

  /** One descriptor: an unregistered type yields one warning and no worker;
      a registered type yields exactly `Replicas(count)` workers of that type,
      with that payload, under `scope`; so a count of zero or less yields one. */
  lemma DescriptorOutcome(scope: nat, d: JobDesc, registry: set<string>, dead: set<nat>)
    requires scope !in dead
    ensures d.jobType !in registry ==> DescEvents(scope, d, registry) == [Warn(d.jobType)]
    ensures d.jobType in registry ==>
      |DescEvents(scope, d, registry)| == Replicas(d.count) &&
      forall e | e in DescEvents(scope, d, registry) :: e == Launch(scope, d.jobType, d.args)
    ensures d.jobType in registry && d.count < 1 ==>
      DescEvents(scope, d, registry) == [Launch(scope, d.jobType, d.args)]
    ensures Workers(DescEvents(scope, d, registry), dead) ==
      if d.jobType in registry then Replicas(d.count) else 0
  {
    if d.jobType in registry {
      LaunchesWorkers(scope, d, Replicas(d.count), dead);
      if d.count < 1 {
        var r := DescEvents(scope, d, registry);
        assert |r| == 1 && r[0] in r;
      }
    }
  }

  /** Dispatching a job list under a live scope starts exactly `Expected`
      workers: one per replica of every registered descriptor. */
  lemma {:induction false} DispatchWorkers(scope: nat, jobs: seq<JobDesc>, registry: set<string>, dead: set<nat>)
    requires scope !in dead
    ensures Workers(DispatchEvents(scope, jobs, registry), dead) == Expected(jobs, registry)
  {
    if jobs != [] {
      var init, d := jobs[..|jobs| - 1], jobs[|jobs| - 1];
      DispatchWorkers(scope, init, registry, dead);
      DescriptorOutcome(scope, d, registry, dead);
      WorkersAppend(DispatchEvents(scope, init, registry), DescEvents(scope, d, registry), dead);
    }
  }

  /** Dispatch of a concatenated list is the dispatch of its parts, in order. */
  lemma {:induction false} DispatchAppend(scope: nat, a: seq<JobDesc>, b: seq<JobDesc>, registry: set<string>)
    ensures DispatchEvents(scope, a + b, registry) ==
      DispatchEvents(scope, a, registry) + DispatchEvents(scope, b, registry)
    decreases |b|
  {
    if b == [] {
      assert a + b == a;
    } else {
      var b', x := b[..|b| - 1], b[|b| - 1];
      DispatchAppend(scope, a, b', registry);
      assert (a + b)[..|a + b| - 1] == a + b';
      ConcatAssoc(DispatchEvents(scope, a, registry), DispatchEvents(scope, b', registry), DescEvents(scope, x, registry));
    }
  }

  /** Descriptors are dispatched in list order: the entries of descriptor `i`
      come after those of every earlier descriptor and before those of every
      later one. */
  lemma DispatchInOrder(scope: nat, jobs: seq<JobDesc>, i: nat, registry: set<string>)
    requires i < |jobs|
    ensures DispatchEvents(scope, jobs, registry) ==
      DispatchEvents(scope, jobs[..i], registry) + DescEvents(scope, jobs[i], registry) +
      DispatchEvents(scope, jobs[i + 1..], registry)
  {
    assert jobs == jobs[..i] + [jobs[i]] + jobs[i + 1..];
    DispatchAppend(scope, jobs[..i] + [jobs[i]], jobs[i + 1..], registry);
    DispatchAppend(scope, jobs[..i], [jobs[i]], registry);
    assert [jobs[i]][..0] == [];
  }

  /** An unregistered descriptor contributes one warning and nothing else,
      and every descriptor after it is still dispatched in full. */
  lemma UnknownTypeSkipped(scope: nat, jobs: seq<JobDesc>, i: nat, registry: set<string>)
    requires i < |jobs| && jobs[i].jobType !in registry
    ensures DispatchEvents(scope, jobs, registry) ==
      DispatchEvents(scope, jobs[..i], registry) + [Warn(jobs[i].jobType)] +
      DispatchEvents(scope, jobs[i + 1..], registry)
  {
    DispatchInOrder(scope, jobs, i, registry);
  }
}
