# Generational job orchestration loop of db1000n, in Dafny

The client's `main` runs an endless refresh loop. Each iteration fetches a job
list. A failed fetch logs a warning and the loop retries at once. A successful
fetch first invokes the cancel handle of the current scope, if there is one.
It then creates a new cancellable scope. For each job descriptor, in list
order, it looks the type up in the job registry. An unknown type gets a
warning and is skipped. A known type has its replica count raised to at least
one, and that many workers are started under the new scope. Finally the loop
sleeps for the refresh interval and dumps usage metrics.

The model replaces goroutines and contexts with an event log. The log records
`FetchFailed`, `Cancel(scope)`, `NewScope(scope)`, `Launch(scope, type, args)`,
`Warn(type)`, `Sleep` and `Dump`. Scopes are numbered in creation order. A
fetch outcome (`Ok(jobs)` or `Err`) is an input. The registry is a set of job
type names.

- `job_dispatch.dfy` (module `JobDispatch`): descriptors, fetch outcomes,
  events, and the specification of the dispatch fan-out: `Replicas`,
  `DispatchEvents`, `Expected` (the sum of `Replicas(count)` over registered
  descriptors), and `Workers` (launches whose scope is not in a given set of
  cancelled scopes).
- `scope_lifecycle.dfy` (module `ScopeLifecycle`): the scope bookkeeping as
  a value (`Scopes`), one iteration (`StepState`, `StepEvents`), a run over a
  finite sequence of fetch outcomes (`RunState`, `RunEvents`), and the
  invariant `Consistent`. `Consistent` says three things. First, once a scope
  exists, exactly the newest one is current and all older ones are cancelled.
  Second, the cancelled scopes are exactly those whose `Cancel` entry is in
  the log. Third, the scoped log entries are ordered by a rank: creation,
  then workers, then cancellation, one scope after the other.
- `refresh_loop.dfy` (module `RefreshLoop`): class `Controller`. It holds
  `current: Option<nat>` (the Go `cancel` variable), `cancelled`, `nextId` and
  `log`. Its methods are `Replace`, `Dispatch` (the descriptor loop and the
  replica loop as `while` loops), `Step` (one iteration) and `Cycle` (the loop
  driven over a finite sequence of fetch outcomes). Each is proved against the
  functions above.

The replica count is a plain Go `int`, so the model allows any integer, and
every count below one becomes one.

## Model

| member | source | states |
|---|---|---|
| `JobDispatch.Replicas` | main.go:91-93 | the worker count of a descriptor is at least one and at least the requested count; it equals the requested count when that is one or more, and is exactly one otherwise |
| `JobDispatch.Launches` | main.go:95-97 | the replica loop logs exactly `n` entries, each a launch of that descriptor's type with its payload under the given scope |
| `JobDispatch.DispatchEvents` | main.go:84-98 | dispatching a job list logs nothing but launches under the cycle's scope and "no such job" warnings |
| `JobDispatch.DescriptorOutcome` | main.go:85-97 | an unregistered type yields exactly one warning and no worker; a registered type yields exactly `Replicas(count)` launches of that type and payload under the scope; a count of zero or less yields exactly one launch |
| `JobDispatch.DispatchWorkers` | main.go:84-98 | the number of workers a job list starts under a live scope is `Expected`: the sum of `max(1, count)` over the registered descriptors |
| `JobDispatch.DispatchAppend` | main.go:84 | dispatching a concatenated list logs the dispatch of the first part followed by that of the second |
| `JobDispatch.DispatchInOrder` | main.go:84-98 | descriptors are dispatched in list order: descriptor `i`'s entries come after those of all earlier descriptors and before those of all later ones |
| `JobDispatch.UnknownTypeSkipped` | main.go:85-89 | an unregistered descriptor contributes one warning and nothing else, and every later descriptor is still dispatched in full |
| `ScopeLifecycle.StepEventsRanked` | main.go:78-98 | one iteration's scoped entries are in order (cancel of the old scope, creation of the new one, its workers) and rank above everything logged before |
| `ScopeLifecycle.StepCancels` | main.go:72-80 | the only cancellation an iteration logs is that of the scope current before a successful fetch; a failed fetch and the first success cancel nothing |
| `ScopeLifecycle.ReplaceKeepsConsistent` | main.go:78-83 | the replace step alone keeps the invariant, and leaves the new scope current and not cancelled |
| `ScopeLifecycle.DispatchKeepsConsistent` | main.go:84-98 | dispatching under the current scope keeps the invariant: its workers come after everything already logged and no scope is cancelled |
| `ScopeLifecycle.StepKeepsConsistent` | main.go:66-83 | every iteration, successful or not, keeps the invariant: at most one scope is live, older scopes are cancelled, each cancelled scope has its `Cancel` entry in the log and no other scope does, and the log stays ordered |
| `ScopeLifecycle.SuccessfulStepOrder` | main.go:78-101 | on success the previous scope is cancelled first (nothing is cancelled in the first success), the new scope is created next, all launches follow under the new scope, and the iteration ends with a sleep followed by a dump |
| `ScopeLifecycle.StepCounts` | main.go:72-101 | a successful iteration logs exactly one sleep, one dump and no fetch warning; a failed one logs one fetch warning and no sleep or dump |
| `ScopeLifecycle.StepWorkers` | main.go:84-98 | a successful iteration starts exactly `Expected(jobs, registry)` workers |
| `ScopeLifecycle.LiveAfterRefresh` | main.go:78-98 | after a successful iteration, every worker logged before the iteration belongs to a scope that is now cancelled, and the workers whose scope is not cancelled number exactly `Expected(jobs, registry)`, those started for the new job list |
| `ScopeLifecycle.CancelledScopeGetsNoWorkers` | main.go:78-96 | in an ordered log, no worker is started under a scope after its cancellation or before its creation, and no scope is cancelled before its creation |
| `ScopeLifecycle.RunKeepsConsistent` | main.go:71-102 | any run keeps the invariant; each success creates exactly one scope; after at least one success the newest scope is current |
| `ScopeLifecycle.RunSleepsAndDumps` | main.go:71-102 | over any run, sleeps and dumps each occur once per successful fetch, and fetch warnings once per failed fetch |
| `ScopeLifecycle.ScenarioUnknownType` | main.go:84-101 | with registry {A}, the list [A×3, B×1] logs a new scope, three launches of A, one warning for B, a sleep and a dump |
| `ScopeLifecycle.ScenarioTwoRefreshes` | main.go:71-102 | two successful fetches create scope 0, then cancel scope 0 before creating scope 1; the final state has scope 1 current and only scope 0 cancelled |
| `RefreshLoop.Controller.constructor` | main.go:66 | before the loop there is no cancel handle, nothing is cancelled and the log is empty |
| `RefreshLoop.Controller.Replace` | main.go:78-83 | invokes the current cancel handle if there is one, then creates a new scope and makes it current; the new state and log entries are exactly `Replaced` and `ReplaceEvents`; the invariant is kept and the new scope is current and not cancelled |
| `RefreshLoop.Controller.Dispatch` | main.go:84-98 | runs only under the current scope; the descriptor loop, with its skip on unknown type, count normalisation and replica loop, appends exactly `DispatchEvents(scope, jobs, registry)` to the log and keeps the invariant |
| `RefreshLoop.Controller.Step` | main.go:72-101 | one iteration matches `StepState`/`StepEvents` and keeps the invariant; a failed fetch leaves the scopes unchanged and only logs its warning; after a success the new scope is current and not cancelled, and the live workers number `Expected(jobs, registry)` |
| `RefreshLoop.Controller.Cycle` | main.go:71-102 | the loop over a finite sequence of fetch outcomes keeps the invariant and matches `RunState`/`RunEvents` |

## Left out

- Flag parsing and the help message (main.go:39-55): process bootstrap with no logic in the loop.
- Logger construction, log levels and the random client identity (main.go:57-62). Logging is modelled only as the `FetchFailed` and `Warn` entries. The client identity passed to the metrics dump is not modelled.
- The background country check started at main.go:64: a foreign network call unrelated to the loop.
- Fetching and decoding the configuration (`config.UpdateConfig`, main.go:72). It is not part of this model. Each iteration receives its outcome, `Ok(jobs)` or `Err`, as an input.
- The job registry's contents and the job functions themselves (main.go:85, main.go:96). The registry is a set of type names. A worker is a `Launch` entry whose payload is never inspected.
- Goroutine concurrency and `context` semantics. Cancellation is a logged request. Whether and when workers stop, and any overlap between generations, is not modelled.
- The sleep duration and the metrics transport (main.go:100-101). Only that they happen, and in what order, is modelled.
- The deferred `cancel()` (main.go:67-69). It runs only if `main` returns or panics; the loop never returns, and panics are not modelled.
- The endless loop is modelled over a finite sequence of fetch outcomes. Properties of an infinite run are not stated.
- Go's `int` (32 or 64 bits by platform) for the replica count is modelled as an unbounded integer. The replica loop counter stays below the count, so it cannot wrap.
