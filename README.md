# easybreaker circuit breaker, modelled in Dafny

This project models `Breaker` from easybreaker's `circuit.go`. A `Breaker` wraps a
fallible request and decides, on each call, whether the request may run. It has three states:

- **closed**: every call is admitted and counted.
- **halfOpen**: a sample of `atLeastReqs` calls is admitted. The close policy then
  decides whether to close or reopen.
- **open**: calls are rejected with `ErrBreakerOpen` until the cooldown ends.

The state, the deadline `until` and the counters `total` and `failures` are updated
in place. They are fields of the class `Circuit.Breaker`.

Each method of the class is proved against a pure step function over a `Window`
value (state, deadline, counters):

- `Breaker.Ready` against `ReadyStep`
- `Breaker.OnFailure` against `FailureStep`
- `Breaker.Execute` against `ExecuteStep`

The state machine's properties are stated on those functions. Module
`CircuitProperties` proves what runs of calls do. It also proves how the construction
options combine and what invariant the counters keep.

Modelling choices:

- **Clock.** The clock is a parameter. `ready` reads it once (`now`). `onFailure`
  reads it again after the request has run (`after`).
- **Compare-and-swap.** Each compare-and-swap on `until` is a `won: bool` parameter.
  `true` is the sequential program. `false` is a caller whose swap lost to another
  caller, and it changes nothing itself. Its admission then follows the code: closed
  admits, open rejects, halfOpen-close admits, halfOpen-reopen rejects.
- **Integer widths.** The `uint32` counters wrap at 2^32 (`Inc`). The `int64`
  deadline sums wrap in two's complement (`Add64`).
- **Policies.** The two policies are Dafny functions `(u32, u32) -> bool`. A nil Go
  function is `None`.
- **Wrapped request.** It is a function `() -> Option<Error>`. The ghost counter
  `invocations` records whether `Execute` called it.
- **Errors.** They are a datatype. `BreakerOpen` stands for the sentinel
  `ErrBreakerOpen`. `Failed(reason)` is any error of the request itself.
- **Default trip rule.** `float64(failures)/float64(total) >= 0.05` is written as
  `total > 0 && 20 * failures >= total`:
  - The contract of `DefaultToOpen` states that this equals the exact real-number ratio rule.
  - For counts below 2^32 the float64 rounding cannot move the quotient across
    0.05. When the exact ratio is below 1/20, it is below by at least
    1/(20 * 2^32), which is far more than one rounding step near 0.05. When the exact
    ratio equals 1/20, it rounds to the same double as the literal. This argument
    about rounding is not proved in Dafny.

The model follows the code at three points where a reader might expect something else:

- `WithLeastReqs(0)` returns an error, but `New` discards every option's error.
  The breaker is still built (circuit.go:93-95). The zero is simply ignored: the probe
  count is the one an earlier nonzero `WithLeastReqs` set, or else the default of 100
  (circuit.go:97-99).
- `New` replaces a nil `toClosed` with the default (circuit.go:103-105).
  circuit_test.go:24-28 expects an error there, which the code does not return.
- In `ready`, an open breaker whose cooldown has ended starts the half-open window
  with the *interval*, not the cooldown (circuit.go:149).

`CircuitProperties.WhenClosedScenario` and `CircuitProperties.WhenOpenScenario` drive
the class through the call sequences of circuit_test.go:64-147. Their contracts state
the result and the window after each call, covering every deadline those tests pin down. The tests build the breaker with a test-only
option `withTime`, which is not part of this model. The scenarios pass the mocked
creation time as `New`'s `now`.

## Model

| member | source | states |
|---|---|---|
| Circuit.Inc | circuit.go:115-119 | `atomic.AddUint32(.., 1)`: the result is one more below 2^32 - 1 and wraps to 0 at 2^32 - 1; always congruent to x + 1 mod 2^32 |
| Circuit.Add64 | circuit.go:137 | `now + b.interval` on int64: equal to the sum when it fits, otherwise the two's-complement wrap (congruent mod 2^64) |
| Circuit.ReadyStep | circuit.go:126-184 | closed always admits, keeps the window before the deadline and otherwise (race won) starts a fresh closed window `now + interval`; open admits iff the cooldown ended and the race was won, then becomes halfOpen with deadline `now + interval` and reset counters, else changes nothing; halfOpen below `atLeastReqs` admits and changes nothing regardless of the deadline; halfOpen at or past it admits iff `toClosed(total, failures)`, closing with `now + interval` or reopening with `now + cooldown` (race won); a lost race changes nothing; every change resets both counters |
| Circuit.FailureStep | circuit.go:186-203 | no-op unless closed; closed with `toOpen(total, failures)` and the race won becomes open with deadline `now + cooldown` and reset counters; otherwise nothing changes; the only possible change is closed to open |
| Circuit.ExecuteStep | circuit.go:110-124 | rejected by the gate: returns `BreakerOpen` and the window is exactly what the gate left; admitted: returns the request's own result unchanged, counts one request, and on an error also counts one failure and then applies `onFailure` at the second clock reading |
| Circuit.DefaultToOpen | circuit.go:11-13 | the default trip rule holds exactly when `total > 0` and `failures / total >= 0.05` over the reals |
| Circuit.Configure | circuit.go:93-95 | the options applied in order; the resulting probe count is the initial one or one some `WithLeastReqs` supplied, and a positive count is never cleared |
| Circuit.ApplyOption | circuit.go:46-72 | `WithLeastReqs(0)` changes nothing, `WithLeastReqs(n)` sets only the probe count, `WithStateFunc(o, c)` sets both policies (nil included) and nothing else |
| Circuit.WithDefaults | circuit.go:97-105 | probe count 100 when unset or 0, else kept; a set policy is kept; a nil `toOpen` becomes `DefaultToOpen` and a nil `toClosed` becomes `DefaultToClosed` (so `WithStateFunc(to, nil)` gets the default close rule) |
| Circuit.Breaker.constructor | circuit.go:86-91 | the struct literal: given interval and cooldown, state closed, deadline `now + interval`, counters 0, no options applied |
| Circuit.Breaker.Apply | circuit.go:50-72 | runs one option closure on the breaker: the new settings are `ApplyOption` of the old, the error is returned only for `WithLeastReqs(0)`, the window is untouched |
| Circuit.Breaker.Ready | circuit.go:126-184 | the admission decision and the new state, deadline and counters are exactly `ReadyStep` of the old ones |
| Circuit.Breaker.OnFailure | circuit.go:186-203 | the new state, deadline and counters are exactly `FailureStep` of the old ones |
| Circuit.Breaker.Execute | circuit.go:110-124 | the returned error and the new window are exactly `ExecuteStep` of the old window; the wrapped request is invoked once when admitted and never when rejected |
| Circuit.New | circuit.go:78-108 | a zero interval gives the interval error and no breaker; else a zero cooldown gives the cooldown error and no breaker; otherwise a fresh valid breaker, closed, deadline `now + interval`, counters 0, with the options applied in order and then the defaults (`WithDefaults(Configure(fns, Unset))`) |
| CircuitProperties.LastLeastReqsWins | circuit.go:93-95 | the last nonzero `WithLeastReqs` among the options decides the probe count |
| CircuitProperties.NoLeastReqsKeeps | circuit.go:97-99 | with no nonzero `WithLeastReqs` the probe count is untouched and `New` ends with 100 |
| CircuitProperties.LastStateFuncWins | circuit.go:66-72 | the last `WithStateFunc` decides both policies, including nil ones |
| CircuitProperties.NoStateFuncDefaults | circuit.go:100-105 | with no `WithStateFunc` the policies are untouched and `New` installs both defaults |
| CircuitProperties.Run | circuit.go:110-124 | a sequence of sequential `Execute` calls yields one result per call |
| CircuitProperties.ClosedWindowAdmitsAll | circuit.go:131-134 | closed, before the deadline, successful requests: every call is admitted with no error, the total grows by the number of calls and nothing else changes |
| CircuitProperties.CooldownRejectsAll | circuit.go:144-147 | open, before the deadline: every call returns `BreakerOpen` and the window stays exactly as it was |
| CircuitProperties.ProbeSampleAdmitted | circuit.go:159-165 | halfOpen with at most `atLeastReqs` requests in the window: every call is admitted and returns its own result, the total grows by the number of calls and the failures by the number of failing calls, state and deadline are unchanged |
| CircuitProperties.ProbeDecision | circuit.go:167-183 | a fresh halfOpen window admits exactly `atLeastReqs` calls with their own results; the next call consults `toClosed` on that sample: if it holds the call is admitted with its own result, and a successful decision call leaves the breaker closed with deadline `now + interval` and that one request counted (a failing one then goes through `onFailure`); if it fails the call is rejected and the breaker reopens with deadline `now + cooldown` and reset counters |
| CircuitProperties.TripOnce | circuit_test.go:188-211 | with a trip policy that holds, one failing closed call opens the breaker with one cooldown counted from that failure, and every later call within it is rejected |
| CircuitProperties.TransitionOncePerBoundary | circuit.go:137-156 | after a closed rollover or an open-to-halfOpen transition at `now`, a later gate before `now + interval` admits and changes nothing: one transition per boundary |
| CircuitProperties.ExecuteKeepsCoherent | circuit.go:115-121 | one sequential `Execute` keeps failures at most total and a halfOpen total at most `atLeastReqs`, unless the total is about to wrap |
| CircuitProperties.DefaultTripRule | circuit.go:11-13 | under the default trip rule a failing closed request trips the breaker exactly when failures reach 5% of the requests counted, this one included, and then for one cooldown from the second clock reading; in a fresh window the first failure trips it |
| CircuitProperties.DefaultCloseRule | circuit.go:15-17 | under the default close rule a fresh halfOpen sample followed by a successful call closes the breaker exactly when no sampled request failed; otherwise the deciding call is rejected and the breaker reopens for one cooldown |
| CircuitProperties.WhenClosedScenario | circuit_test.go:64-96 | the results and windows after each of the three calls: two admitted in the first window (totals 1 and 2, deadline +60 s), then a new window from +61 s to +121 s with total 1 |
| CircuitProperties.WhenOpenScenario | circuit_test.go:98-147 | the results and windows after each of the six calls: trip to open until +120 s, rejection during the cooldown, halfOpen until +181 s, reopen until +241 s, halfOpen until +302 s, closed until +362 s |
| CircuitProperties.RunKeepsCoherent | circuit.go:110-124 | the same invariant across any run of calls that cannot wrap the total |

## Left out

- Concurrency and atomics: calls are sequential. A lost compare-and-swap is only the `won = false` parameter.
  The interleavings of the goroutine tests (circuit_test.go:149-241) are not modelled.
  Neither are counter increments that land in a window another caller is resetting.
- The time source (`time.Now()`, the `now` field, the test helper `withTime`) is replaced by explicit clock parameters.
- `time.Duration` is taken as its nanosecond count, so `interval` and `cooldown` are `int64` values. Negative durations are accepted, as in the code.
- Error texts are not modelled: errors are datatype constructors. In the source, `WithLeastReqs(0)` reports "interval must be set". Here that error is `LeastReqsZero`.
- Floating-point division in `defaultToOpen`: see the rounding argument above. The argument is not proved.
- Nil clock: `New` never sets the `now` field (circuit.go:43, circuit.go:86-91); the tests install it through the helper `withTime`, which is not part of this model. As written, a breaker built without it calls a nil function at circuit.go:129 or circuit.go:196 and panics. One such path is circuit_test.go:45-60, whose tripping `onFailure` reaches circuit.go:196. The model assumes a clock is always installed and passes its readings as parameters.
- Go's `errors` identity: a request that itself returns `ErrBreakerOpen` is returned unchanged. It cannot then be told apart from a rejection. The model lets a request return `BreakerOpen` too.
- CircuitProperties.ClosedWindowAdmitsAll: covers successful requests only. Failing requests in the closed state go through `onFailure`, which `FailureStep` covers call by call.
