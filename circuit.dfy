/** A three-state circuit breaker (closed / half-open / open) that counts the
    requests and failures of the current time window and decides, on every
    call, whether to let the wrapped request run.

    The breaker's mutable fields live in class `Breaker`; every method of it
    is proved against a pure step function over a `Window` value
    (`ReadyStep`, `FailureStep`, `ExecuteStep`), and the properties of the
    state machine are stated on those functions. The clock is an explicit
    `now` parameter, and each compare-and-swap on the deadline is an explicit
    `won` parameter: `true` is the sequential run, `false` is a caller that
    lost the race to another caller. */
module Circuit {

  datatype Option<T> = None | Some(value: T) {
    function GetOr(default: T): T {
      match this
      case Some(v) => v
      case None => default
    }
  }

  // ---------------------------------------------------------------------
  // Machine integers

  const U32_LIMIT: int := 0x1_0000_0000
  const I64_MIN: int := -0x8000_0000_0000_0000
  const I64_LIMIT: int := 0x8000_0000_0000_0000

  type u32 = x: int | 0 <= x < U32_LIMIT
  type i64 = x: int | I64_MIN <= x < I64_LIMIT

  /** `atomic.AddUint32(&x, 1)`: the counter wraps to 0 after 2^32 - 1. */
  function Inc(x: u32): (r: u32)
    ensures x < U32_LIMIT - 1 ==> r == x + 1
    ensures x == U32_LIMIT - 1 ==> r == 0
    ensures (r - x - 1) % U32_LIMIT == 0
  {
    (x + 1) % U32_LIMIT
  }

  /** Go's `int64` addition, which wraps in two's complement. */
  function Add64(a: i64, b: i64): (r: i64)
    ensures I64_MIN <= a + b < I64_LIMIT ==> r == a + b
    ensures (r - (a + b)) % (2 * I64_LIMIT) == 0
  {
    var s := a + b;
    if s >= I64_LIMIT then s - 2 * I64_LIMIT
    else if s < I64_MIN then s + 2 * I64_LIMIT
    else s
  }

  // ---------------------------------------------------------------------
  // States, errors, policies

  /** The source's constants closed = 0, halfOpen = 1, open = 2. */
  datatype State = Closed | HalfOpen | Open

  /** The errors the breaker produces, plus the wrapped request's own
      errors (`Failed`). The source compares `ErrBreakerOpen` by identity;
      here it is the constructor `BreakerOpen`. */
  datatype Error =
    | BreakerOpen
    | IntervalUnset
    | CooldownUnset
    | LeastReqsZero
    | Failed(reason: string)

  /** A `ToState` decision over (total, failures). */
  type Policy = (u32, u32) -> bool

  const DEFAULT_AT_LEAST_REQ: u32 := 100

  /** The default trip rule `failures / total >= 0.05`, written over the
      integers; the contract states that it is exactly the ratio rule. */
  function DefaultToOpen(total: u32, failures: u32): (r: bool)
    ensures r <==> total > 0 && (failures as real) / (total as real) >= 0.05
  {
    total > 0 && 20 * failures >= total
  }

  /** The default close rule: the half-open sample had no failures. */
  predicate DefaultToClosed(total: u32, failures: u32) {
    failures == 0
  }

  // ---------------------------------------------------------------------
  // Value-level view of a breaker

  /** The settings that `New` fixes and that no call changes. */
  datatype Config = Config(
    interval: i64,
    cooldown: i64,
    atLeastReqs: u32,
    toOpen: Policy,
    toClosed: Policy)

  /** State machine position, deadline and the current window's counters. */
  datatype Window = Window(state: State, until: i64, total: u32, failures: u32)

  /** The window every transition starts: fresh deadline, counters at 0. */
  function Fresh(state: State, until: i64): Window
  {
    Window(state, until, 0, 0)
  }

  /** Decision of the admission gate and the window after it. */
  datatype Gate = Gate(admitted: bool, next: Window)

  /** `ready`: admits or rejects a call at time `now` and performs the
      rollover or transition the decision implies. `won` is the outcome of
      this caller's compare-and-swap on the deadline. */
  function ReadyStep(c: Config, w: Window, now: i64, won: bool): (g: Gate)
    // closed: always admitted; an elapsed interval starts a new one
    ensures w.state == Closed ==> g.admitted
    ensures w.state == Closed && now < w.until ==> g.next == w
    ensures w.state == Closed && w.until <= now && won ==>
              g.next == Fresh(Closed, Add64(now, c.interval))
    // open: rejected during the cooldown; afterwards half-open for one interval
    ensures w.state == Open ==> (g.admitted <==> w.until <= now && won)
    ensures w.state == Open && g.admitted ==> g.next == Fresh(HalfOpen, Add64(now, c.interval))
    ensures w.state == Open && !g.admitted ==> g.next == w
    // half-open: admitted without any change until atLeastReqs requests were seen
    ensures w.state == HalfOpen && w.total < c.atLeastReqs ==> g.admitted && g.next == w
    // half-open past the threshold: the close policy alone decides admission
    ensures w.state == HalfOpen && w.total >= c.atLeastReqs ==>
              (g.admitted <==> c.toClosed(w.total, w.failures))
    ensures w.state == HalfOpen && w.total >= c.atLeastReqs && won ==>
              g.next == (if c.toClosed(w.total, w.failures)
                         then Fresh(Closed, Add64(now, c.interval))
                         else Fresh(Open, Add64(now, c.cooldown)))
    // a caller that loses the race changes nothing itself
    ensures !won ==> g.next == w
    // every change of the window is a transition that resets both counters
    ensures g.next != w ==> g.next.total == 0 && g.next.failures == 0
  {
    match w.state
    case Closed =>
      if now < w.until then Gate(true, w)
      else if won then Gate(true, Fresh(Closed, Add64(now, c.interval)))
      else Gate(true, w)
    case Open =>
      if now < w.until then Gate(false, w)
      else if won then Gate(true, Fresh(HalfOpen, Add64(now, c.interval)))
      else Gate(false, w)
    case HalfOpen =>
      if w.total < c.atLeastReqs then Gate(true, w)
      else if c.toClosed(w.total, w.failures) then
        Gate(true, if won then Fresh(Closed, Add64(now, c.interval)) else w)
      else
        Gate(false, if won then Fresh(Open, Add64(now, c.cooldown)) else w)
  }

  /** `onFailure`: after a failed request, trips a closed breaker when the
      open policy says so. */
  function FailureStep(c: Config, w: Window, now: i64, won: bool): (w': Window)
    ensures w.state != Closed ==> w' == w
    ensures w.state == Closed && c.toOpen(w.total, w.failures) && won ==>
              w' == Fresh(Open, Add64(now, c.cooldown))
    ensures !(c.toOpen(w.total, w.failures) && won) ==> w' == w
    ensures w' != w ==> w.state == Closed && w'.state == Open
  {
    if w.state != Closed then w
    else if c.toOpen(w.total, w.failures) && won then Fresh(Open, Add64(now, c.cooldown))
    else w
  }

  /** What `Execute` returns and the window it leaves behind. */
  datatype Outcome = Outcome(err: Option<Error>, next: Window)

  /** `Execute`: the gate at time `now`; if admitted, count the request, take
      the wrapped request's `result`, and on an error count the failure and
      run `onFailure`, which reads the clock again (`after`). */
  function ExecuteStep(c: Config, w: Window, now: i64, after: i64,
                       result: Option<Error>, wonReady: bool, wonFailure: bool): (o: Outcome)
    // rejected: the breaker-open error, and nothing beyond what ready did
    ensures !ReadyStep(c, w, now, wonReady).admitted ==>
              o == Outcome(Some(BreakerOpen), ReadyStep(c, w, now, wonReady).next)
    // admitted: the request's own result, unchanged
    ensures ReadyStep(c, w, now, wonReady).admitted ==> o.err == result
    // admitted successful request: one more request in the window
    ensures ReadyStep(c, w, now, wonReady).admitted && result.None? ==>
              o.next == ReadyStep(c, w, now, wonReady).next.(
                          total := Inc(ReadyStep(c, w, now, wonReady).next.total))
    // admitted failed request: one more request and one more failure, then onFailure
    ensures ReadyStep(c, w, now, wonReady).admitted && result.Some? ==>
              var g := ReadyStep(c, w, now, wonReady).next;
              o.next == FailureStep(c, g.(total := Inc(g.total), failures := Inc(g.failures)),
                                    after, wonFailure)
  {
    var g := ReadyStep(c, w, now, wonReady);
    if !g.admitted then Outcome(Some(BreakerOpen), g.next)
    else
      var counted := g.next.(total := Inc(g.next.total));
      if result.None? then Outcome(result, counted)
      else Outcome(result, FailureStep(c, counted.(failures := Inc(counted.failures)),
                                       after, wonFailure))
  }

  // ---------------------------------------------------------------------
  // Construction options

  /** `OptionCall` values: `WithLeastReqs(n)` and `WithStateFunc(o, c)`;
      a `None` policy is Go's nil function. */
  datatype OptionCall =
    | WithLeastReqs(atLeastReqs: u32)
    | WithStateFunc(toOpen: Option<Policy>, toClosed: Option<Policy>)

  /** The part of a breaker that options write. */
  datatype Settings = Settings(atLeastReqs: u32, toOpen: Option<Policy>, toClosed: Option<Policy>)

  /** Settings of the struct literal in `New`, before any option runs. */
  const Unset: Settings := Settings(0, None, None)

  /** Effect of one option closure on the settings. */
  function ApplyOption(s: Settings, fn: OptionCall): (s': Settings)
    ensures fn.WithLeastReqs? && fn.atLeastReqs == 0 ==> s' == s
    ensures fn.WithLeastReqs? && fn.atLeastReqs != 0 ==>
              s' == s.(atLeastReqs := fn.atLeastReqs)
    ensures fn.WithStateFunc? ==> s' == s.(toOpen := fn.toOpen, toClosed := fn.toClosed)
  {
    match fn
    case WithLeastReqs(n) => if n == 0 then s else s.(atLeastReqs := n)
    case WithStateFunc(o, cl) => s.(toOpen := o, toClosed := cl)
  }

  /** The options applied in order, as `New`'s loop does. The probe count
      afterwards is the initial one or one that some option supplied, and a
      positive count is never cleared. */
  function Configure(fns: seq<OptionCall>, s: Settings): (s': Settings)
    ensures s'.atLeastReqs == s.atLeastReqs ||
            exists j :: 0 <= j < |fns| && fns[j].WithLeastReqs? && fns[j].atLeastReqs == s'.atLeastReqs
    ensures s.atLeastReqs > 0 ==> s'.atLeastReqs > 0
  {
    if fns == [] then s
    else
      var n := |fns| - 1;
      assert forall k :: 0 <= k < n ==> fns[..n][k] == fns[k];
      ApplyOption(Configure(fns[..n], s), fns[n])
  }

  /** Defaults that `New` fills in after the options ran. */
  function WithDefaults(s: Settings): (s': Settings)
    ensures s'.atLeastReqs == (if s.atLeastReqs == 0 then DEFAULT_AT_LEAST_REQ else s.atLeastReqs)
    ensures s'.atLeastReqs > 0 && s'.toOpen.Some? && s'.toClosed.Some?
    ensures s.toOpen.Some? ==> s'.toOpen == s.toOpen
    ensures s.toClosed.Some? ==> s'.toClosed == s.toClosed
    ensures s.toOpen.None? ==> s'.toOpen == Some(DefaultToOpen)
    ensures s.toClosed.None? ==> s'.toClosed == Some(DefaultToClosed)
  {
    Settings(
      if s.atLeastReqs == 0 then DEFAULT_AT_LEAST_REQ else s.atLeastReqs,
      Some(s.toOpen.GetOr(DefaultToOpen)),
      Some(s.toClosed.GetOr(DefaultToClosed)))
  }

  // ---------------------------------------------------------------------
  // The breaker object

  class Breaker {
    var state: State
    var until: i64
    const interval: i64
    const cooldown: i64
    var atLeastReqs: u32
    var toOpenState: Option<Policy>
    var toClosedState: Option<Policy>
    var total: u32
    var failures: u32
    /** How many times `Execute` has invoked a wrapped request. */
    ghost var invocations: nat

    /** What `New` establishes: a positive probe count and both policies set. */
    ghost predicate Valid()
      reads this
    {
      atLeastReqs > 0 && toOpenState.Some? && toClosedState.Some?
    }

    function View(): (w: Window)
      reads this
    {
      Window(state, until, total, failures)
    }

    function Options(): (s: Settings)
      reads this
    {
      Settings(atLeastReqs, toOpenState, toClosedState)
    }

    ghost function Cfg(): (c: Config)
      requires Valid()
      reads this
    {
      Config(interval, cooldown, atLeastReqs, toOpenState.value, toClosedState.value)
    }

    /** The struct literal of `New`: closed, deadline one interval after
        `now`, no options yet. */
    constructor (interval: i64, cooldown: i64, now: i64)
      ensures this.interval == interval && this.cooldown == cooldown
      ensures View() == Fresh(Closed, Add64(now, interval))
      ensures Options() == Unset && invocations == 0
    {
      this.interval := interval;
      this.cooldown := cooldown;
      until := Add64(now, interval);
      state := Closed;
      total, failures := 0, 0;
      atLeastReqs := 0;
      toOpenState, toClosedState := None, None;
      invocations := 0;
    }

    /** Runs one option closure on this breaker and returns its error. */
    method Apply(fn: OptionCall) returns (err: Option<Error>)
      modifies this
      ensures err == (if fn.WithLeastReqs? && fn.atLeastReqs == 0 then Some(LeastReqsZero) else None)
      ensures Options() == ApplyOption(old(Options()), fn)
      ensures View() == old(View()) && invocations == old(invocations)
    {
      match fn
      case WithLeastReqs(n) =>
        if n == 0 {
          return Some(LeastReqsZero);
        }
        atLeastReqs := n;
        err := None;
      case WithStateFunc(o, cl) =>
        toOpenState := o;
        toClosedState := cl;
        err := None;
    }

    /** `ready`, the admission gate. */
    method Ready(now: i64, won: bool) returns (admitted: bool)
      requires Valid()
      modifies this`state, this`until, this`total, this`failures
      ensures Gate(admitted, View()) == ReadyStep(old(Cfg()), old(View()), now, won)
    {
      var until0 := until;
      var state0 := state;
      if state0 == Closed {
        if now < until0 {
          return true;
        }
        if won {
          until := Add64(now, interval);
          failures := 0;
          total := 0;
        }
        return true;
      }
      if state0 == Open {
        if now < until0 {
          return false;
        }
        if won {
          until := Add64(now, interval);
          failures := 0;
          total := 0;
          state := HalfOpen;
          return true;
        }
        return false;
      }
      var total0 := total;
      var failures0 := failures;
      if total0 < atLeastReqs {
        return true;
      }
      if toClosedState.value(total0, failures0) {
        if won {
          until := Add64(now, interval);
          failures := 0;
          total := 0;
          state := Closed;
        }
        return true;
      }
      if won {
        until := Add64(now, cooldown);
        failures := 0;
        total := 0;
        state := Open;
      }
      return false;
    }

    /** `onFailure`: the early trip of a closed breaker. */
    method OnFailure(now: i64, won: bool)
      requires Valid()
      modifies this`state, this`until, this`total, this`failures
      ensures View() == FailureStep(old(Cfg()), old(View()), now, won)
    {
      if state != Closed {
        return;
      }
      var total0 := total;
      var failures0 := failures;
      if toOpenState.value(total0, failures0) {
        if won {
          until := Add64(now, cooldown);
          failures := 0;
          total := 0;
          state := Open;
        }
      }
    }

    /** `Execute`: runs `req` if the gate admits the call. */
    method Execute(req: () -> Option<Error>, now: i64, after: i64, wonReady: bool, wonFailure: bool)
      returns (err: Option<Error>)
      requires Valid()
      modifies this`state, this`until, this`total, this`failures, this`invocations
      ensures Outcome(err, View())
              == ExecuteStep(old(Cfg()), old(View()), now, after, req(), wonReady, wonFailure)
      ensures invocations
              == old(invocations) + if ReadyStep(old(Cfg()), old(View()), now, wonReady).admitted then 1 else 0
    {
      var admitted := Ready(now, wonReady);
      if !admitted {
        return Some(BreakerOpen);
      }
      total := Inc(total);
      err := req();
      invocations := invocations + 1;
      if err.Some? {
        failures := Inc(failures);
        OnFailure(after, wonFailure);
      }
    }
  }

  /** `New`: rejects a zero interval or cooldown; otherwise builds a closed
      breaker, runs the options in order (their errors are discarded) and
      fills in the defaults. */
  method New(interval: i64, cooldown: i64, now: i64, fns: seq<OptionCall>)
    returns (b: Breaker?, err: Option<Error>)
    ensures interval == 0 ==> b == null && err == Some(IntervalUnset)
    ensures interval != 0 && cooldown == 0 ==> b == null && err == Some(CooldownUnset)
    ensures interval != 0 && cooldown != 0 ==>
              err == None && b != null && fresh(b) && b.Valid() &&
              b.interval == interval && b.cooldown == cooldown &&
              b.View() == Fresh(Closed, Add64(now, interval)) &&
              b.Options() == WithDefaults(Configure(fns, Unset)) &&
              b.invocations == 0
  {
    if interval == 0 {
      return null, Some(IntervalUnset);
    }
    if cooldown == 0 {
      return null, Some(CooldownUnset);
    }
    b := new Breaker(interval, cooldown, now);
    var i := 0;
    while i < |fns|
      invariant 0 <= i <= |fns|
      invariant b.interval == interval && b.cooldown == cooldown
      invariant b.View() == Fresh(Closed, Add64(now, interval)) && b.invocations == 0
      invariant b.Options() == Configure(fns[..i], Unset)
    {
      assert fns[..i + 1][..i] == fns[..i];
      var _ := b.Apply(fns[i]);
      i := i + 1;
    }
    assert fns[..|fns|] == fns;
    if b.atLeastReqs == 0 {
      b.atLeastReqs := DEFAULT_AT_LEAST_REQ;
    }
    if b.toOpenState.None? {
      b.toOpenState := Some(DefaultToOpen);
    }
    if b.toClosedState.None? {
      b.toClosedState := Some(DefaultToClosed);
    }
    err := None;
  }
}
