/** Properties of the breaker across several calls: how the construction
    options combine, what a run of sequential calls does in each state, the
    invariant the counters keep, and the default policies. */
module CircuitProperties {
  import opened Circuit

  // ---------------------------------------------------------------------
  // Construction options: the last effective option wins

  predicate SetsLeastReqs(fn: OptionCall) {
    fn.WithLeastReqs? && fn.atLeastReqs != 0
  }

  /** The last nonzero `WithLeastReqs` decides the probe count. */
  lemma {:induction false} LastLeastReqsWins(fns: seq<OptionCall>, s: Settings, j: nat)
    requires j < |fns| && SetsLeastReqs(fns[j])
    requires forall k :: j < k < |fns| ==> !SetsLeastReqs(fns[k])
    ensures Configure(fns, s).atLeastReqs == fns[j].atLeastReqs
  {
    var n := |fns| - 1;
    if j < n {
      assert forall k :: j < k < |fns[..n]| ==> fns[..n][k] == fns[k];
      LastLeastReqsWins(fns[..n], s, j);
    }
  }

  /** Without an effective `WithLeastReqs`, the probe count is untouched
      (so `New` falls back to 100); `WithLeastReqs(0)` is ignored. */
  lemma {:induction false} NoLeastReqsKeeps(fns: seq<OptionCall>, s: Settings)
    requires forall k :: 0 <= k < |fns| ==> !SetsLeastReqs(fns[k])
    ensures Configure(fns, s).atLeastReqs == s.atLeastReqs
    ensures WithDefaults(Configure(fns, Unset)).atLeastReqs == DEFAULT_AT_LEAST_REQ
  {
    if fns != [] {
      var n := |fns| - 1;
      assert forall k :: 0 <= k < n ==> fns[..n][k] == fns[k];
      NoLeastReqsKeeps(fns[..n], s);
    }
  }

  /** The last `WithStateFunc` sets both policies, nil ones included. */
  lemma {:induction false} LastStateFuncWins(fns: seq<OptionCall>, s: Settings, j: nat)
    requires j < |fns| && fns[j].WithStateFunc?
    requires forall k :: j < k < |fns| ==> !fns[k].WithStateFunc?
    ensures Configure(fns, s).toOpen == fns[j].toOpen
    ensures Configure(fns, s).toClosed == fns[j].toClosed
  {
    var n := |fns| - 1;
    if j < n {
      assert forall k :: j < k < |fns[..n]| ==> fns[..n][k] == fns[k];
      LastStateFuncWins(fns[..n], s, j);
    }
  }

  /** Without any `WithStateFunc`, `New` installs both default policies. */
  lemma {:induction false} NoStateFuncDefaults(fns: seq<OptionCall>, s: Settings)
    requires forall k :: 0 <= k < |fns| ==> !fns[k].WithStateFunc?
    ensures Configure(fns, s).toOpen == s.toOpen && Configure(fns, s).toClosed == s.toClosed
    ensures WithDefaults(Configure(fns, Unset)).toOpen == Some(DefaultToOpen)
    ensures WithDefaults(Configure(fns, Unset)).toClosed == Some(DefaultToClosed)
  {
    if fns != [] {
      var n := |fns| - 1;
      assert forall k :: 0 <= k < n ==> fns[..n][k] == fns[k];
      NoStateFuncDefaults(fns[..n], s);
    }
  }

  // ---------------------------------------------------------------------
  // Runs of sequential calls (every compare-and-swap succeeds)

  /** One call of `Execute`: the clock at the gate, the clock after the
      request, and what the wrapped request returns. */
  datatype Call = Call(now: i64, after: i64, result: Option<Error>)

  /** The results of a run of calls and the window after the last one. */
  datatype Trace = Trace(errs: seq<Option<Error>>, last: Window)

  function Run(c: Config, w: Window, calls: seq<Call>): (t: Trace)
    ensures |t.errs| == |calls|
    decreases |calls|
  {
    if calls == [] then Trace([], w)
    else
      var o := ExecuteStep(c, w, calls[0].now, calls[0].after, calls[0].result, true, true);
      var t := Run(c, o.next, calls[1..]);
      Trace([o.err] + t.errs, t.last)
  }

  /** Number of calls whose request fails. */
  function FailureCount(calls: seq<Call>): (n: nat)
    ensures n <= |calls|
    ensures (forall i :: 0 <= i < |calls| ==> calls[i].result.None?) ==> n == 0
  {
    if calls == [] then 0
    else (if calls[0].result.Some? then 1 else 0) + FailureCount(calls[1..])
  }

  /** A run split in two is the second part run from where the first ended. */
  lemma {:induction false} RunAppend(c: Config, w: Window, a: seq<Call>, b: seq<Call>)
    ensures Run(c, w, a + b)
            == Trace(Run(c, w, a).errs + Run(c, Run(c, w, a).last, b).errs,
                     Run(c, Run(c, w, a).last, b).last)
    decreases |a|
  {
    if a == [] {
      assert a + b == b;
    } else {
      assert (a + b)[1..] == a[1..] + b;
      var o := ExecuteStep(c, w, a[0].now, a[0].after, a[0].result, true, true);
      RunAppend(c, o.next, a[1..], b);
      var rest := Run(c, o.next, a[1..]);
      assert ([o.err] + rest.errs) + Run(c, rest.last, b).errs
             == [o.err] + (rest.errs + Run(c, rest.last, b).errs);
    }
  }

  /** Closed, within the interval, successful requests: every call is
      admitted with its own result and counted; nothing else changes. */
  lemma {:induction false} ClosedWindowAdmitsAll(c: Config, w: Window, calls: seq<Call>)
    requires w.state == Closed && w.total + |calls| < U32_LIMIT
    requires forall i :: 0 <= i < |calls| ==> calls[i].now < w.until && calls[i].result.None?
    ensures forall i :: 0 <= i < |calls| ==> Run(c, w, calls).errs[i].None?
    ensures Run(c, w, calls).last == w.(total := w.total + |calls|)
    decreases |calls|
  {
    if calls != [] {
      var w1 := w.(total := w.total + 1);
      assert ExecuteStep(c, w, calls[0].now, calls[0].after, calls[0].result, true, true)
             == Outcome(None, w1);
      assert forall i :: 0 <= i < |calls[1..]| ==> calls[1..][i] == calls[i + 1];
      ClosedWindowAdmitsAll(c, w1, calls[1..]);
    }
  }

  /** Open, within the cooldown: every call is rejected with the
      breaker-open error and the window is left as it is. */
  lemma {:induction false} CooldownRejectsAll(c: Config, w: Window, calls: seq<Call>)
    requires w.state == Open
    requires forall i :: 0 <= i < |calls| ==> calls[i].now < w.until
    ensures forall i :: 0 <= i < |calls| ==> Run(c, w, calls).errs[i] == Some(BreakerOpen)
    ensures Run(c, w, calls).last == w
    decreases |calls|
  {
    if calls != [] {
      assert forall i :: 0 <= i < |calls[1..]| ==> calls[1..][i] == calls[i + 1];
      CooldownRejectsAll(c, w, calls[1..]);
    }
  }

  /** Half-open below the probe count: every call is admitted whatever the
      clock and the policies say, returns its own result, and is counted. */
  lemma {:induction false} ProbeSampleAdmitted(c: Config, w: Window, calls: seq<Call>)
    requires w.state == HalfOpen && w.failures <= w.total
    requires w.total + |calls| <= c.atLeastReqs
    ensures forall i :: 0 <= i < |calls| ==> Run(c, w, calls).errs[i] == calls[i].result
    ensures Run(c, w, calls).last
            == w.(total := w.total + |calls|, failures := w.failures + FailureCount(calls))
    decreases |calls|
  {
    if calls != [] {
      var w1 := w.(total := w.total + 1,
                   failures := w.failures + if calls[0].result.Some? then 1 else 0);
      assert ExecuteStep(c, w, calls[0].now, calls[0].after, calls[0].result, true, true)
             == Outcome(calls[0].result, w1);
      assert forall i :: 0 <= i < |calls[1..]| ==> calls[1..][i] == calls[i + 1];
      ProbeSampleAdmitted(c, w1, calls[1..]);
    }
  }

  /** A half-open window started afresh admits exactly `atLeastReqs` calls;
      the next call takes the close-or-reopen decision on the sample. */
  lemma ProbeDecision(c: Config, w: Window, calls: seq<Call>, d: Call)
    requires w.state == HalfOpen && w.total == 0 && w.failures == 0
    requires |calls| == c.atLeastReqs
    ensures var t := Run(c, w, calls + [d]);
            var k := FailureCount(calls);
            (forall i :: 0 <= i < |calls| ==> t.errs[i] == calls[i].result) &&
            (c.toClosed(|calls|, k) ==> t.errs[|calls|] == d.result) &&
            (c.toClosed(|calls|, k) && d.result.None? ==>
               t.last == Window(Closed, Add64(d.now, c.interval), 1, 0)) &&
            (!c.toClosed(|calls|, k) ==>
               t.errs[|calls|] == Some(BreakerOpen) &&
               t.last == Fresh(Open, Add64(d.now, c.cooldown)))
  {
    RunAppend(c, w, calls, [d]);
    ProbeSampleAdmitted(c, w, calls);
  }

  /** With a policy that trips on any failure, one failing call closes the
      window for exactly one cooldown, counted from that failure; the calls
      that follow within it are rejected (circuit_test.go:188-211 run
      sequentially). */
  lemma TripOnce(c: Config, w: Window, first: Call, rest: seq<Call>)
    requires w.state == Closed && first.now < w.until && first.result.Some?
    requires w.total < U32_LIMIT - 1 && w.failures < U32_LIMIT - 1
    requires c.toOpen(w.total + 1, w.failures + 1)
    requires forall i :: 0 <= i < |rest| ==> rest[i].now < Add64(first.after, c.cooldown)
    ensures var t := Run(c, w, [first] + rest);
            t.errs[0] == first.result &&
            (forall i :: 1 <= i < |t.errs| ==> t.errs[i] == Some(BreakerOpen)) &&
            t.last == Fresh(Open, Add64(first.after, c.cooldown))
  {
    var tripped := Fresh(Open, Add64(first.after, c.cooldown));
    assert ExecuteStep(c, w, first.now, first.after, first.result, true, true)
           == Outcome(first.result, tripped);
    assert ([first] + rest)[1..] == rest;
    CooldownRejectsAll(c, tripped, rest);
  }

  /** The sequential counterpart of "one transition per boundary": once a
      closed interval rolled over at `now`, or an open breaker turned
      half-open at `now`, a later gate before the new deadline neither
      rolls over nor transitions again. */
  lemma TransitionOncePerBoundary(c: Config, w: Window, now: i64, later: i64)
    requires c.interval > 0 && now + c.interval < I64_LIMIT
    requires w.state in {Closed, Open} && w.until <= now && now <= later < now + c.interval
    requires c.atLeastReqs > 0
    ensures var g := ReadyStep(c, w, now, true);
            g.admitted && g.next.until == now + c.interval &&
            ReadyStep(c, g.next, later, true) == Gate(true, g.next)
  {
  }

  // ---------------------------------------------------------------------
  // The counters' invariant

  /** Failures never exceed requests, and a half-open window never holds
      more requests than the (positive) probe count. */
  ghost predicate Coherent(c: Config, w: Window) {
    c.atLeastReqs > 0 && w.failures <= w.total &&
    (w.state == HalfOpen ==> w.total <= c.atLeastReqs)
  }

  /** One sequential `Execute` keeps the invariant unless the request
      counter is about to wrap around. */
  lemma ExecuteKeepsCoherent(c: Config, w: Window, call: Call)
    requires Coherent(c, w) && w.total < U32_LIMIT - 1
    ensures Coherent(c, ExecuteStep(c, w, call.now, call.after, call.result, true, true).next)
  {
  }

  /** A run of calls keeps the invariant as long as no counter wraps. */
  lemma {:induction false} RunKeepsCoherent(c: Config, w: Window, calls: seq<Call>)
    requires Coherent(c, w) && w.total + |calls| < U32_LIMIT - 1
    ensures Coherent(c, Run(c, w, calls).last)
    ensures Run(c, w, calls).last.total <= w.total + |calls|
    decreases |calls|
  {
    if calls != [] {
      var o := ExecuteStep(c, w, calls[0].now, calls[0].after, calls[0].result, true, true);
      ExecuteKeepsCoherent(c, w, calls[0]);
      RunKeepsCoherent(c, o.next, calls[1..]);
    }
  }

  // ---------------------------------------------------------------------
  // Default policies

  /** Under the default trip rule a failing request in a closed window trips
      the breaker exactly when failures reach 5% of the requests counted so
      far, this one included; in a fresh window the first failure trips it. */
  lemma DefaultTripRule(c: Config, w: Window, call: Call)
    requires c.toOpen == DefaultToOpen
    requires w.state == Closed && call.now < w.until && call.result.Some?
    requires w.total < U32_LIMIT - 1 && w.failures < U32_LIMIT - 1
    ensures var o := ExecuteStep(c, w, call.now, call.after, call.result, true, true);
            (o.next.state == Open <==> 20 * (w.failures + 1) >= w.total + 1) &&
            (o.next.state == Open ==> o.next == Fresh(Open, Add64(call.after, c.cooldown)))
    ensures w.total == 0 ==>
              ExecuteStep(c, w, call.now, call.after, call.result, true, true).next
              == Fresh(Open, Add64(call.after, c.cooldown))
  {
    assert ReadyStep(c, w, call.now, true) == Gate(true, w);
    assert DefaultToOpen(w.total + 1, w.failures + 1) <==> 20 * (w.failures + 1) >= w.total + 1;
  }

  /** Under the default close rule a fresh half-open sample closes the
      breaker exactly when none of its requests failed; otherwise the
      breaker reopens for one cooldown and the deciding call is rejected. */
  lemma DefaultCloseRule(c: Config, w: Window, calls: seq<Call>, d: Call)
    requires c.toClosed == DefaultToClosed
    requires w.state == HalfOpen && w.total == 0 && w.failures == 0
    requires |calls| == c.atLeastReqs && d.result.None?
    ensures var t := Run(c, w, calls + [d]);
            (t.last.state == Closed <==> FailureCount(calls) == 0) &&
            (FailureCount(calls) == 0 ==>
               t.errs[|calls|] == None &&
               t.last == Window(Closed, Add64(d.now, c.interval), 1, 0)) &&
            (FailureCount(calls) > 0 ==>
               t.errs[|calls|] == Some(BreakerOpen) &&
               t.last == Fresh(Open, Add64(d.now, c.cooldown)))
  {
    ProbeDecision(c, w, calls, d);
  }

  // ---------------------------------------------------------------------
  // The object, driven as circuit_test.go:64-147 drives it

  const SEC: int := 1_000_000_000

  /** circuit_test.go:64-96: two admitted requests inside the first interval,
      then one after it, which starts a new window. Returns what each call
      returned and the breaker's window after it. */
  method WhenClosedScenario() returns (log: seq<Outcome>)
    ensures log == [Outcome(None, Window(Closed, 1520100060 * SEC, 1, 0)),
                    Outcome(None, Window(Closed, 1520100060 * SEC, 2, 0)),
                    Outcome(None, Window(Closed, 1520100121 * SEC, 1, 0))]
  {
    var t0: i64 := 1520100000 * SEC;
    var toOpen: Policy := (t: u32, f: u32) => t > 0 && f > 0;
    var never: Policy := (t: u32, f: u32) => false;
    var fns := [WithLeastReqs(1), WithStateFunc(Some(toOpen), Some(never))];
    var b, err := New(60 * SEC, 120 * SEC, t0, fns);
    LastLeastReqsWins(fns, Unset, 0);
    LastStateFuncWins(fns, Unset, 1);
    assert b.View() == Window(Closed, 1520100060 * SEC, 0, 0);

    err := b.Execute(() => None, t0, t0, true, true);
    var o1 := Outcome(err, b.View());
    err := b.Execute(() => None, t0, t0, true, true);
    var o2 := Outcome(err, b.View());
    // the interval elapsed: a new window starts with this request in it
    err := b.Execute(() => None, 1520100061 * SEC, 1520100061 * SEC, true, true);
    var o3 := Outcome(err, b.View());
    log := [o1, o2, o3];
  }

  /** circuit_test.go:98-147: a failure trips the breaker, the cooldown
      rejects, half-open admits one probe, the close policy refuses and the
      breaker reopens, then after the second cooldown a probe and an
      accepting close policy close it. */
  method WhenOpenScenario() returns (log: seq<Outcome>)
    ensures log == [Outcome(Some(Failed("failed")), Window(Open, 1520100120 * SEC, 0, 0)),
                    Outcome(Some(BreakerOpen), Window(Open, 1520100120 * SEC, 0, 0)),
                    Outcome(None, Window(HalfOpen, 1520100181 * SEC, 1, 0)),
                    Outcome(Some(BreakerOpen), Window(Open, 1520100241 * SEC, 0, 0)),
                    Outcome(None, Window(HalfOpen, 1520100302 * SEC, 1, 0)),
                    Outcome(None, Window(Closed, 1520100362 * SEC, 1, 0))]
  {
    var t0: i64 := 1520100000 * SEC;
    var toOpen: Policy := (t: u32, f: u32) => t > 0 && f > 0;
    var never: Policy := (t: u32, f: u32) => false;
    var fns := [WithLeastReqs(1), WithStateFunc(Some(toOpen), Some(never))];
    var b, err := New(60 * SEC, 120 * SEC, t0, fns);
    LastLeastReqsWins(fns, Unset, 0);
    LastStateFuncWins(fns, Unset, 1);
    assert b.atLeastReqs == 1 && b.toOpenState == Some(toOpen) && b.toClosedState == Some(never);

    // a failing request trips the breaker for one cooldown
    err := b.Execute(() => Some(Failed("failed")), t0, t0, true, true);
    assert err == Some(Failed("failed")) && b.View() == Window(Open, 1520100120 * SEC, 0, 0);
    var o1 := Outcome(err, b.View());
    // still cooling down
    err := b.Execute(() => None, t0, t0, true, true);
    assert err == Some(BreakerOpen) && b.View() == Window(Open, 1520100120 * SEC, 0, 0);
    var o2 := Outcome(err, b.View());
    // after the cooldown: half-open for one interval
    err := b.Execute(() => None, 1520100121 * SEC, 1520100121 * SEC, true, true);
    assert err == None && b.View() == Window(HalfOpen, 1520100181 * SEC, 1, 0);
    var o3 := Outcome(err, b.View());
    // probe count reached, the close policy refuses: open again
    err := b.Execute(() => None, 1520100121 * SEC, 1520100121 * SEC, true, true);
    assert err == Some(BreakerOpen) && b.View() == Window(Open, 1520100241 * SEC, 0, 0);
    var o4 := Outcome(err, b.View());
    // after the second cooldown
    err := b.Execute(() => None, 1520100242 * SEC, 1520100242 * SEC, true, true);
    assert err == None && b.View() == Window(HalfOpen, 1520100302 * SEC, 1, 0);
    var o5 := Outcome(err, b.View());
    // probe count reached, the close policy now accepts: closed
    b.toClosedState := Some((t: u32, f: u32) => true);
    err := b.Execute(() => None, 1520100302 * SEC, 1520100302 * SEC, true, true);
    assert err == None && b.View() == Window(Closed, 1520100362 * SEC, 1, 0);
    var o6 := Outcome(err, b.View());
    log := [o1, o2, o3, o4, o5, o6];
  }
}
