/** The consecutive-failure circuit breaker, and whole runs of it over concurrent
    requests. Every locked section is one move; in particular a probe's verdict and the
    deferred release of its flag are two. */
module CircuitBreaker {
  import opened GoInts
  import opened Totals

  const OPEN_PERIOD: int := 30 * SECOND

  datatype Mode = Closed | Open | HalfOpen

  datatype Breaker = Breaker(mode: Mode, failures: int, openedAt: int, probing: bool)

  const INITIAL: Breaker := Breaker(Closed, 0, 0, false)

  function SetMode(b: Breaker, mode: Mode, at: int): Breaker {
    if b.mode == mode then b
    else if mode == Open then b.(mode := Open, openedAt := at, probing := false)
    else b.(mode := mode)
  }

  datatype Pass = Refused | Forward | Probe

  function Admit(b: Breaker, at: int): (Breaker, Pass) {
    match b.mode
    case Open =>
      if at - b.openedAt < OPEN_PERIOD then (b, Refused)
      else (SetMode(b, HalfOpen, at).(probing := true), Probe)
    case HalfOpen => if b.probing then (b, Refused) else (b.(probing := true), Probe)
    case Closed => (b, Forward)
  }

  function Observe(threshold: int, b: Breaker, status: int, probe: bool, at: int): Breaker {
    if probe then
      var b1 := b.(probing := false);
      if status >= 500 then SetMode(b1.(failures := threshold), Open, at)
      else SetMode(b1.(failures := 0), Closed, at)
    else if b.mode != Closed || status == 0 then b
    else if status < 500 then b.(failures := 0)
    else if b.failures + 1 >= threshold then SetMode(b.(failures := b.failures + 1), Open, at)
    else b.(failures := b.failures + 1)
  }

  function ReleaseProbe(b: Breaker): Breaker {
    b.(probing := false)
  }

  class CircuitBreakerGate {
    const threshold: int
    var mode: Mode
    var failures: int
    var openedAt: int
    var probing: bool

    ghost function Abs(): Breaker
      reads this
    {
      Breaker(mode, failures, openedAt, probing)
    }

    constructor (failureThreshold: int)
      requires 0 < failureThreshold
      ensures threshold == failureThreshold && Abs() == INITIAL
    {
      threshold := failureThreshold;
      mode, failures, openedAt, probing := Closed, 0, 0, false;
    }

    method SetStateLocked(state: Mode, at: int)
      modifies this
      ensures Abs() == SetMode(old(Abs()), state, at)
    {
      if mode == state {
        return;
      }
      mode := state;
      if state == Open {
        openedAt := at;
        probing := false;
      }
    }

    method AdmitLocked(at: int) returns (pass: Pass)
      modifies this
      ensures (Abs(), pass) == Admit(old(Abs()), at)
    {
      match mode
      case Open =>
        if at - openedAt < OPEN_PERIOD {
          return Refused;
        }
        SetStateLocked(HalfOpen, at);
        probing := true;
        return Probe;
      case HalfOpen =>
        if probing {
          return Refused;
        }
        probing := true;
        return Probe;
      case Closed =>
        return Forward;
    }

    method ObserveLocked(status: int, probe: bool, at: int)
      modifies this
      ensures Abs() == Observe(threshold, old(Abs()), status, probe, at)
    {
      if probe {
        probing := false;
        if status >= 500 {
          failures := threshold;
          SetStateLocked(Open, at);
          return;
        }
        failures := 0;
        SetStateLocked(Closed, at);
        return;
      }
      if mode != Closed || status == 0 {
        return;
      }
      if status < 500 {
        failures := 0;
        return;
      }
      failures := failures + 1;
      if failures >= threshold {
        SetStateLocked(Open, at);
      }
    }

    method ReleaseProbeLocked()
      modifies this`probing
      ensures Abs() == ReleaseProbe(old(Abs()))
    {
      probing := false;
    }
  }

  // ----- Runs -----

  /** Where a request is: turned away, out at the upstream, or back with its verdict
      given and, for a probe, the deferred release still to come. */
  datatype Stage = Away | Out(probe: bool) | Returning | Over

  datatype Event =
    | Arrive(at: int)
    | Verdict(r: nat, status: int, at: int)   // the handler returned normally
    | Deferred(r: nat)                        // the deferred release, or a panic unwinding

  /** `now` is the latest clock reading. */
  datatype System = System(breaker: Breaker, requests: seq<Stage>, now: int)

  predicate IsOut(s: System, r: nat) {
    r < |s.requests| && s.requests[r].Out?
  }

  predicate IsProbe(s: System, r: nat) {
    r < |s.requests| && s.requests[r] == Out(true)
  }

  function Next(threshold: int, s: System, e: Event): System {
    match e
    case Arrive(at) =>
      var (b, pass) := Admit(s.breaker, at);
      System(b, s.requests + [if pass == Refused then Away else Out(pass == Probe)], at)
    case Verdict(r, status, at) =>
      if IsOut(s, r) then
        System(Observe(threshold, s.breaker, status, IsProbe(s, r), at),
               s.requests[r := if IsProbe(s, r) then Returning else Over], at)
      else s
    case Deferred(r) =>
      if r < |s.requests| && (s.requests[r].Returning? || s.requests[r].Out?) then
        System(if s.requests[r] == Out(false) then s.breaker else ReleaseProbe(s.breaker),
               s.requests[r := Over], s.now)
      else s
  }

  predicate StepAt(threshold: int, es: seq<Event>, tr: seq<System>, k: nat)
    requires |tr| == |es| + 1
  {
    k < |es| ==> tr[k + 1] == Next(threshold, tr[k], es[k])
  }

  /** `tr` are the states of the run of `es` from a fresh breaker at `tr[0].now`. */
  ghost predicate IsRun(threshold: int, es: seq<Event>, tr: seq<System>) {
    && |tr| == |es| + 1
    && tr[0].breaker == INITIAL && tr[0].requests == []
    && forall k: nat :: k < |es| ==> StepAt(threshold, es, tr, k)
  }

  /** Every event sequence has its run. */
  lemma {:induction false} RunExists(threshold: int, start: int, es: seq<Event>) returns (tr: seq<System>)
    ensures IsRun(threshold, es, tr) && tr[0].now == start
  {
    if es == [] {
      tr := [System(INITIAL, [], start)];
    } else {
      var n := |es| - 1;
      var front := RunExists(threshold, start, es[..n]);
      tr := front + [Next(threshold, front[n], es[n])];
      forall k: nat | k < |es| ensures StepAt(threshold, es, tr, k) {
        assert k < n ==> StepAt(threshold, es[..n], front, k);
      }
    }
  }

  // ----- Every event -----

  /** What the breaker says now: less than 30 s since it opened, or a probe is out. */
  predicate TurnsAway(b: Breaker, at: int) {
    || (b.mode == Open && at - b.openedAt < 30_000_000_000)
    || (b.mode == HalfOpen && b.probing)
  }

  /** At every step of every run: an arrival is turned away if and only if the breaker is
      open for less than 30 s or half-open with its flag set; it is forwarded plainly if and
      only if the breaker is closed; otherwise it goes out as the probe, with the breaker
      half-open and the flag set. Nothing else changes the breaker. */
  lemma ArrivalExactly(threshold: int, es: seq<Event>, tr: seq<System>, k: nat)
    requires IsRun(threshold, es, tr) && k < |es| && es[k].Arrive?
    ensures |tr[k + 1].requests| == |tr[k].requests| + 1
            && tr[k + 1].requests[..|tr[k].requests|] == tr[k].requests
    ensures tr[k + 1].requests[|tr[k].requests|]
         == if TurnsAway(tr[k].breaker, es[k].at) then Away else Out(tr[k].breaker.mode != Closed)
    ensures tr[k + 1].breaker
         == if TurnsAway(tr[k].breaker, es[k].at) || tr[k].breaker.mode == Closed then tr[k].breaker
            else tr[k].breaker.(mode := HalfOpen, probing := true)
  {
    assert StepAt(threshold, es, tr, k);
  }

  /** At every step of every run, for a request that is out: a probe's failure leaves the
      breaker open, from now on unless it was open already; its success closes it and
      forgets the failures; a plain verdict counts only while closed and not silent, a
      success forgetting the failures and a failure adding one, which opens the breaker
      when the threshold is reached. */
  lemma VerdictExactly(threshold: int, es: seq<Event>, tr: seq<System>, k: nat)
    requires 0 < threshold && IsRun(threshold, es, tr) && k < |es|
    requires es[k].Verdict? && es[k].r < |tr[k].requests| && tr[k].requests[es[k].r].Out?
    ensures var b, b', status, at := tr[k].breaker, tr[k + 1].breaker, es[k].status, es[k].at;
            if tr[k].requests[es[k].r] == Out(true) then
              if status < 500 then b' == Breaker(Closed, 0, b.openedAt, false)
              else b' == Breaker(Open, threshold, if b.mode == Open then b.openedAt else at, false)
            else if b.mode != Closed || status == 0 then b' == b
            else if status < 500 then b' == b.(failures := 0)
            else if b.failures + 1 < threshold then b' == b.(failures := b.failures + 1)
            else b' == Breaker(Open, threshold, at, false)
    ensures tr[k + 1].requests
         == tr[k].requests[es[k].r := if tr[k].requests[es[k].r] == Out(true) then Returning else Over]
  {
    assert StepAt(threshold, es, tr, k);
    FailuresCounted(threshold, es, tr, k);
  }

  /** At every step of every run: the deferred release of a probe, or its panic, clears the
      flag and nothing else; a plain request's panic leaves the breaker alone. */
  lemma ReleaseExactly(threshold: int, es: seq<Event>, tr: seq<System>, k: nat)
    requires IsRun(threshold, es, tr) && k < |es| && es[k].Deferred? && es[k].r < |tr[k].requests|
    requires tr[k].requests[es[k].r] == Returning || tr[k].requests[es[k].r].Out?
    ensures tr[k + 1].breaker
         == if tr[k].requests[es[k].r] == Out(false) then tr[k].breaker else tr[k].breaker.(probing := false)
    ensures tr[k + 1].requests == tr[k].requests[es[k].r := Over]
  {
    assert StepAt(threshold, es, tr, k);
  }

  // ----- One probe at a time -----

  function ProbeOf(st: Stage): nat { if st == Out(true) then 1 else 0 }

  /** How many probes are out. */
  function Probes(rs: seq<Stage>): nat {
    Total(ProbeOf, rs)
  }

  /** The flag says exactly whether the one probe is out. */
  ghost predicate FlagExact(s: System) {
    && (s.breaker.probing <==> Probes(s.requests) == 1)
    && Probes(s.requests) <= 1
    && (s.breaker.probing ==> s.breaker.mode == HalfOpen)
  }

  /** The deferred release of a probe runs while another probe is out. */
  ghost predicate LateRelease(s: System, e: Event) {
    && e.Deferred? && e.r < |s.requests| && s.requests[e.r].Returning?
    && Probes(s.requests) > 0
  }

  /** No deferred release runs while another probe is out. */
  ghost predicate Prompt(es: seq<Event>, tr: seq<System>)
    requires |tr| == |es| + 1
  {
    forall k :: 0 <= k < |es| ==> !LateRelease(tr[k], es[k])
  }

  lemma FlagArrive(threshold: int, s: System, at: int)
    requires FlagExact(s)
    ensures FlagExact(Next(threshold, s, Arrive(at)))
  {
    var pass := Admit(s.breaker, at).1;
    TotalAppend(ProbeOf, s.requests, if pass == Refused then Away else Out(pass == Probe));
  }

  lemma FlagVerdict(threshold: int, s: System, r: nat, status: int, at: int)
    requires FlagExact(s) && IsOut(s, r)
    ensures FlagExact(Next(threshold, s, Verdict(r, status, at)))
  {
    TotalUpdate(ProbeOf, s.requests, r, if IsProbe(s, r) then Returning else Over);
    if IsProbe(s, r) { TotalCovers(ProbeOf, s.requests, r); }
  }

  lemma FlagDeferred(threshold: int, s: System, r: nat)
    requires FlagExact(s) && r < |s.requests|
    ensures FlagExact(Next(threshold, s, Deferred(r))) <==> !LateRelease(s, Deferred(r))
  {
    TotalUpdate(ProbeOf, s.requests, r, Over);
    if IsProbe(s, r) { TotalCovers(ProbeOf, s.requests, r); }
  }

  lemma FlagStep(threshold: int, s: System, e: Event)
    requires FlagExact(s)
    ensures FlagExact(Next(threshold, s, e)) <==> !LateRelease(s, e)
  {
    match e
    case Arrive(at) => FlagArrive(threshold, s, at);
    case Verdict(r, status, at) => if IsOut(s, r) { FlagVerdict(threshold, s, r, status, at); }
    case Deferred(r) => if r < |s.requests| { FlagDeferred(threshold, s, r); }
  }

  lemma {:induction false} PromptFlag(threshold: int, es: seq<Event>, tr: seq<System>, k: nat)
    requires IsRun(threshold, es, tr) && Prompt(es, tr) && k <= |es|
    ensures FlagExact(tr[k])
  {
    if k > 0 {
      PromptFlag(threshold, es, tr, k - 1);
      assert StepAt(threshold, es, tr, k - 1);
      FlagStep(threshold, tr[k - 1], es[k - 1]);
    }
  }

  /** The half-open guarantee, exactly: the flag and the single probe agree throughout a
      run if and only if no deferred release comes while another probe is out. */
  lemma OneProbeIffPrompt(threshold: int, es: seq<Event>, tr: seq<System>)
    requires IsRun(threshold, es, tr)
    ensures (forall k :: 0 <= k <= |es| ==> FlagExact(tr[k])) <==> Prompt(es, tr)
  {
    if Prompt(es, tr) {
      forall k | 0 <= k <= |es| ensures FlagExact(tr[k]) { PromptFlag(threshold, es, tr, k); }
    } else {
      var k :| 0 <= k < |es| && LateRelease(tr[k], es[k]);
      assert StepAt(threshold, es, tr, k);
      if FlagExact(tr[k]) {
        FlagStep(threshold, tr[k], es[k]);
        assert !FlagExact(tr[k + 1]);
      }
    }
  }

  lemma Extend(threshold: int, es: seq<Event>, tr: seq<System>, e: Event, s: System)
    requires IsRun(threshold, es, tr) && s == Next(threshold, tr[|es|], e)
    ensures IsRun(threshold, es + [e], tr + [s]) && (tr + [s])[|es| + 1] == s
  {
    forall k: nat | k < |es| + 1 ensures StepAt(threshold, es + [e], tr + [s], k) {
      assert k < |es| ==> StepAt(threshold, es, tr, k);
    }
  }

  /** A failed probe, back but not yet released, after the breaker reopened. */
  lemma ReopenedRun() returns (es: seq<Event>, tr: seq<System>)
    ensures IsRun(1, es, tr)
    ensures tr[|es|] == System(Breaker(Open, 1, OPEN_PERIOD, false), [Over, Returning], OPEN_PERIOD)
  {
    es, tr := [], [System(INITIAL, [], 0)];
    var s1 := System(INITIAL, [Out(false)], 0);
    Extend(1, es, tr, Arrive(0), s1);
    es, tr := es + [Arrive(0)], tr + [s1];
    var s2 := System(Breaker(Open, 1, 0, false), [Over], 0);
    Extend(1, es, tr, Verdict(0, 500, 0), s2);
    es, tr := es + [Verdict(0, 500, 0)], tr + [s2];
    var s3 := System(Breaker(HalfOpen, 1, 0, true), [Over, Out(true)], OPEN_PERIOD);
    Extend(1, es, tr, Arrive(OPEN_PERIOD), s3);
    es, tr := es + [Arrive(OPEN_PERIOD)], tr + [s3];
    var s4 := System(Breaker(Open, 1, OPEN_PERIOD, false), [Over, Returning], OPEN_PERIOD);
    Extend(1, es, tr, Verdict(1, 500, OPEN_PERIOD), s4);
    es, tr := es + [Verdict(1, 500, OPEN_PERIOD)], tr + [s4];
  }

  /** Both cases occur. A release delayed past the open period lets two probes out at
      once: open at 0 s; the first probe fails after 30 s; the second goes out after
      60 s; only then is the first one's flag released, and a third request follows. */
  lemma LateReleaseLetsTwoOut() returns (es: seq<Event>, tr: seq<System>)
    ensures IsRun(1, es, tr) && Probes(tr[|es|].requests) == 2 && !Prompt(es, tr)
    ensures tr[|es|] == System(Breaker(HalfOpen, 1, OPEN_PERIOD, true),
                               [Over, Over, Out(true), Out(true)], 2 * OPEN_PERIOD)
  {
    es, tr := ReopenedRun();
    var n, t := |es|, 2 * OPEN_PERIOD;
    var s5 := System(Breaker(HalfOpen, 1, OPEN_PERIOD, true), [Over, Returning, Out(true)], t);
    Extend(1, es, tr, Arrive(t), s5);
    es, tr := es + [Arrive(t)], tr + [s5];
    var s6 := System(Breaker(HalfOpen, 1, OPEN_PERIOD, false), [Over, Over, Out(true)], t);
    Extend(1, es, tr, Deferred(1), s6);
    es, tr := es + [Deferred(1)], tr + [s6];
    var s7 := System(Breaker(HalfOpen, 1, OPEN_PERIOD, true), [Over, Over, Out(true), Out(true)], t);
    Extend(1, es, tr, Arrive(t), s7);
    es, tr := es + [Arrive(t)], tr + [s7];
    assert LateRelease(tr[n + 1], es[n + 1]) by { TotalCovers(ProbeOf, s5.requests, 2); }
    assert Probes(s7.requests) == 2 by {
      TotalAppend(ProbeOf, [Over, Over, Out(true)], Out(true));
      TotalAppend(ProbeOf, [Over, Over], Out(true));
    }
  }

  /** The same run carried on: the second probe fails and opens the breaker anew, the
      third succeeds at once and closes it, and the next request is forwarded at the very
      instant of the opening. */
  lemma LateReleaseLeaks() returns (es: seq<Event>, tr: seq<System>, i: nat)
    ensures IsRun(1, es, tr) && i < |es|
    ensures Opens(tr[i], tr[i + 1]) && LetsThrough(tr[|es|], Arrive(tr[i + 1].now))
    ensures i + 2 == |es| && EarlySuccess(tr[i + 1], es[i + 1])
  {
    es, tr := LateReleaseLetsTwoOut();
    var t := 2 * OPEN_PERIOD;
    i := |es|;
    var s8 := System(Breaker(Open, 1, t, false), [Over, Over, Returning, Out(true)], t);
    Extend(1, es, tr, Verdict(2, 500, t), s8);
    es, tr := es + [Verdict(2, 500, t)], tr + [s8];
    var s9 := System(Breaker(Closed, 0, t, false), [Over, Over, Returning, Returning], t);
    Extend(1, es, tr, Verdict(3, 200, t), s9);
    es, tr := es + [Verdict(3, 200, t)], tr + [s9];
  }

  // ----- Counting failures -----

  /** The verdicts that count in the current closed period: not a probe's, not a silent
      return, seen while closed. */
  function Counted(es: seq<Event>, tr: seq<System>, k: nat): seq<bool>
    requires |tr| == |es| + 1 && k <= |es|
  {
    if k == 0 then []
    else
      var s, before := tr[k - 1], Counted(es, tr, k - 1);
      match es[k - 1]
      case Verdict(r, status, _) =>
        if !IsOut(s, r) then before
        else if IsProbe(s, r) then []
        else if s.breaker.mode == Closed && status != 0 then before + [status >= 500]
        else before
      case _ => before
  }

  /** The last `n` verdicts were all failures. */
  ghost predicate LastAllFailed(v: seq<bool>, n: int) {
    0 <= n <= |v| && forall i :: |v| - n <= i < |v| ==> v[i]
  }

  /** What the counter means: while closed it is the length of the failure streak at
      the end of the counted verdicts, and it has reached the threshold otherwise. */
  ghost predicate CountExact(threshold: int, b: Breaker, v: seq<bool>) {
    if b.mode == Closed then
      && 0 <= b.failures < threshold
      && LastAllFailed(v, b.failures) && !LastAllFailed(v, b.failures + 1)
    else b.failures == threshold
  }

  /** One more verdict: a failure makes the streak longer by one, anything else ends it. */
  lemma StreakSnoc(v: seq<bool>, n: nat, x: bool)
    requires LastAllFailed(v, n) && !LastAllFailed(v, n + 1)
    ensures x ==> LastAllFailed(v + [x], n + 1) && !LastAllFailed(v + [x], n + 2)
    ensures !x ==> LastAllFailed(v + [x], 0) && !LastAllFailed(v + [x], 1)
  {
    var v' := v + [x];
    if x {
      if n < |v| {
        assert !v[|v| - n - 1] by { if v[|v| - n - 1] { assert LastAllFailed(v, n + 1); } }
        assert v'[|v| - n - 1] == v[|v| - n - 1];
      }
    } else {
      assert !v'[|v|];
    }
  }

  lemma ShorterStreak(v: seq<bool>, m: int, n: int)
    requires 0 <= m <= n && !LastAllFailed(v, m)
    ensures !LastAllFailed(v, n)
  {
    if m <= |v| {
      var i :| |v| - m <= i < |v| && !v[i];
    }
  }

  lemma {:induction false} FailuresCounted(threshold: int, es: seq<Event>, tr: seq<System>, k: nat)
    requires 0 < threshold && IsRun(threshold, es, tr) && k <= |es|
    ensures CountExact(threshold, tr[k].breaker, Counted(es, tr, k))
  {
    if k > 0 {
      FailuresCounted(threshold, es, tr, k - 1);
      assert StepAt(threshold, es, tr, k - 1);
      var b := tr[k - 1].breaker;
      if b.mode == Closed && es[k - 1].Verdict? {
        StreakSnoc(Counted(es, tr, k - 1), b.failures, es[k - 1].status >= 500);
      }
    }
  }

  /** A straggling probe, out although the breaker is closed, reports a failure. */
  predicate StragglerFails(s: System, e: Event) {
    e.Verdict? && IsProbe(s, e.r) && e.status >= 500
  }

  /** The breaker leaves closed exactly when the last `threshold` counted verdicts of
      this closed period are all failures or a straggling probe fails, and only ever for
      open; with prompt releases there is no straggler. The failure counter is below the
      threshold if and only if the breaker is closed. */
  lemma OpensExactly(threshold: int, es: seq<Event>, tr: seq<System>, k: nat)
    requires 0 < threshold && IsRun(threshold, es, tr) && k < |es|
    ensures tr[k].breaker.failures < threshold <==> tr[k].breaker.mode == Closed
    ensures tr[k].breaker.mode == Closed ==>
              && tr[k + 1].breaker.mode != HalfOpen
              && (tr[k + 1].breaker.mode == Open <==>
                    LastAllFailed(Counted(es, tr, k + 1), threshold) || StragglerFails(tr[k], es[k]))
    ensures tr[k].breaker.mode == Closed && Prompt(es, tr) ==> !StragglerFails(tr[k], es[k])
  {
    FailuresCounted(threshold, es, tr, k);
    FailuresCounted(threshold, es, tr, k + 1);
    assert StepAt(threshold, es, tr, k);
    var before, after := tr[k].breaker, tr[k + 1].breaker;
    if es[k].Verdict? && IsProbe(tr[k], es[k].r) {
      TotalCovers(ProbeOf, tr[k].requests, es[k].r);
      if Prompt(es, tr) { PromptFlag(threshold, es, tr, k); }
    } else if before.mode == Closed {
      if after.mode == Closed {
        ShorterStreak(Counted(es, tr, k + 1), after.failures + 1, threshold);
      } else {
        StreakSnoc(Counted(es, tr, k), before.failures, true);
      }
    }
  }

  // ----- Time -----

  predicate TimeForward(s: System, s': System) { s.now <= s'.now }

  /** Clock readings do not go back in the order the lock was taken. */
  ghost predicate Ordered(tr: seq<System>) {
    forall k :: 0 <= k < |tr| - 1 ==> TimeForward(tr[k], tr[k + 1])
  }

  predicate Opens(s: System, s': System) {
    s.breaker.mode != Open && s'.breaker.mode == Open
  }

  predicate LetsThrough(s: System, e: Event) {
    e.Arrive? && Admit(s.breaker, e.at).1 != Refused
  }

  predicate LetsProbe(s: System, e: Event) {
    e.Arrive? && Admit(s.breaker, e.at).1 == Probe
  }

  // ----- Quiet after an opening -----

  /** A probe reports success while a later opening's period is still running. */
  predicate EarlySuccess(s: System, e: Event) {
    && e.Verdict? && IsProbe(s, e.r) && e.status < 500
    && s.breaker.mode == Open && e.at - s.breaker.openedAt < OPEN_PERIOD
  }

  ghost predicate NoEarlySuccess(es: seq<Event>, tr: seq<System>)
    requires |tr| == |es| + 1
  {
    forall k :: 0 <= k < |es| ==> !EarlySuccess(tr[k], es[k])
  }

  /** Whoever arrives in state k, and whenever, is turned away within the period of every
      opening so far. */
  ghost predicate QuietAt(tr: seq<System>, k: nat)
    requires k < |tr|
  {
    forall at, i: nat ::
      i < k && tr[k].now <= at && LetsThrough(tr[k], Arrive(at)) && Opens(tr[i], tr[i + 1]) ==>
        at - tr[i + 1].now >= OPEN_PERIOD
  }

  /** An opening stays in force until its period is over. */
  ghost predicate InForce(s: System, openedAt: int) {
    && openedAt <= s.breaker.openedAt <= s.now
    && (s.breaker.mode == Open || s.breaker.openedAt + OPEN_PERIOD <= s.now)
  }

  lemma InForceStep(threshold: int, s: System, e: Event, openedAt: int)
    requires InForce(s, openedAt) && !EarlySuccess(s, e) && s.now <= Next(threshold, s, e).now
    ensures InForce(Next(threshold, s, e), openedAt)
  {
  }

  lemma {:induction false} OpeningInForce(
      threshold: int, es: seq<Event>, tr: seq<System>, i: nat, k: nat)
    requires IsRun(threshold, es, tr) && NoEarlySuccess(es, tr) && Ordered(tr)
    requires i < k <= |es| && Opens(tr[i], tr[i + 1])
    ensures InForce(tr[k], tr[i + 1].now)
  {
    assert StepAt(threshold, es, tr, k - 1);
    if k > i + 1 {
      OpeningInForce(threshold, es, tr, i, k - 1);
      assert TimeForward(tr[k - 1], tr[k - 1 + 1]);
      InForceStep(threshold, tr[k - 1], es[k - 1], tr[i + 1].now);
    }
  }

  /** While open, the period runs from some opening of the run. */
  lemma {:induction false} OpenedBy(threshold: int, es: seq<Event>, tr: seq<System>, k: nat) returns (i: nat)
    requires IsRun(threshold, es, tr) && k <= |es| && tr[k].breaker.mode == Open
    ensures i < k && Opens(tr[i], tr[i + 1]) && tr[i + 1].now == tr[k].breaker.openedAt
  {
    assert StepAt(threshold, es, tr, k - 1);
    if Opens(tr[k - 1], tr[k - 1 + 1]) {
      i := k - 1;
    } else {
      i := OpenedBy(threshold, es, tr, k - 1);
    }
  }

  /** The open period, exactly: on every run with clock readings in lock order, nothing
      that could arrive at any point is forwarded within 30 s of any opening if and only
      if no probe reports success inside a later opening's period. */
  lemma QuietIff(threshold: int, es: seq<Event>, tr: seq<System>)
    requires IsRun(threshold, es, tr) && Ordered(tr)
    ensures (forall k: nat :: k <= |es| ==> QuietAt(tr, k)) <==> NoEarlySuccess(es, tr)
  {
    if NoEarlySuccess(es, tr) {
      forall k: nat, at, i: nat |
        k <= |es| && i < k && tr[k].now <= at && LetsThrough(tr[k], Arrive(at)) && Opens(tr[i], tr[i + 1])
        ensures at - tr[i + 1].now >= OPEN_PERIOD
      {
        OpeningInForce(threshold, es, tr, i, k);
      }
    } else {
      var k :| 0 <= k < |es| && EarlySuccess(tr[k], es[k]);
      EarlySuccessLeaks(threshold, es, tr, k);
    }
  }

  /** After an early success the very next request is forwarded inside the period. */
  lemma EarlySuccessLeaks(threshold: int, es: seq<Event>, tr: seq<System>, k: nat)
    requires IsRun(threshold, es, tr) && k < |es| && EarlySuccess(tr[k], es[k])
    ensures !QuietAt(tr, k + 1)
  {
    assert StepAt(threshold, es, tr, k);
    var i := OpenedBy(threshold, es, tr, k);
    assert LetsThrough(tr[k + 1], Arrive(es[k].at));
    assert es[k].at - tr[i + 1].now < OPEN_PERIOD;
  }

  // ----- Probes apart -----

  /** When the latest of the first k events' probes was let out. */
  function LatestProbe(es: seq<Event>, tr: seq<System>, k: nat): Option<int>
    requires |tr| == |es| + 1 && k <= |es|
  {
    if k == 0 then None
    else if LetsProbe(tr[k - 1], es[k - 1]) then Some(es[k - 1].at)
    else LatestProbe(es, tr, k - 1)
  }

  /** A deferred release, late or from a panic, takes the flag of a probe let out less
      than a period ago. */
  predicate EarlyClear(es: seq<Event>, tr: seq<System>, k: nat)
    requires |tr| == |es| + 1 && k < |es|
  {
    && es[k].Deferred? && es[k].r < |tr[k].requests|
    && (tr[k].requests[es[k].r].Returning? || IsProbe(tr[k], es[k].r))
    && tr[k].breaker.probing
    && LatestProbe(es, tr, k).Some? && tr[k].now - LatestProbe(es, tr, k).value < OPEN_PERIOD
  }

  ghost predicate NoEarlyClear(es: seq<Event>, tr: seq<System>)
    requires |tr| == |es| + 1
  {
    forall k :: 0 <= k < |es| ==> !EarlyClear(es, tr, k)
  }

  ghost predicate ClosesBetween(tr: seq<System>, i: nat, k: nat) {
    exists c :: i < c <= k && c < |tr| && tr[c].breaker.mode == Closed
  }

  /** Whoever arrives in state k, and whenever, becomes a probe only after a close or a
      whole period since every earlier probe. */
  ghost predicate ApartAt(es: seq<Event>, tr: seq<System>, k: nat)
    requires |tr| == |es| + 1 && k <= |es|
  {
    forall at, i: nat ::
      i < k && tr[k].now <= at && LetsProbe(tr[k], Arrive(at)) && LetsProbe(tr[i], es[i]) ==>
        ClosesBetween(tr, i, k) || at - es[i].at >= OPEN_PERIOD
  }

  /** Between a probe let out at `since` and now: it is still out, or it failed and the
      new opening is in force, or a whole open period has passed. */
  ghost predicate ProbePending(s: System, since: int) {
    && since <= s.now
    && (|| (s.breaker.mode == HalfOpen && s.breaker.probing)
        || (s.breaker.mode == Open && since <= s.breaker.openedAt)
        || since + OPEN_PERIOD <= s.now)
  }

  lemma PendingStep(threshold: int, es: seq<Event>, tr: seq<System>, k: nat, since: int)
    requires IsRun(threshold, es, tr) && Ordered(tr) && k < |es| && !EarlyClear(es, tr, k)
    requires ProbePending(tr[k], since)
    requires LatestProbe(es, tr, k).Some? && since <= LatestProbe(es, tr, k).value
    ensures tr[k + 1].breaker.mode != Closed ==> ProbePending(tr[k + 1], since)
  {
    assert StepAt(threshold, es, tr, k);
    assert TimeForward(tr[k], tr[k + 1]);
  }

  /** The latest probe is no older than any other, and not in the future. */
  lemma {:induction false} LatestIsLatest(threshold: int, es: seq<Event>, tr: seq<System>, i: nat, k: nat)
    requires IsRun(threshold, es, tr) && Ordered(tr) && i < k <= |es| && LetsProbe(tr[i], es[i])
    ensures LatestProbe(es, tr, k).Some? && es[i].at <= LatestProbe(es, tr, k).value <= tr[k].now
  {
    assert StepAt(threshold, es, tr, k - 1);
    assert TimeForward(tr[k - 1], tr[k - 1 + 1]);
    if k > i + 1 {
      LatestIsLatest(threshold, es, tr, i, k - 1);
    }
  }

  lemma {:induction false} PendingUntil(
      threshold: int, es: seq<Event>, tr: seq<System>, i: nat, k: nat)
    requires IsRun(threshold, es, tr) && Ordered(tr) && NoEarlyClear(es, tr)
    requires i < k <= |es| && LetsProbe(tr[i], es[i])
    ensures ClosesBetween(tr, i, k) || ProbePending(tr[k], es[i].at)
  {
    assert StepAt(threshold, es, tr, k - 1);
    if k > i + 1 {
      PendingUntil(threshold, es, tr, i, k - 1);
      if !ClosesBetween(tr, i, k - 1) {
        LatestIsLatest(threshold, es, tr, i, k - 1);
        PendingStep(threshold, es, tr, k - 1, es[i].at);
      }
    }
  }

  /** While the flag is set, the latest probe set it, and nothing has closed since. */
  lemma {:induction false} FlagFrom(threshold: int, es: seq<Event>, tr: seq<System>, k: nat) returns (i: nat)
    requires IsRun(threshold, es, tr) && k <= |es| && tr[k].breaker.probing
    ensures i < k && LetsProbe(tr[i], es[i]) && LatestProbe(es, tr, k) == Some(es[i].at)
    ensures tr[k].breaker.mode == HalfOpen && !ClosesBetween(tr, i, k)
  {
    assert StepAt(threshold, es, tr, k - 1);
    if LetsProbe(tr[k - 1], es[k - 1]) {
      i := k - 1;
    } else {
      i := FlagFrom(threshold, es, tr, k - 1);
    }
  }

  /** Spacing of probes, exactly: on every run with clock readings in lock order, no two
      probes can be closer than a close or 30 s if and only if no deferred release takes
      the flag of a probe less than 30 s old. */
  lemma ProbesApartIff(threshold: int, es: seq<Event>, tr: seq<System>)
    requires IsRun(threshold, es, tr) && Ordered(tr)
    ensures (forall k: nat :: k <= |es| ==> ApartAt(es, tr, k)) <==> NoEarlyClear(es, tr)
  {
    if NoEarlyClear(es, tr) {
      forall k: nat, at, i: nat |
        k <= |es| && i < k && tr[k].now <= at && LetsProbe(tr[k], Arrive(at)) && LetsProbe(tr[i], es[i])
        ensures ClosesBetween(tr, i, k) || at - es[i].at >= OPEN_PERIOD
      {
        PendingUntil(threshold, es, tr, i, k);
      }
    } else {
      var k :| 0 <= k < |es| && EarlyClear(es, tr, k);
      EarlyClearDoubles(threshold, es, tr, k);
    }
  }

  lemma EarlyClearDoubles(threshold: int, es: seq<Event>, tr: seq<System>, k: nat)
    requires IsRun(threshold, es, tr) && k < |es| && EarlyClear(es, tr, k)
    ensures !ApartAt(es, tr, k + 1)
  {
    assert StepAt(threshold, es, tr, k);
    var i := FlagFrom(threshold, es, tr, k);
    assert LetsProbe(tr[k + 1], Arrive(tr[k].now));
    assert !ClosesBetween(tr, i, k + 1);
  }

  /** No probe's handler panics: it is never unwound while still out. */
  ghost predicate NoPanic(es: seq<Event>, tr: seq<System>)
    requires |tr| == |es| + 1
  {
    forall k :: 0 <= k < |es| && es[k].Deferred? ==> !IsProbe(tr[k], es[k].r)
  }

  /** Prompt releases are enough for a quiet period, and without a panic for probes that
      stay apart. */
  lemma PromptIsEnough(threshold: int, es: seq<Event>, tr: seq<System>)
    requires IsRun(threshold, es, tr) && Prompt(es, tr)
    ensures NoEarlySuccess(es, tr)
    ensures NoPanic(es, tr) ==> NoEarlyClear(es, tr)
  {
    forall k: nat | k < |es|
      ensures !EarlySuccess(tr[k], es[k]) && (NoPanic(es, tr) ==> !EarlyClear(es, tr, k))
    {
      PromptFlag(threshold, es, tr, k);
      if EarlySuccess(tr[k], es[k]) { TotalCovers(ProbeOf, tr[k].requests, es[k].r); }
    }
  }
}
