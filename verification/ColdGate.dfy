/** The state a cold-start gate keeps under its mutex, and what each locked
    operation does to it. */
module ColdGate {
  import opened GoInts
  import opened TokenBucket

  const DEFAULT_WINDOW: int := 600 * SECOND
  const PRUNE_DIVISOR: int := 8
  const PRUNE_MIN_INTERVAL: int := SECOND

  datatype Verdict = Warm | Cold | OverBudget | OverRate {
    predicate Admitted() { Warm? || Cold? }
  }

  datatype Settings = Settings(window: int, rate: int) {
    predicate Valid() { 0 < window }
  }

  datatype Gate = Gate(
    seen: map<string, int>,
    lastPrune: Option<int>,
    inFlight: int,
    bucket: Bucket)

  function Initial(start: int): Gate {
    Gate(map[], None, 0, Bucket(CAPACITY, start))
  }

  predicate IsWarm(g: Gate, st: Settings, session: string, at: int) {
    session != "" && session in g.seen && at - g.seen[session] < st.window
  }

  predicate BudgetBlocks(inFlight: int, estimate: int, budget: int) {
    budget > 0 && inFlight > 0 && inFlight + estimate > budget
  }

  function Mark(seen: map<string, int>, session: string, at: int): map<string, int> {
    if session != "" then seen[session := at] else seen
  }

  /** Classify one request and, when it gets in, charge it. */
  function TryAdmit(g: Gate, st: Settings, budget: int, session: string, estimate: int, at: int)
    : (Gate, Verdict)
  {
    if IsWarm(g, st, session, at) then (g.(seen := g.seen[session := at]), Warm)
    else if BudgetBlocks(g.inFlight, estimate, budget) then (g, OverBudget)
    else
      var b := Refill(g.bucket, st.rate, at);
      if st.rate > 0 && b.tokens < 1 then (g.(bucket := b), OverRate)
      else (Gate(
              Mark(g.seen, session, at),
              g.lastPrune,
              g.inFlight + estimate,
              if st.rate > 0 then b.(tokens := b.tokens - 1) else b),
            Cold)
  }

  function PruneInterval(window: int): int
    requires 0 < window
  {
    if window / PRUNE_DIVISOR < PRUNE_MIN_INTERVAL then PRUNE_MIN_INTERVAL
    else window / PRUNE_DIVISOR
  }

  function LiveSessions(seen: map<string, int>, window: int, at: int): map<string, int> {
    map id | id in seen && at - seen[id] < window :: seen[id]
  }

  /** Drop expired sessions, but walk the map only once per interval. */
  function Prune(g: Gate, st: Settings, at: int): Gate
    requires st.Valid()
  {
    if g.lastPrune.Some? && at - g.lastPrune.value < PruneInterval(st.window) then g
    else g.(lastPrune := Some(at), seen := LiveSessions(g.seen, st.window, at))
  }

  /** Give a reservation back; never more than what is reserved. */
  function Free(g: Gate, estimate: int): Gate {
    g.(inFlight := g.inFlight - if g.inFlight < estimate then g.inFlight else estimate)
  }

  /** The prefill cost charged for a body of the given length. The product is stored
      in 64 bits, so the two-sevenths rule holds exactly for lengths below 2^62. */
  function Estimate(contentLength: int): (e: int)
    requires -TWO_63 <= contentLength < TWO_63
    ensures contentLength <= 0 ==> e == 0
    ensures 0 < contentLength ==>
              (e == contentLength * 2 / 7 <==> contentLength < TWO_63 / 2)
    ensures contentLength < TWO_63 / 2 ==> 0 <= e
  {
    if contentLength <= 0 then 0 else Quo(Wrap64(contentLength * 2), 7)
  }

  /** Whole seconds sent in Retry-After: the longest wait, kept within a minute. */
  function RetryAfterSeconds(maxWait: int): (s: int)
    ensures maxWait < SECOND ==> s == 1
    ensures SECOND <= maxWait < 60 * SECOND ==> 1 <= s < 60 && s * SECOND <= maxWait < (s + 1) * SECOND
    ensures 60 * SECOND <= maxWait ==> s == 60
  {
    var seconds := Quo(maxWait, SECOND);
    if seconds < 1 then 1 else if seconds > 60 then 60 else seconds
  }

  class ColdStartGate {
    const window: int
    const rate: int
    var seen: map<string, int>
    var lastPrune: Option<int>
    var inFlightTokens: int
    var rateTokens: int
    var rateLastRefill: int
    // The identity of the current broadcast channel: closing and replacing it.
    var generation: nat

    ghost function Abs(): Gate
      reads this
    {
      Gate(seen, lastPrune, inFlightTokens, Bucket(rateTokens, rateLastRefill))
    }

    ghost function Config(): Settings {
      Settings(window, rate)
    }

    constructor (sessionWindow: int, newSessionsPerMinute: int, now: int)
      ensures Config().Valid()
      ensures window == if sessionWindow <= 0 then 600_000_000_000 else sessionWindow
      ensures rate == newSessionsPerMinute
      ensures Abs() == Initial(now) && generation == 0
    {
      window := if sessionWindow <= 0 then DEFAULT_WINDOW else sessionWindow;
      rate := newSessionsPerMinute;
      seen, lastPrune, inFlightTokens := map[], None, 0;
      rateTokens, rateLastRefill := CAPACITY, now;
      generation := 0;
    }

    method RefillLocked(at: int)
      modifies this`rateTokens, this`rateLastRefill
      ensures Abs() == old(Abs()).(bucket := Refill(old(Abs()).bucket, rate, at))
    {
      if rate <= 0 {
        return;
      }
      if rateTokens >= CAPACITY {
        rateLastRefill := at;
        return;
      }
      var earned := Quo(Wrap64((at - rateLastRefill) * rate), MINUTE);
      if earned <= 0 {
        return;
      }
      rateTokens := rateTokens + earned;
      if rateTokens > CAPACITY {
        rateTokens := CAPACITY;
      }
      rateLastRefill := rateLastRefill + Quo(Wrap64(earned * MINUTE), rate);
    }

    method RateWaitLocked(at: int) returns (wait: int)
      ensures wait == Wait(Abs().bucket, rate, at)
    {
      if rate <= 0 || rateTokens >= 1 {
        return 0;
      }
      var perToken := MINUTE / rate;
      var earned := Quo(Wrap64((at - rateLastRefill) * rate), MINUTE);
      var next := rateLastRefill + Wrap64((earned + 1) * perToken);
      wait := next - at;
      if wait <= 0 {
        wait := perToken;
      }
    }

    method TryAdmitLocked(session: string, estimate: int, budget: int, at: int)
      returns (verdict: Verdict)
      modifies this`seen, this`inFlightTokens, this`rateTokens, this`rateLastRefill
      ensures (Abs(), verdict) == TryAdmit(old(Abs()), Config(), budget, session, estimate, at)
    {
      if session != "" {
        if session in seen && at - seen[session] < window {
          seen := seen[session := at];
          return Warm;
        }
      }
      if budget > 0 && inFlightTokens > 0 && inFlightTokens + estimate > budget {
        return OverBudget;
      }
      RefillLocked(at);
      if rate > 0 && rateTokens < 1 {
        return OverRate;
      }
      inFlightTokens := inFlightTokens + estimate;
      if rate > 0 {
        rateTokens := rateTokens - 1;
      }
      if session != "" {
        seen := seen[session := at];
      }
      return Cold;
    }

    method PruneLocked(at: int)
      requires Config().Valid()
      modifies this`seen, this`lastPrune
      ensures Abs() == Prune(old(Abs()), Config(), at)
    {
      var interval := window / PRUNE_DIVISOR;
      if interval < PRUNE_MIN_INTERVAL {
        interval := PRUNE_MIN_INTERVAL;
      }
      if lastPrune.Some? && at - lastPrune.value < interval {
        return;
      }
      lastPrune := Some(at);
      var ids := seen.Keys;
      while ids != {}
        invariant ids <= old(seen.Keys) && seen.Keys <= old(seen.Keys)
        invariant lastPrune == Some(at) && ids <= seen.Keys
        invariant forall id :: id in seen ==> seen[id] == old(seen)[id]
        invariant forall id :: id in old(seen) && id !in ids ==>
                    (id in seen <==> at - old(seen)[id] < window)
        decreases ids
      {
        var id :| id in ids;
        if at - seen[id] >= window {
          seen := seen - {id};
        }
        ids := ids - {id};
      }
      assert seen == LiveSessions(old(seen), window, at);
    }

    /** First delta or handler return, whichever comes first: free the reservation and
        wake every waiter by moving to a new broadcast generation. */
    method Release(estimate: int)
      modifies this`inFlightTokens, this`generation
      ensures Abs() == Free(old(Abs()), estimate)
      ensures generation == old(generation) + 1
    {
      var freed := estimate;
      if inFlightTokens < freed {
        freed := inFlightTokens;
      }
      inFlightTokens := inFlightTokens - freed;
      generation := generation + 1;
    }
  }
}
