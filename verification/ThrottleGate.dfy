/** The adaptive 429 delay gate: a sliding window of upstream 429s and a pacing delay
    that doubles on each further 429 and halves once per clean window. */
module ThrottleGate {
  import opened GoInts

  const WINDOW: int := 60 * SECOND
  const TOO_MANY: int := 429

  datatype Throttle = Throttle(window: seq<int>, delay: int, on: bool, lastHalf: int)

  datatype Limits = Limits(threshold: int, maxDelay: int) {
    predicate Valid() { 0 < threshold && 0 < maxDelay < TWO_63 }
  }

  const INITIAL: Throttle := Throttle([], 0, false, 0)

  /** The instants still inside the observation window. */
  function Recent(times: seq<int>, now: int): seq<int> {
    if times == [] then []
    else
      var n := |times| - 1;
      Recent(times[..n], now) + if now - times[n] < WINDOW then [times[n]] else []
  }

  lemma RecentNext(times: seq<int>, i: nat, now: int)
    requires i < |times|
    ensures Recent(times[..i + 1], now)
         == if now - times[i] < WINDOW then Recent(times[..i], now) + [times[i]] else Recent(times[..i], now)
  {
    assert times[..i + 1][..i] == times[..i];
  }

  /** Twice the delay as the machine computes it, cut off at the maximum. */
  function Doubled(delay: int, maxDelay: int): int {
    var next := Wrap64(delay * 2);
    if next > maxDelay || next < delay then maxDelay else next
  }

  function Observe429(l: Limits, t: Throttle, now: int): Throttle {
    var w := t.window + [now];
    if !t.on && |w| >= l.threshold then
      Throttle(w, Min(SECOND, l.maxDelay), true, now)
    else if t.on then t.(window := w, delay := Doubled(t.delay, l.maxDelay))
    else t.(window := w)
  }

  predicate Halves(t: Throttle, now: int) {
    t.on && t.window == [] && now - t.lastHalf >= WINDOW
  }

  function ObserveClean(t: Throttle, now: int): Throttle {
    if !Halves(t, now) then t
    else if t.delay / 2 < SECOND then t.(on := false, delay := 0, lastHalf := now)
    else t.(delay := t.delay / 2, lastHalf := now)
  }

  function Observe(l: Limits, t: Throttle, status: int, now: int): Throttle {
    var t1 := t.(window := Recent(t.window, now));
    if status == TOO_MANY then Observe429(l, t1, now) else ObserveClean(t1, now)
  }

  class Gate {
    const threshold: int
    const maxDelay: int
    // The observation instants: the first `count` cells of a growing buffer.
    var buffer: array<int>
    var count: nat
    var delay: int
    var on: bool
    var lastHalf: int

    ghost predicate Valid()
      reads this
    {
      count <= buffer.Length && Config().Valid() && 0 <= delay
    }

    ghost function Abs(): Throttle
      requires count <= buffer.Length
      reads this, buffer
    {
      Throttle(buffer[..count], delay, on, lastHalf)
    }

    ghost function Config(): Limits {
      Limits(threshold, maxDelay)
    }

    constructor (limits: Limits)
      requires limits.Valid()
      ensures Valid() && fresh(buffer) && Config() == limits && Abs() == INITIAL
    {
      threshold, maxDelay := limits.threshold, limits.maxDelay;
      buffer, count := new int[0], 0;
      delay, on, lastHalf := 0, false, 0;
    }

    /** Drop aged-out instants by moving the kept ones to the front of the buffer. */
    method PruneWindow(now: int)
      requires Valid()
      modifies this`count, buffer
      ensures Valid() && buffer == old(buffer)
      ensures Abs() == old(Abs()).(window := Recent(old(Abs()).window, now))
    {
      var kept := 0;
      ghost var was := buffer[..count];
      for i := 0 to count
        invariant 0 <= kept <= i && count == old(count)
        invariant kept == |Recent(was[..i], now)|
        invariant forall k :: 0 <= k < kept ==> buffer[k] == Recent(was[..i], now)[k]
        invariant forall k :: i <= k < count ==> buffer[k] == was[k]
      {
        RecentNext(was, i, now);
        var t := buffer[i];
        assert t == was[i];
        if now - t < WINDOW {
          buffer[kept] := t;
          kept := kept + 1;
        }
      }
      assert was[..count] == was;
      assert buffer[..kept] == Recent(was, now);
      count := kept;
    }

    method Append(now: int)
      requires Valid()
      modifies this`buffer, this`count, buffer
      ensures Valid() && (buffer == old(buffer) || fresh(buffer))
      ensures Abs() == old(Abs()).(window := old(Abs()).window + [now])
    {
      if count == buffer.Length {
        var bigger := new int[2 * count + 1];
        forall i | 0 <= i < count {
          bigger[i] := buffer[i];
        }
        assert bigger[..count] == buffer[..count];
        buffer := bigger;
      }
      buffer[count] := now;
      count := count + 1;
      assert buffer[..count] == old(buffer[..count]) + [now];
    }

    method IncreaseDelay()
      requires Valid() && on
      modifies this`delay
      ensures Valid() && delay == Doubled(old(delay), maxDelay)
    {
      var next := Wrap64(delay * 2);
      if next > maxDelay || next < delay {
        delay := maxDelay;
      } else {
        delay := next;
      }
    }

    method EnterThrottle(now: int)
      requires Valid()
      modifies this`on, this`delay, this`lastHalf
      ensures Valid() && on && delay == Min(SECOND, maxDelay) && lastHalf == now
    {
      on := true;
      delay := SECOND;
      if delay > maxDelay {
        delay := maxDelay;
      }
      lastHalf := now;
    }

    method RecordRefusal(now: int)
      requires Valid()
      modifies this, buffer
      ensures Valid() && (buffer == old(buffer) || fresh(buffer))
      ensures Abs() == Observe429(Config(), old(Abs()), now)
    {
      Append(now);
      if !on && count >= threshold {
        EnterThrottle(now);
      } else if on {
        IncreaseDelay();
      }
    }

    method RecordClean(now: int)
      requires Valid()
      modifies this`on, this`delay, this`lastHalf
      ensures Valid() && Abs() == ObserveClean(old(Abs()), now)
    {
      if !on || count != 0 || now - lastHalf < WINDOW {
        return;
      }
      delay := delay / 2;
      lastHalf := now;
      if delay < SECOND {
        on := false;
        delay := 0;
      }
    }

    method RecordStatus(status: int, now: int)
      requires Valid()
      modifies this, buffer
      ensures Valid() && (buffer == old(buffer) || fresh(buffer))
      ensures Abs() == Observe(Config(), old(Abs()), status, now)
    {
      PruneWindow(now);
      if status == TOO_MANY {
        RecordRefusal(now);
      } else {
        RecordClean(now);
      }
    }
  }

  // ----- Runs -----

  datatype Seen = Seen(status: int, at: int)

  predicate StepAt(l: Limits, obs: seq<Seen>, tr: seq<Throttle>, k: nat)
    requires |tr| == |obs| + 1
  {
    k < |obs| ==> tr[k + 1] == Observe(l, tr[k], obs[k].status, obs[k].at)
  }

  /** `tr` are the states the observations lead through from `tr[0]`. */
  ghost predicate IsRun(l: Limits, obs: seq<Seen>, tr: seq<Throttle>) {
    |tr| == |obs| + 1 && forall k: nat :: k < |obs| ==> StepAt(l, obs, tr, k)
  }

  /** Observations are folded in clock order. */
  ghost predicate Ordered(obs: seq<Seen>) {
    forall i, j :: 0 <= i < j < |obs| ==> obs[i].at <= obs[j].at
  }

  /** All the 429s of the first k observations. */
  function Refusals(obs: seq<Seen>, k: nat): seq<int>
    requires k <= |obs|
  {
    if k == 0 then []
    else Refusals(obs, k - 1) + if obs[k - 1].status == TOO_MANY then [obs[k - 1].at] else []
  }

  lemma RecentAppend(times: seq<int>, t: int, now: int)
    ensures Recent(times + [t], now) == Recent(times, now) + if now - t < WINDOW then [t] else []
  {
    assert (times + [t])[..|times|] == times;
  }

  lemma {:induction false} RecentTwice(times: seq<int>, before: int, now: int)
    requires before <= now
    ensures Recent(Recent(times, before), now) == Recent(times, now)
  {
    if times != [] {
      var n := |times| - 1;
      RecentTwice(times[..n], before, now);
      var kept := Recent(times[..n], before);
      if before - times[n] < WINDOW {
        RecentAppend(kept, times[n], now);
      } else {
        assert kept + [] == kept;
        assert Recent(times[..n], now) + [] == Recent(times[..n], now);
      }
    }
  }

  /** The pruned window is the set of 429s of the whole history younger than 60 s. */
  lemma {:induction false} WindowExact(l: Limits, obs: seq<Seen>, tr: seq<Throttle>, k: nat)
    requires IsRun(l, obs, tr) && Ordered(obs) && tr[0].window == [] && 0 < k <= |obs|
    ensures tr[k].window == Recent(Refusals(obs, k), obs[k - 1].at)
  {
    var now := obs[k - 1].at;
    assert StepAt(l, obs, tr, k - 1);
    if k > 1 {
      WindowExact(l, obs, tr, k - 1);
      RecentTwice(Refusals(obs, k - 1), obs[k - 2].at, now);
    }
    assert Recent(tr[k - 1].window, now) == Recent(Refusals(obs, k - 1), now);
    if obs[k - 1].status == TOO_MANY {
      RecentAppend(Refusals(obs, k - 1), now, now);
    } else {
      assert Refusals(obs, k) == Refusals(obs, k - 1) + [] == Refusals(obs, k - 1);
    }
  }

  /** Throttling starts exactly when the 60 s count of 429s reaches the threshold, and
      then at one second or the maximum, whichever is smaller. */
  lemma StartsExactly(l: Limits, obs: seq<Seen>, tr: seq<Throttle>, k: nat)
    requires l.Valid() && IsRun(l, obs, tr) && Ordered(obs) && tr[0].window == []
    requires k < |obs| && !tr[k].on
    ensures tr[k + 1].on <==>
              && obs[k].status == TOO_MANY
              && |Recent(Refusals(obs, k + 1), obs[k].at)| >= l.threshold
    ensures tr[k + 1].on ==> tr[k + 1].delay == Min(SECOND, l.maxDelay) && tr[k + 1].lastHalf == obs[k].at
    ensures !tr[k + 1].on ==> tr[k + 1].delay == tr[k].delay && tr[k + 1].lastHalf == tr[k].lastHalf
  {
    assert StepAt(l, obs, tr, k);
    WindowExact(l, obs, tr, k + 1);
  }

  /** The doubling with its wrap-around check is the mathematical minimum. */
  lemma DoublingExact(delay: int, maxDelay: int)
    requires 0 <= delay <= maxDelay < TWO_63
    ensures Doubled(delay, maxDelay) == Min(2 * delay, maxDelay)
  {
    if TWO_63 <= delay * 2 {
      WrapSame(delay * 2 - TWO_64, 1);
    }
  }

  ghost predicate DelayOk(l: Limits, t: Throttle) {
    if t.on then Min(SECOND, l.maxDelay) <= t.delay <= l.maxDelay else t.delay == 0
  }

  /** In every reachable state the delay is within its bounds while throttled and zero
      otherwise. */
  lemma {:induction false} DelayBounded(l: Limits, obs: seq<Seen>, tr: seq<Throttle>, k: nat)
    requires l.Valid() && IsRun(l, obs, tr) && DelayOk(l, tr[0]) && k <= |obs|
    ensures DelayOk(l, tr[k])
  {
    if k > 0 {
      DelayBounded(l, obs, tr, k - 1);
      assert StepAt(l, obs, tr, k - 1);
      if tr[k - 1].on { DoublingExact(tr[k - 1].delay, l.maxDelay); }
    }
  }

  /** On every run, a 429 while throttled doubles the delay, up to the maximum, and changes
      nothing else. */
  lemma RefusalDoubles(l: Limits, obs: seq<Seen>, tr: seq<Throttle>, k: nat)
    requires l.Valid() && IsRun(l, obs, tr) && DelayOk(l, tr[0]) && k < |obs|
    requires tr[k].on && obs[k].status == 429
    ensures tr[k + 1].on && tr[k + 1].lastHalf == tr[k].lastHalf
    ensures tr[k + 1].delay == if 2 * tr[k].delay <= l.maxDelay then 2 * tr[k].delay else l.maxDelay
  {
    assert StepAt(l, obs, tr, k);
    DelayBounded(l, obs, tr, k);
    DoublingExact(tr[k].delay, l.maxDelay);
  }

  /** The 429 instants of the first k observations. */
  ghost function RefusalsIn(obs: seq<Seen>, k: nat): nat
    requires k <= |obs|
  {
    if k == 0 then 0 else RefusalsIn(obs, k - 1) + if obs[k - 1].status == 429 then 1 else 0
  }

  /** No 429 of the first k observations is younger than 60 s at this instant. */
  ghost predicate QuietMinute(obs: seq<Seen>, k: nat, at: int)
    requires k <= |obs|
  {
    forall i :: 0 <= i < k && obs[i].status == 429 ==> at - obs[i].at >= 60_000_000_000
  }

  lemma {:induction false} RecentEmptyIff(obs: seq<Seen>, k: nat, at: int)
    requires k <= |obs|
    ensures Recent(Refusals(obs, k), at) == [] <==> QuietMinute(obs, k, at)
  {
    if k > 0 {
      RecentEmptyIff(obs, k - 1, at);
      if obs[k - 1].status == 429 {
        RecentAppend(Refusals(obs, k - 1), obs[k - 1].at, at);
      } else {
        assert Refusals(obs, k) == Refusals(obs, k - 1);
      }
    }
  }

  /** On every run, a clean response while throttled halves the delay, ending the throttling
      below one second, if and only if no 429 of the whole history is younger than 60 s and
      the last halving or start is 60 s ago; otherwise it changes neither. While not
      throttled it never does. */
  lemma CleanHalvesIff(l: Limits, obs: seq<Seen>, tr: seq<Throttle>, k: nat)
    requires IsRun(l, obs, tr) && Ordered(obs) && tr[0].window == [] && k < |obs| && obs[k].status != 429
    requires 0 <= tr[k].delay
    ensures var t, t' := tr[k], tr[k + 1];
            if t.on && QuietMinute(obs, k, obs[k].at) && obs[k].at - t.lastHalf >= 60_000_000_000 then
              && t'.lastHalf == obs[k].at
              && (if t.delay < 2_000_000_000 then !t'.on && t'.delay == 0
                  else t'.on && t'.delay <= t.delay - t'.delay <= t'.delay + 1)
            else t'.on == t.on && t'.delay == t.delay && t'.lastHalf == t.lastHalf
  {
    assert StepAt(l, obs, tr, k);
    if k > 0 {
      WindowExact(l, obs, tr, k);
      RecentTwice(Refusals(obs, k), obs[k - 1].at, obs[k].at);
    }
    RecentEmptyIff(obs, k, obs[k].at);
  }

  /** No clean response of the run halves the delay. */
  ghost predicate NeverHalved(obs: seq<Seen>, tr: seq<Throttle>)
    requires |tr| == |obs| + 1
  {
    forall k :: 0 <= k < |obs| && obs[k].status != 429 ==>
      tr[k + 1].on == tr[k].on && tr[k + 1].delay == tr[k].delay
  }

  lemma PowTwice(n: nat, x: int)
    ensures Pow2(n + 1) * x == 2 * (Pow2(n) * x)
  {
  }

  /** From a throttled state, after j 429s without a halving the delay is 2^j times what it
      was, up to the maximum. */
  lemma {:induction false} RefusalsDouble(l: Limits, obs: seq<Seen>, tr: seq<Throttle>, k: nat)
    requires l.Valid() && IsRun(l, obs, tr) && DelayOk(l, tr[0]) && tr[0].on && NeverHalved(obs, tr) && k <= |obs|
    ensures tr[k].on && tr[k].delay == Min(Pow2(RefusalsIn(obs, k)) * tr[0].delay, l.maxDelay)
  {
    if k > 0 {
      RefusalsDouble(l, obs, tr, k - 1);
      if obs[k - 1].status == 429 {
        RefusalDoubles(l, obs, tr, k - 1);
        PowTwice(RefusalsIn(obs, k - 1), tr[0].delay);
      } else {
        assert tr[k - 1 + 1].on == tr[k - 1].on;
      }
    }
  }

  // ----- Recovery -----

  function Pow2(k: nat): nat {
    if k == 0 then 1 else 2 * Pow2(k - 1)
  }

  /** The smallest k >= 1 such that the delay is below 2^k seconds. */
  function StepsToOff(delay: nat): nat {
    if delay < 2 * SECOND then 1 else 1 + StepsToOff(delay / 2)
  }

  lemma {:induction false} StepsToOffIsLeast(delay: nat)
    ensures 1 <= StepsToOff(delay)
    ensures delay < Pow2(StepsToOff(delay)) * SECOND
    ensures forall k: nat :: 1 <= k < StepsToOff(delay) ==> Pow2(k) * SECOND <= delay
  {
    if delay >= 2 * SECOND {
      StepsToOffIsLeast(delay / 2);
      forall k: nat | 1 <= k < StepsToOff(delay) ensures Pow2(k) * SECOND <= delay {
        if k > 1 { assert Pow2(k - 1) * SECOND <= delay / 2; }
      }
    }
  }

  ghost predicate Clean(obs: seq<Seen>) {
    forall k :: 0 <= k < |obs| ==> obs[k].status != TOO_MANY
  }

  predicate HalvesAt(t: Throttle, at: int) {
    Halves(t.(window := Recent(t.window, at)), at)
  }

  function Halvings(obs: seq<Seen>, tr: seq<Throttle>, k: nat): nat
    requires |tr| == |obs| + 1 && k <= |obs|
  {
    if k == 0 then 0
    else Halvings(obs, tr, k - 1) + if HalvesAt(tr[k - 1], obs[k - 1].at) then 1 else 0
  }

  /** The delay after m halvings. */
  function HalvedBy(delay: nat, m: nat): nat {
    if m == 0 then delay else HalvedBy(delay, m - 1) / 2
  }

  lemma {:induction false} StepsAfter(delay: nat, m: nat)
    requires m < StepsToOff(delay)
    ensures StepsToOff(HalvedBy(delay, m)) == StepsToOff(delay) - m
    decreases m
  {
    if m > 0 { StepsAfter(delay, m - 1); }
  }

  /** With no further 429s the gate turns off after exactly the least k >= 1 halvings
      with delay < 2^k seconds; until then the delay is the start delay halved that
      often, and the halvings are at least a window apart. */
  lemma {:induction false} Recovery(l: Limits, obs: seq<Seen>, tr: seq<Throttle>, k: nat)
    requires IsRun(l, obs, tr) && Clean(obs) && k <= |obs|
    requires tr[0].on && 0 <= tr[0].delay
    ensures var m := Halvings(obs, tr, k);
            var steps := StepsToOff(tr[0].delay);
            && m <= steps
            && (tr[k].on <==> m < steps)
            && tr[k].delay == (if m < steps then HalvedBy(tr[0].delay, m) else 0)
            && tr[k].lastHalf - tr[0].lastHalf >= m * WINDOW
  {
    StepsToOffIsLeast(tr[0].delay);
    if k > 0 {
      Recovery(l, obs, tr, k - 1);
      assert StepAt(l, obs, tr, k - 1);
      var m := Halvings(obs, tr, k - 1);
      if tr[k - 1].on { StepsAfter(tr[0].delay, m); }
    }
  }

  /** Clean responses a window apart, the first a window after the last halving and
      after every 429, turn the gate off at exactly that step. */
  lemma {:induction false} SpacedRecovery(l: Limits, obs: seq<Seen>, tr: seq<Throttle>, k: nat)
    requires IsRun(l, obs, tr) && Clean(obs) && tr[0].on && 0 <= tr[0].delay
    requires forall i :: 0 <= i < |obs| ==> obs[i].at - tr[0].lastHalf >= WINDOW
    requires forall i, j :: 0 <= i < j < |obs| ==> obs[j].at - obs[i].at >= WINDOW
    requires forall i, t :: 0 <= i < |obs| && t in tr[0].window ==> obs[i].at - t >= WINDOW
    requires k <= |obs| && k <= StepsToOff(tr[0].delay)
    ensures Halvings(obs, tr, k) == k
    ensures tr[k].on <==> k < StepsToOff(tr[0].delay)
    ensures k > 0 ==> tr[k].window == [] && tr[k].lastHalf == obs[k - 1].at
  {
    Recovery(l, obs, tr, k);
    if k > 0 {
      SpacedRecovery(l, obs, tr, k - 1);
      assert StepAt(l, obs, tr, k - 1);
      AllAged(tr[k - 1].window, obs[k - 1].at);
    }
  }

  lemma {:induction false} AllAged(times: seq<int>, now: int)
    requires forall t :: t in times ==> now - t >= WINDOW
    ensures Recent(times, now) == []
  {
    if times != [] {
      var n := |times| - 1;
      assert times[n] in times && forall t :: t in times[..n] ==> t in times;
      AllAged(times[..n], now);
    }
  }
}
