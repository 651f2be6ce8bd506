/** The new-session token bucket of the cold-start gate: capacity one, refilled
    lazily in integer nanoseconds, with the refill anchor advanced by exactly the
    time the credited tokens stand for. Products are stored in 64 bits. */
module TokenBucket {
  import opened GoInts

  const MINUTE: int := 60_000_000_000
  const CAPACITY: int := 1

  datatype Bucket = Bucket(tokens: int, anchor: int)

  function PerToken(rate: int): int
    requires 0 < rate
  {
    MINUTE / rate
  }

  /** Tokens the elapsed time is worth, as the machine computes them. */
  function Earned(b: Bucket, rate: int, at: int): int
    requires 0 < rate
  {
    Quo(Wrap64((at - b.anchor) * rate), MINUTE)
  }

  function Refill(b: Bucket, rate: int, at: int): Bucket {
    if rate <= 0 then b
    else if b.tokens >= CAPACITY then b.(anchor := at)
    else
      var earned := Earned(b, rate, at);
      if earned <= 0 then b
      else Bucket(
             if b.tokens + earned > CAPACITY then CAPACITY else b.tokens + earned,
             b.anchor + Quo(Wrap64(earned * MINUTE), rate))
  }

  /** How long a waiter sleeps before it asks again; 0 arms no timer. */
  function Wait(b: Bucket, rate: int, at: int): int {
    if rate <= 0 || b.tokens >= 1 then 0
    else
      var perToken := PerToken(rate);
      var next := b.anchor + Wrap64((Earned(b, rate, at) + 1) * perToken);
      if next - at <= 0 then perToken else next - at
  }

  /** An attempt at this instant would find a token. */
  predicate Credits(b: Bucket, rate: int, at: int) {
    Refill(b, rate, at).tokens >= 1
  }

  // ----- Spacing of admissions -----

  /** The part of the elapsed time not yet turned into tokens, scaled by the rate. */
  function Residue(b: Bucket, rate: int, at: int): int {
    Wrap64((at - b.anchor) * rate)
  }

  lemma PerTokenBounds(rate: int)
    requires 0 < rate
    ensures PerToken(rate) * rate <= MINUTE < PerToken(rate) * rate + rate
  {
    DivBounds(MINUTE, rate);
  }

  lemma DivBounds(a: int, b: int)
    requires 0 < b
    ensures (a / b) * b <= a < (a / b) * b + b
  {
    assert a == (a / b) * b + a % b;
  }

  lemma DivMonotone(a: int, c: int, b: int)
    requires 0 < b && a <= c
    ensures a / b <= c / b
  {
    DivBounds(a, b);
    DivBounds(c, b);
    if a / b > c / b {
      MulLe(c / b + 1, a / b, b);
    }
  }

  lemma MulAdd(x: int, y: int, k: int)
    ensures (x + y) * k == x * k + y * k
    ensures (x - y) * k == x * k - y * k
  {
  }

  lemma MulCancel(x: int, y: int, k: int)
    requires 0 < k && x * k < y * k + k
    ensures x <= y
  {
    if y + 1 <= x {
      MulLe(y + 1, x, k);
      MulAdd(y, 1, k);
    }
  }

  /** The arithmetic of one credit: `u` is at most the product `elapsed * rate`, worth
      `e` tokens, which stand for `adv` nanoseconds. */
  lemma Advance(elapsed: int, rate: int, u: int, e: int, adv: int)
    requires 0 < rate && 1 <= e
    requires u <= elapsed * rate
    requires e * MINUTE <= u < e * MINUTE + MINUTE
    requires adv * rate <= e * MINUTE < adv * rate + rate
    ensures adv <= elapsed
    ensures 0 <= u - adv * rate < MINUTE + rate
  {
    MulCancel(adv, elapsed, rate);
  }

  /** What a credited refill does: it turns the stored product into whole tokens. */
  lemma CreditShape(b: Bucket, rate: int, at: int) returns (u: int, e: int, adv: int)
    requires 0 < rate && b.tokens == 0 && Credits(b, rate, at)
    ensures u == Residue(b, rate, at) && 1 <= e
    ensures e * MINUTE <= u < e * MINUTE + MINUTE
    ensures adv * rate <= e * MINUTE < adv * rate + rate
    ensures PerToken(rate) <= adv
    ensures Refill(b, rate, at) == Bucket(1, b.anchor + adv)
  {
    u, e := Residue(b, rate, at), Earned(b, rate, at);
    adv := (e * MINUTE) / rate;
    DivBounds(u, MINUTE);
    assert Wrap64(e * MINUTE) == e * MINUTE;
    DivMonotone(MINUTE, e * MINUTE, rate);
    DivBounds(e * MINUTE, rate);
  }

  /** One credited refill: the anchor stays behind the clock, moves by at least one
      token's time, and leaves less than one token and a rounding unit unspent. */
  lemma CreditStep(b: Bucket, rate: int, at: int)
    requires 0 < rate && b.tokens == 0 && b.anchor <= at
    requires Credits(b, rate, at)
    ensures var b' := Refill(b, rate, at);
            && b'.tokens == 1
            && b.anchor + PerToken(rate) <= b'.anchor <= at
            && 0 <= Residue(b', rate, at) < MINUTE + rate
            && Residue(b', rate, at) == Residue(b, rate, at) - (b'.anchor - b.anchor) * rate
  {
    var u, e, adv := CreditShape(b, rate, at);
    CreditArith(at - b.anchor, rate, u, e, adv);
    assert Residue(Bucket(1, b.anchor + adv), rate, at) == Wrap64((at - b.anchor - adv) * rate);
  }

  lemma CreditArith(elapsed: int, rate: int, u: int, e: int, adv: int)
    requires 0 < rate && 0 <= elapsed && 1 <= e
    requires u == Wrap64(elapsed * rate)
    requires e * MINUTE <= u < e * MINUTE + MINUTE
    requires adv * rate <= e * MINUTE < adv * rate + rate
    ensures adv <= elapsed
    ensures Wrap64((elapsed - adv) * rate) == u - adv * rate
    ensures 0 <= u - adv * rate < MINUTE + rate
  {
    StoredProduct(elapsed, rate);
    Advance(elapsed, rate, u, e, adv);
    StoredDifference(elapsed, adv, rate, elapsed * rate, adv * rate);
  }

  lemma StoredDifference(x: int, y: int, rate: int, xr: int, yr: int)
    requires xr == x * rate && yr == y * rate
    requires 0 <= yr <= Wrap64(xr)
    ensures Wrap64((x - y) * rate) == Wrap64(xr) - yr
  {
    assert (x - y) * rate == xr - yr by { MulAdd(x, y, rate); }
    WrapShift(xr, yr);
  }

  lemma StoredProduct(elapsed: int, rate: int)
    requires 0 <= elapsed && 0 <= rate
    ensures Wrap64(elapsed * rate) <= elapsed * rate
  {
    MulLe(0, elapsed, rate);
  }

  /** Letting time pass grows the residue by no more than the time passed. */
  lemma ResidueGrows(b: Bucket, rate: int, at: int, later: int)
    requires 0 < rate && at <= later && 0 <= Residue(b, rate, at)
    ensures Residue(b, rate, later) <= Residue(b, rate, at) + (later - at) * rate
  {
    var x, y := (at - b.anchor) * rate, (later - at) * rate;
    assert (later - b.anchor) * rate == x + y by { MulAdd(at - b.anchor, later - at, rate); }
    assert 0 <= y by { MulLe(0, later - at, rate); }
    WrapGrows(x, y);
  }

  /** What the i-th and the latest admission have in common: `a[..]` are the
      admission instants so far and `b` is the bucket just after the latest. */
  ghost predicate Ledger(rate: int, a: seq<int>, b: Bucket)
    requires 0 < rate
  {
    if a == [] then b.tokens == 1
    else
      var last := a[|a| - 1];
      && b.tokens == 0 && b.anchor <= last
      && 0 <= Residue(b, rate, last) < MINUTE + rate
      && forall i :: 0 <= i < |a| ==>
           Lead(rate, a, i) >= Residue(b, rate, last) - Slack(rate, i)
  }

  /** By how much the time since admission i exceeds the tokens spent since,
      scaled by the rate. */
  ghost function Lead(rate: int, a: seq<int>, i: int): int
    requires 0 < rate && 0 <= i < |a|
  {
    (a[|a| - 1] - a[i]) * rate - (|a| - 1 - i) * (PerToken(rate) * rate)
  }

  /** The lead over admission i after one more admission at `at`. */
  lemma LeadGrows(rate: int, a: seq<int>, at: int, i: int)
    requires 0 < rate && 0 <= i < |a|
    ensures Lead(rate, a + [at], i)
         == Lead(rate, a, i) + (at - a[|a| - 1]) * rate - PerToken(rate) * rate
  {
    MulAdd(a[|a| - 1] - a[i], at - a[|a| - 1], rate);
    MulAdd(|a| - 1 - i, 1, PerToken(rate) * rate);
  }

  lemma LedgerTake(rate: int, a: seq<int>, b: Bucket, at: int)
    requires 0 < rate && Ledger(rate, a, b)
    requires a != [] ==> a[|a| - 1] <= at
    requires Credits(b, rate, at)
    ensures var b' := Refill(b, rate, at);
            b'.anchor <= at && Ledger(rate, a + [at], b'.(tokens := b'.tokens - 1))
  {
    var b' := Refill(b, rate, at);
    var after := b'.(tokens := b'.tokens - 1);
    if a == [] {
      assert after == Bucket(0, at);
      assert Residue(after, rate, at) == 0;
      assert Lead(rate, [at], 0) == 0;
    } else {
      CreditStep(b, rate, at);
      ResidueOfAnchor(after, b', rate, at);
      forall i | 0 <= i < |a| + 1
        ensures Lead(rate, a + [at], i) >= Residue(after, rate, at) - Slack(rate, i)
      {
        LeadAfter(rate, a, b, at, i);
      }
    }
  }

  /** What the lead over admission i may fall short of the residue. */
  ghost function Slack(rate: int, i: int): int {
    if i == 0 then 0 else MINUTE + rate - 1
  }

  lemma ResidueOfAnchor(b: Bucket, c: Bucket, rate: int, at: int)
    requires b.anchor == c.anchor
    ensures Residue(b, rate, at) == Residue(c, rate, at)
  {
  }

  lemma LeadAfter(rate: int, a: seq<int>, b: Bucket, at: int, i: int)
    requires 0 < rate && a != [] && Ledger(rate, a, b) && 0 <= i <= |a| && a[|a| - 1] <= at
    requires Credits(b, rate, at)
    ensures Lead(rate, a + [at], i) >= Residue(Refill(b, rate, at), rate, at) - Slack(rate, i)
  {
    if i < |a| {
      LeadKeeps(rate, a, b, at, i);
    } else {
      CreditStep(b, rate, at);
      LeadOfLast(rate, a + [at]);
    }
  }

  lemma LeadOfLast(rate: int, a: seq<int>)
    requires 0 < rate && a != []
    ensures Lead(rate, a, |a| - 1) == 0
  {
  }

  /** The lead never falls behind the residue: both lose the time a token stands for. */
  lemma LeadKeeps(rate: int, a: seq<int>, b: Bucket, at: int, i: int)
    requires 0 < rate && Ledger(rate, a, b) && 0 <= i < |a| && a[|a| - 1] <= at
    requires Credits(b, rate, at)
    ensures Lead(rate, a + [at], i) - Residue(Refill(b, rate, at), rate, at)
         >= Lead(rate, a, i) - Residue(b, rate, a[|a| - 1])
  {
    var b' := Refill(b, rate, at);
    LeadGrows(rate, a, at, i);
    ResidueGrows(b, rate, a[|a| - 1], at);
    CreditStep(b, rate, at);
    MulLe(PerToken(rate), b'.anchor - b.anchor, rate);
  }

  /** The ledger in plain nanoseconds: the latest admission against any earlier one. */
  lemma LedgerSpacing(rate: int, a: seq<int>, b: Bucket, i: int)
    requires 0 < rate && Ledger(rate, a, b)
    requires 0 <= i < |a| - 1
    ensures a[|a| - 1] - a[i] >= (|a| - 1 - i - 1) * PerToken(rate) - 1
    ensures i == 0 ==> a[|a| - 1] - a[0] >= (|a| - 1) * PerToken(rate)
  {
    PerTokenBounds(rate);
    SpacingArith(a[|a| - 1] - a[i], |a| - 1 - i, PerToken(rate), rate, Lead(rate, a, i));
  }

  lemma SpacingArith(d: int, n: int, p: int, rate: int, lead: int)
    requires 0 < rate && 0 <= p && 1 <= n
    requires MINUTE < p * rate + rate
    requires lead == d * rate - n * (p * rate)
    ensures 0 <= lead ==> n * p <= d
    ensures 1 - MINUTE - rate <= lead ==> (n - 1) * p - 1 <= d
  {
    assert n * (p * rate) == (n * p) * rate;
    MulAdd(n, 1, p);
    if 0 <= lead {
      MulCancel(n * p, d, rate);
    }
    if 1 - MINUTE - rate <= lead {
      MulAdd(n * p, p, rate);
      MulAdd(d, 1, rate);
      MulCancel(n * p - p, d + 1, rate);
    }
  }

  // ----- The gap after one admission -----

  /** Every later instant that finds a token is at least a token time after t. */
  ghost predicate GapKept(b: Bucket, rate: int, t: int)
    requires 0 < rate
  {
    forall u :: t <= u && Credits(b, rate, u) ==> u - t >= PerToken(rate)
  }

  /** Pairwise spacing, exactly: after an admission at t the next token is at least a
      token time away if and only if the time left unspent by the anchor is worth less
      than a nanosecond of refill and the rounding of the token time. */
  lemma GapIff(b: Bucket, rate: int, t: int)
    requires 0 < rate && b.tokens == 0 && 0 <= Residue(b, rate, t) < MINUTE + rate
    ensures GapKept(b, rate, t) <==> Residue(b, rate, t) < rate + MINUTE % rate
  {
    var p := PerToken(rate);
    assert MINUTE == p * rate + MINUTE % rate;
    if Residue(b, rate, t) < rate + MINUTE % rate {
      forall u | t <= u < t + p ensures !Credits(b, rate, u) { NoTokenYet(b, rate, t, u); }
    } else {
      PerTokenPositive(rate);
      TokenTooSoon(b, rate, t);
      assert t + p - 1 - t < p;
    }
  }

  lemma NoTokenYet(b: Bucket, rate: int, t: int, u: int)
    requires 0 < rate && b.tokens == 0 && t <= u < t + PerToken(rate)
    requires 0 <= Residue(b, rate, t) < rate + MINUTE % rate
    ensures !Credits(b, rate, u)
  {
    var p := PerToken(rate);
    assert MINUTE == p * rate + MINUTE % rate;
    ResidueGrows(b, rate, t, u);
    MulLe(u - t, p - 1, rate);
    MulAdd(p, 1, rate);
    CreditsStored(b, rate, u);
  }

  lemma TokenTooSoon(b: Bucket, rate: int, t: int)
    requires 0 < rate && b.tokens == 0 && 1 <= PerToken(rate)
    requires rate + MINUTE % rate <= Residue(b, rate, t) < MINUTE + rate
    ensures Credits(b, rate, t + PerToken(rate) - 1)
  {
    var p := PerToken(rate);
    assert MINUTE == p * rate + MINUTE % rate;
    var x, y := (t - b.anchor) * rate, (p - 1) * rate;
    assert (t + p - 1 - b.anchor) * rate == x + y by { MulAdd(t - b.anchor, p - 1, rate); }
    assert y == p * rate - rate by { MulAdd(p, 1, rate); }
    assert 0 <= y by { MulLe(0, p - 1, rate); }
    PerTokenPositive(rate);
    WrapShift(x, -y);
    CreditsStored(b, rate, t + p - 1);
  }

  /** The same in plain nanoseconds, while the product fits 64 bits. */
  lemma GapInTime(b: Bucket, rate: int, t: int)
    requires 0 < rate && b.tokens == 0 && 0 <= (t - b.anchor) * rate < MINUTE + rate < TWO_63
    ensures GapKept(b, rate, t) <==> t - b.anchor <= (if MINUTE % rate == 0 then 0 else 1)
  {
    GapIff(b, rate, t);
    var e, rem := t - b.anchor, MINUTE % rate;
    if e <= 0 { MulLe(e, 0, rate); }
    if e == 1 { assert e * rate == rate; }
    if e >= 2 { MulLe(2, e, rate); }
  }

  // ----- Timers -----

  /** A rate-blocked waiter always gets a timer, of at most one token's time,
      exactly when the rate is at most one token per nanosecond. */
  lemma ArmedWait(b: Bucket, rate: int, at: int)
    requires 0 < rate && b.tokens == 0 && b.anchor <= at
    requires !Credits(b, rate, at)
    ensures rate <= MINUTE ==> 0 < Wait(b, rate, at) <= PerToken(rate)
    ensures rate > MINUTE ==> Wait(b, rate, at) == 0
  {
    assert Earned(b, rate, at) <= 0;
    PerTokenPositive(rate);
    BlockedProduct(b, rate, at);
  }

  lemma PerTokenPositive(rate: int)
    requires 0 < rate
    ensures 0 <= PerToken(rate)
    ensures rate <= MINUTE <==> 1 <= PerToken(rate)
  {
    PerTokenRange(rate);
    PerTokenBounds(rate);
    if rate <= MINUTE { DivMonotone(rate, MINUTE, rate); }
    if 1 <= PerToken(rate) { MulLe(1, PerToken(rate), rate); }
  }

  lemma BlockedProduct(b: Bucket, rate: int, at: int)
    requires 0 < rate && Earned(b, rate, at) <= 0
    ensures var x := (Earned(b, rate, at) + 1) * PerToken(rate);
            Wrap64(x) == x <= PerToken(rate)
  {
    assert 0 <= PerToken(rate) <= MINUTE by { PerTokenRange(rate); }
    var e := Earned(b, rate, at);
    assert -TWO_63 <= e * MINUTE by { QuoBound(Wrap64((at - b.anchor) * rate)); }
    SmallProduct(e, PerToken(rate));
  }

  lemma PerTokenRange(rate: int)
    requires 0 < rate
    ensures 0 <= PerToken(rate) <= MINUTE
  {
    DivMonotone(0, MINUTE, rate);
    PerTokenBounds(rate);
    MulLe(1, rate, PerToken(rate));
  }

  lemma QuoBound(u: int)
    requires -TWO_63 <= u
    ensures -TWO_63 <= Quo(u, MINUTE) * MINUTE
  {
  }

  lemma SmallProduct(e: int, p: int)
    requires e <= 0 <= p <= MINUTE && -TWO_63 <= e * MINUTE
    ensures -TWO_63 <= (e + 1) * p <= p
  {
    MulLe(e + 1, 1, p);
    if e < 0 {
      MulLe(p, MINUTE, -e - 1);
    }
  }

  /** A credit needs a whole token's worth of time, and that is enough while the
      product still fits 64 bits. */
  lemma CreditsExactly(b: Bucket, rate: int, at: int)
    requires 0 < rate && b.tokens == 0 && b.anchor <= at
    requires (at - b.anchor) * rate < TWO_63
    ensures Credits(b, rate, at) <==> MINUTE <= (at - b.anchor) * rate
  {
    MulLe(0, at - b.anchor, rate);
    assert Residue(b, rate, at) == (at - b.anchor) * rate;
    if Credits(b, rate, at) {
      var u, e, adv := CreditShape(b, rate, at);
    }
  }

  /** An attempt finds a token exactly when a whole token's time has passed since the
      anchor, if and only if the elapsed time scaled by the rate fits 64 bits or happens
      to be stored as a token's worth or more. */
  lemma CreditsRightIff(b: Bucket, rate: int, at: int)
    requires 0 < rate && b.tokens == 0 && b.anchor <= at
    ensures var product := (at - b.anchor) * rate;
            (Credits(b, rate, at) <==> MINUTE <= product) <==> (product < TWO_63 || Wrap64(product) >= MINUTE)
  {
    MulLe(0, at - b.anchor, rate);
    CreditsStored(b, rate, at);
  }

  /** A credit is decided by the stored product alone. */
  lemma CreditsStored(b: Bucket, rate: int, at: int)
    requires 0 < rate && b.tokens == 0
    ensures Credits(b, rate, at) <==> MINUTE <= Residue(b, rate, at)
  {
    var u := Residue(b, rate, at);
    if MINUTE <= u {
      assert Earned(b, rate, at) == u / MINUTE;
      DivMonotone(MINUTE, u, MINUTE);
    } else if 0 <= u {
      assert Earned(b, rate, at) == 0;
    }
  }

  /** The overflow is real: 107 days after an admission, a gate at 1000 per minute
      finds no token although far more than one was earned. */
  lemma LongIdleStarves()
    ensures var b := Bucket(0, 0);
            var at := 107 * 24 * 60 * MINUTE;
            && at * 1000 >= 1_000_000 * MINUTE
            && !Credits(b, 1000, at)
  {
    var at := 107 * 24 * 60 * MINUTE;
    assert Wrap64(at * 1000) < 0;
  }

  /** Where a blocked waiter's timer points: never past one truncated token after
      the anchor unless it is already there. */
  lemma FirstWait(b: Bucket, rate: int, at: int) returns (elapsed: int)
    requires 0 < rate <= MINUTE && b.tokens == 0 && b.anchor <= at
    requires (at - b.anchor) * rate < TWO_63 && !Credits(b, rate, at)
    ensures elapsed == at - b.anchor && 0 <= elapsed <= PerToken(rate) && 1 <= PerToken(rate)
    ensures 0 <= elapsed * rate < MINUTE
    ensures Wait(b, rate, at)
         == if elapsed < PerToken(rate) then PerToken(rate) - elapsed else PerToken(rate)
  {
    elapsed := at - b.anchor;
    PerTokenBounds(rate);
    MulCancel(1, PerToken(rate), rate);
    CreditsExactly(b, rate, at);
    MulLe(0, elapsed, rate);
    MulCancel(elapsed, PerToken(rate), rate);
    EarlyWait(b, rate, at);
  }

  /** While a blocked waiter sleeps, the stored product grows with the time. */
  lemma SleepResidue(b: Bucket, rate: int, at: int, d: int)
    requires 0 < rate && b.tokens == 0 && !Credits(b, rate, at) && 0 <= d <= 2 * PerToken(rate)
    ensures Residue(b, rate, at + d) == Residue(b, rate, at) + d * rate
    ensures Credits(b, rate, at + d) <==> MINUTE <= Residue(b, rate, at) + d * rate
  {
    var x, y := (at - b.anchor) * rate, d * rate;
    assert (at + d - b.anchor) * rate == x + y by { MulAdd(at - b.anchor, d, rate); }
    PerTokenBounds(rate);
    MulLe(0, d, rate);
    MulLe(d, 2 * PerToken(rate), rate);
    MulTwice(PerToken(rate), rate);
    CreditsStored(b, rate, at);
    CreditsStored(b, rate, at + d);
    WrapShift(x, -y);
  }

  lemma MulTwice(p: int, rate: int)
    ensures (2 * p) * rate == p * rate + p * rate
  {
  }

  /** Past 64 bits a blocked waiter always sleeps a whole token. */
  lemma LateWait(b: Bucket, rate: int, at: int)
    requires 0 < rate <= MINUTE && b.tokens == 0 && !Credits(b, rate, at)
    requires PerToken(rate) <= at - b.anchor
    ensures Wait(b, rate, at) == PerToken(rate) >= 1
  {
    assert Earned(b, rate, at) <= 0;
    BlockedProduct(b, rate, at);
    PerTokenPositive(rate);
  }

  /** An elapsed time whose product has left 64 bits is longer than any token's. */
  lemma PastRange(elapsed: int, rate: int)
    requires 0 < rate && TWO_63 <= elapsed * rate
    ensures PerToken(rate) < elapsed
  {
    PerTokenBounds(rate);
    if elapsed <= PerToken(rate) { MulLe(elapsed, PerToken(rate), rate); }
  }

  /** The timer set at `at` fires at the first instant that credits a token. */
  ghost predicate FiresOnTime(b: Bucket, rate: int, at: int) {
    && Credits(b, rate, at + Wait(b, rate, at))
    && forall t :: at <= t < at + Wait(b, rate, at) ==> !Credits(b, rate, t)
  }

  /** On time, in terms of the stored product: the last nanosecond of the wait makes up
      the token. */
  lemma OnTimeStored(b: Bucket, rate: int, at: int)
    requires 0 < rate <= MINUTE && b.tokens == 0 && b.anchor <= at && !Credits(b, rate, at)
    ensures var r, w := Residue(b, rate, at), Wait(b, rate, at);
            FiresOnTime(b, rate, at) <==> r + (w - 1) * rate < MINUTE <= r + w * rate
  {
    var r, w := Residue(b, rate, at), Wait(b, rate, at);
    ArmedWait(b, rate, at);
    SleepResidue(b, rate, at, w);
    SleepResidue(b, rate, at, w - 1);
    if r + (w - 1) * rate < MINUTE {
      forall t | at <= t < at + w ensures !Credits(b, rate, t) { NotBefore(b, rate, at, w - 1, t - at); }
    } else {
      assert Credits(b, rate, at + (w - 1));
    }
  }

  /** A waiter still blocked after `last` nanoseconds was blocked all the time. */
  lemma NotBefore(b: Bucket, rate: int, at: int, last: int, d: int)
    requires 0 < rate && b.tokens == 0 && !Credits(b, rate, at) && 0 <= d <= last <= 2 * PerToken(rate)
    requires Residue(b, rate, at) + last * rate < MINUTE
    ensures !Credits(b, rate, at + d)
  {
    SleepResidue(b, rate, at, d);
    MulLe(d, last, rate);
  }

  /** Exactly when the timer of a rate-blocked waiter fires at the first crediting
      instant. While the product fits 64 bits: if the rate divides a minute, or a token
      takes one nanosecond and that one has passed. Past it: if the stored product lies
      in the one window a whole token's sleep completes. */
  lemma WakeInstantIff(b: Bucket, rate: int, at: int)
    requires 0 < rate <= MINUTE && b.tokens == 0 && b.anchor <= at && !Credits(b, rate, at)
    ensures FiresOnTime(b, rate, at) <==>
              if (at - b.anchor) * rate < TWO_63
              then MINUTE % rate == 0 || at - b.anchor == PerToken(rate) == 1
              else MINUTE % rate <= Residue(b, rate, at) < rate + MINUTE % rate
  {
    OnTimeStored(b, rate, at);
    if (at - b.anchor) * rate < TWO_63 {
      OnTimeInRange(b, rate, at);
    } else {
      OnTimePastRange(b, rate, at);
    }
  }

  lemma OnTimePastRange(b: Bucket, rate: int, at: int)
    requires 0 < rate <= MINUTE && b.tokens == 0 && !Credits(b, rate, at)
    requires TWO_63 <= (at - b.anchor) * rate
    ensures var r, w := Residue(b, rate, at), Wait(b, rate, at);
            r + (w - 1) * rate < MINUTE <= r + w * rate
            <==> MINUTE % rate <= r < rate + MINUTE % rate
  {
    PastRange(at - b.anchor, rate);
    LateWait(b, rate, at);
    LastNanosecond(PerToken(rate), rate);
  }

  lemma LastNanosecond(p: int, rate: int)
    requires 0 < rate && p == PerToken(rate)
    ensures p * rate == MINUTE - MINUTE % rate && (p - 1) * rate == MINUTE - MINUTE % rate - rate
  {
    MulAdd(p, 1, rate);
  }

  lemma OnTimeInRange(b: Bucket, rate: int, at: int)
    requires 0 < rate <= MINUTE && b.tokens == 0 && b.anchor <= at && !Credits(b, rate, at)
    requires (at - b.anchor) * rate < TWO_63
    ensures var r, w := Residue(b, rate, at), Wait(b, rate, at);
            r + (w - 1) * rate < MINUTE <= r + w * rate
            <==> MINUTE % rate == 0 || at - b.anchor == PerToken(rate) == 1
  {
    var p, w := PerToken(rate), Wait(b, rate, at);
    var elapsed := FirstWait(b, rate, at);
    assert MINUTE == p * rate + MINUTE % rate;
    assert Residue(b, rate, at) == elapsed * rate;
    MulAdd(elapsed, w, rate);
    MulAdd(w, 1, rate);
    if elapsed == p {
      assert MINUTE % rate != 0;
      MulLe(1, p, rate);
      if 2 <= p { MulLe(2, p, rate); }
    }
  }

  /** Exactly when the first on-time wakeup, and when one of the first two, finds a token
      nobody else took. */
  lemma TwoWakesIff(b: Bucket, rate: int, at: int)
    requires 0 < rate <= MINUTE && b.tokens == 0 && b.anchor <= at && !Credits(b, rate, at)
    ensures var r, fits := Residue(b, rate, at), (at - b.anchor) * rate < TWO_63;
            var wake := at + Wait(b, rate, at);
            && (Credits(b, rate, wake) <==>
                  if fits then MINUTE % rate == 0 || at - b.anchor == PerToken(rate)
                  else r >= MINUTE - PerToken(rate) * rate)
            && (Credits(b, rate, wake) || Credits(b, rate, wake + Wait(b, rate, wake)) <==>
                  fits || r >= MINUTE - (2 * PerToken(rate)) * rate)
  {
    if (at - b.anchor) * rate < TWO_63 {
      TwoWakesInRange(b, rate, at);
    } else {
      TwoWakesPastRange(b, rate, at);
    }
  }

  lemma TwoWakesPastRange(b: Bucket, rate: int, at: int)
    requires 0 < rate <= MINUTE && b.tokens == 0 && !Credits(b, rate, at)
    requires TWO_63 <= (at - b.anchor) * rate
    ensures var r, p, wake := Residue(b, rate, at), PerToken(rate), at + Wait(b, rate, at);
            && (Credits(b, rate, wake) <==> r >= MINUTE - p * rate)
            && (Credits(b, rate, wake) || Credits(b, rate, wake + Wait(b, rate, wake)) <==>
                  r >= MINUTE - (2 * p) * rate)
  {
    var p := PerToken(rate);
    PastRange(at - b.anchor, rate);
    LateWait(b, rate, at);
    SleepResidue(b, rate, at, p);
    SleepResidue(b, rate, at, 2 * p);
    MulTwice(p, rate);
    MulLe(0, p, rate);
    if !Credits(b, rate, at + p) { LateWait(b, rate, at + p); }
  }

  lemma TwoWakesInRange(b: Bucket, rate: int, at: int)
    requires 0 < rate <= MINUTE && b.tokens == 0 && b.anchor <= at
    requires (at - b.anchor) * rate < TWO_63 && !Credits(b, rate, at)
    ensures var wake := at + Wait(b, rate, at);
            && (Credits(b, rate, wake) || Credits(b, rate, wake + Wait(b, rate, wake)))
            && (Credits(b, rate, wake) <==>
                  MINUTE % rate == 0 || at - b.anchor == PerToken(rate))
  {
    var elapsed := FirstWait(b, rate, at);
    TwoTokensCredit(b, rate);
    if elapsed < PerToken(rate) {
      FirstInstant(b, rate);
      SecondWake(b, rate);
    }
  }

  /** After the long idle time neither the first nor the second wakeup finds a token. */
  lemma LongIdleSleepsOn()
    ensures var b, at := Bucket(0, 0), 107 * 24 * 60 * MINUTE;
            var wake := at + Wait(b, 1000, at);
            !Credits(b, 1000, wake) && !Credits(b, 1000, wake + Wait(b, 1000, wake))
  {
    var b, at := Bucket(0, 0), 107 * 24 * 60 * MINUTE;
    LongIdleStarves();
    assert PerToken(1000) == MINUTE / 1000;
    assert Residue(b, 1000, at) < -MINUTE;
    TwoWakesIff(b, 1000, at);
  }

  /** At seven per minute, which does not divide one, the timer set at an admission fires
      a nanosecond before the token is there. */
  lemma TimerTooEarly()
    ensures var b := Bucket(0, 0);
            var wake := 0 + Wait(b, 7, 0);
            !Credits(b, 7, wake) && Credits(b, 7, wake + 1) && !FiresOnTime(b, 7, 0)
  {
    var b := Bucket(0, 0);
    assert !Credits(b, 7, 0);
    EarlyWait(b, 7, 0);
    var p := PerToken(7);
    assert p == 8_571_428_571;
    CreditsExactly(b, 7, p);
    CreditsExactly(b, 7, p + 1);
  }

  /** Blocked one truncated token after the anchor, the waiter sleeps another one. */
  lemma SecondWake(b: Bucket, rate: int)
    requires 0 < rate <= MINUTE && b.tokens == 0
    ensures var at := b.anchor + PerToken(rate);
            Credits(b, rate, at) || Wait(b, rate, at) == PerToken(rate)
  {
    var at := b.anchor + PerToken(rate);
    PerTokenBounds(rate);
    PerTokenPositive(rate);
    if !Credits(b, rate, at) {
      var again := FirstWait(b, rate, at);
    }
  }

  lemma FirstInstant(b: Bucket, rate: int)
    requires 0 < rate <= MINUTE && b.tokens == 0
    ensures Credits(b, rate, b.anchor + PerToken(rate)) <==> MINUTE % rate == 0
  {
    var p := PerToken(rate);
    PerTokenBounds(rate);
    assert 1 <= p by { MulCancel(1, p, rate); }
    assert MINUTE == p * rate + MINUTE % rate;
    CreditsExactly(b, rate, b.anchor + p);
  }

  /** With less than a token earned, the wait reaches to one truncated token after
      the anchor, or a whole token when that instant is already here. */
  lemma EarlyWait(b: Bucket, rate: int, at: int)
    requires 0 < rate <= MINUTE && b.tokens == 0 && b.anchor <= at
    requires 0 <= (at - b.anchor) * rate < MINUTE
    ensures var p := PerToken(rate);
            Wait(b, rate, at) == if at - b.anchor < p then p - (at - b.anchor) else p
  {
    assert Earned(b, rate, at) == 0;
    BlockedProduct(b, rate, at);
  }

  lemma TwoTokensCredit(b: Bucket, rate: int)
    requires 0 < rate <= MINUTE && b.tokens == 0
    ensures Credits(b, rate, b.anchor + 2 * PerToken(rate))
  {
    var p := PerToken(rate);
    PerTokenBounds(rate);
    assert 1 <= p by { MulCancel(1, p, rate); }
    assert (2 * p) * rate == p * rate + p * rate;
    assert MINUTE <= (2 * p) * rate by { MulLe(1, p, rate); }
    CreditsExactly(b, rate, b.anchor + 2 * p);
  }
}
