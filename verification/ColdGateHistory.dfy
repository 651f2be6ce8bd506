/** Whole runs of one gate: what its state and its decisions are as functions of the
    complete history of locked events. `prunes` chooses between the gate as written
    and an ideal one that keeps every session forever. */
module ColdGateHistory {
  import opened GoInts
  import opened TokenBucket
  import opened ColdGate

  datatype Event =
    | Attempt(session: string, estimate: int, budget: int, at: int)
    | Freed(estimate: int)

  /** One request let in: who, when, and whether it was charged. */
  datatype Admission = Admission(session: string, at: int, cold: bool)

  type History = seq<Event>

  function Prepared(st: Settings, prunes: bool, g: Gate, at: int): Gate
    requires st.Valid()
  {
    if prunes then Prune(g, st, at) else g
  }

  function Decide(st: Settings, prunes: bool, g: Gate, e: Event): (Gate, Verdict)
    requires st.Valid() && e.Attempt?
  {
    TryAdmit(Prepared(st, prunes, g, e.at), st, e.budget, e.session, e.estimate, e.at)
  }

  function Step(st: Settings, prunes: bool, g: Gate, e: Event): Gate
    requires st.Valid()
  {
    match e
    case Attempt(_, _, _, _) => Decide(st, prunes, g, e).0
    case Freed(estimate) => Free(g, estimate)
  }

  function After(st: Settings, prunes: bool, start: int, h: History): Gate
    requires st.Valid()
  {
    if h == [] then Initial(start)
    else Step(st, prunes, After(st, prunes, start, Front(h)), h[|h| - 1])
  }

  function Front(h: History): History
    requires h != []
  {
    h[..|h| - 1]
  }

  /** The verdict the last event of `h` received. */
  function LastVerdict(st: Settings, prunes: bool, start: int, h: History): Verdict
    requires st.Valid() && h != [] && h[|h| - 1].Attempt?
  {
    Decide(st, prunes, After(st, prunes, start, Front(h)), h[|h| - 1]).1
  }

  function Admissions(st: Settings, prunes: bool, start: int, h: History): seq<Admission>
    requires st.Valid()
  {
    if h == [] then []
    else
      var e := h[|h| - 1];
      var before := Admissions(st, prunes, start, Front(h));
      if e.Attempt? && LastVerdict(st, prunes, start, h).Admitted() then
        before + [Admission(e.session, e.at, LastVerdict(st, prunes, start, h).Cold?)]
      else before
  }

  /** The instants of the charged admissions. */
  function ColdTimes(a: seq<Admission>): seq<int> {
    if a == [] then []
    else if a[|a| - 1].cold then ColdTimes(a[..|a| - 1]) + [a[|a| - 1].at]
    else ColdTimes(a[..|a| - 1])
  }

  /** The latest clock reading. */
  function Now(start: int, h: History): int {
    if h == [] then start
    else if h[|h| - 1].Attempt? then h[|h| - 1].at
    else Now(start, Front(h))
  }

  /** Clock readings do not go back in the order the lock was taken. */
  predicate Ordered(start: int, h: History) {
    h == [] ||
    (Ordered(start, Front(h)) && (h[|h| - 1].Attempt? ==> Now(start, Front(h)) <= h[|h| - 1].at))
  }

  /** The reference meaning of "warm": somebody with this id got in less than a
      window ago. */
  ghost predicate RecentlyAdmitted(a: seq<Admission>, session: string, at: int, window: int) {
    session != "" &&
    exists k :: 0 <= k < |a| && a[k].session == session && at - a[k].at < window
  }

  // ----- Warm or cold -----

  /** What the session map records about the admissions so far. */
  ghost predicate Remembers(st: Settings, g: Gate, a: seq<Admission>, now: int) {
    && (g.lastPrune.Some? ==> g.lastPrune.value <= now)
    && (forall id :: id in g.seen ==>
          id != "" && exists k :: 0 <= k < |a| && a[k].session == id && a[k].at == g.seen[id])
    && (forall k :: 0 <= k < |a| ==>
          && a[k].at <= now
          && (a[k].session != "" ==>
                || (a[k].session in g.seen && a[k].at <= g.seen[a[k].session])
                || (g.lastPrune.Some? && g.lastPrune.value - a[k].at >= st.window)))
  }

  lemma PruneRemembers(st: Settings, prunes: bool, g: Gate, a: seq<Admission>, now: int, at: int)
    requires st.Valid() && Remembers(st, g, a, now) && now <= at
    ensures Remembers(st, Prepared(st, prunes, g, at), a, at)
  {
    var g' := Prepared(st, prunes, g, at);
    forall k | 0 <= k < |a| && a[k].session != ""
      ensures || (a[k].session in g'.seen && a[k].at <= g'.seen[a[k].session])
              || (g'.lastPrune.Some? && g'.lastPrune.value - a[k].at >= st.window)
    {
    }
  }

  /** A gate that remembers classifies exactly by history. */
  lemma WarmExactly(st: Settings, g: Gate, a: seq<Admission>, session: string, at: int)
    requires Remembers(st, g, a, at)
    ensures IsWarm(g, st, session, at) <==> RecentlyAdmitted(a, session, at, st.window)
  {
    if IsWarm(g, st, session, at) {
      var k :| 0 <= k < |a| && a[k].session == session && a[k].at == g.seen[session];
    }
  }

  lemma {:induction false} HistoryRemembered(st: Settings, prunes: bool, start: int, h: History)
    requires st.Valid() && Ordered(start, h)
    ensures Remembers(st, After(st, prunes, start, h), Admissions(st, prunes, start, h), Now(start, h))
  {
    if h != [] {
      HistoryRemembered(st, prunes, start, Front(h));
      var e := h[|h| - 1];
      if e.Attempt? {
        var g := After(st, prunes, start, Front(h));
        var a := Admissions(st, prunes, start, Front(h));
        PruneRemembers(st, prunes, g, a, Now(start, Front(h)), e.at);
        AdmitRemembers(st, Prepared(st, prunes, g, e.at), a, e);
      }
    }
  }

  lemma AdmitRemembers(st: Settings, g: Gate, a: seq<Admission>, e: Event)
    requires e.Attempt? && Remembers(st, g, a, e.at)
    ensures var (g', v) := TryAdmit(g, st, e.budget, e.session, e.estimate, e.at);
            Remembers(st, g',
                      if v.Admitted() then a + [Admission(e.session, e.at, v.Cold?)] else a, e.at)
  {
    var (g', v) := TryAdmit(g, st, e.budget, e.session, e.estimate, e.at);
    if v.Admitted() {
      assert g'.seen == Mark(g.seen, e.session, e.at) && g'.lastPrune == g.lastPrune;
      MarkRemembers(st, g, g', a, Admission(e.session, e.at, v.Cold?));
    } else {
      assert g'.seen == g.seen && g'.lastPrune == g.lastPrune;
    }
  }

  lemma MarkRemembers(st: Settings, g: Gate, g': Gate, a: seq<Admission>, x: Admission)
    requires Remembers(st, g, a, x.at)
    requires g'.seen == Mark(g.seen, x.session, x.at) && g'.lastPrune == g.lastPrune
    ensures Remembers(st, g', a + [x], x.at)
  {
    var a' := a + [x];
    forall id | id in g'.seen
      ensures id != "" && exists k :: 0 <= k < |a'| && a'[k].session == id && a'[k].at == g'.seen[id]
    {
      if id == x.session {
        assert a'[|a|] == x;
      } else {
        var k :| 0 <= k < |a| && a[k].session == id && a[k].at == g.seen[id];
        assert a'[k] == a[k];
      }
    }
  }

  /** Every decision is the one the full history calls for. */
  lemma WarmByHistory(st: Settings, prunes: bool, start: int, h: History)
    requires st.Valid() && Ordered(start, h) && h != [] && h[|h| - 1].Attempt?
    ensures var e := h[|h| - 1];
            LastVerdict(st, prunes, start, h) == Warm <==>
            RecentlyAdmitted(Admissions(st, prunes, start, Front(h)), e.session, e.at, st.window)
  {
    var e := h[|h| - 1];
    var g := After(st, prunes, start, Front(h));
    var a := Admissions(st, prunes, start, Front(h));
    HistoryRemembered(st, prunes, start, Front(h));
    PruneRemembers(st, prunes, g, a, Now(start, Front(h)), e.at);
    WarmExactly(st, Prepared(st, prunes, g, e.at), a, e.session, e.at);
  }

  /** Deferred pruning is invisible: on every run the gate admits, charges, counts and
      refills exactly as one that never forgets a session. */
  lemma {:induction false} PruningInvisible(st: Settings, start: int, h: History)
    requires st.Valid() && Ordered(start, h)
    ensures Admissions(st, true, start, h) == Admissions(st, false, start, h)
    ensures var pruned, ideal := After(st, true, start, h), After(st, false, start, h);
            pruned.inFlight == ideal.inFlight && pruned.bucket == ideal.bucket
    ensures h != [] && h[|h| - 1].Attempt? ==>
              LastVerdict(st, true, start, h) == LastVerdict(st, false, start, h)
  {
    if h != [] {
      PruningInvisible(st, start, Front(h));
      if h[|h| - 1].Attempt? {
        WarmByHistory(st, true, start, h);
        WarmByHistory(st, false, start, h);
      }
    }
  }

  // ----- Spacing of charged admissions -----

  lemma AttemptLedger(st: Settings, prunes: bool, g: Gate, e: Event, cold: seq<int>)
    requires st.Valid() && st.rate > 0 && e.Attempt?
    requires Ledger(st.rate, cold, g.bucket) && g.bucket.anchor <= e.at
    requires cold != [] ==> cold[|cold| - 1] <= e.at
    ensures var (g', v) := Decide(st, prunes, g, e);
            && Ledger(st.rate, if v.Cold? then cold + [e.at] else cold, g'.bucket)
            && g'.bucket.anchor <= e.at
  {
    var b := g.bucket;
    if Decide(st, prunes, g, e).1.Cold? {
      LedgerTake(st.rate, cold, b, e.at);
    } else if Decide(st, prunes, g, e).1.OverRate? {
      assert Refill(b, st.rate, e.at) == b;
    }
  }

  lemma ColdTimesSnoc(a: seq<Admission>, x: Admission)
    ensures ColdTimes(a + [x]) == if x.cold then ColdTimes(a) + [x.at] else ColdTimes(a)
  {
    assert (a + [x])[..|a|] == a;
  }

  lemma {:induction false} BucketLedger(st: Settings, prunes: bool, start: int, h: History)
    requires st.Valid() && st.rate > 0 && Ordered(start, h)
    ensures var cold := ColdTimes(Admissions(st, prunes, start, h));
            var b := After(st, prunes, start, h).bucket;
            && Ledger(st.rate, cold, b)
            && b.anchor <= Now(start, h)
            && (cold != [] ==> cold[|cold| - 1] <= Now(start, h))
  {
    if h != [] {
      BucketLedger(st, prunes, start, Front(h));
      var e := h[|h| - 1];
      if e.Attempt? {
        var before := Admissions(st, prunes, start, Front(h));
        AttemptLedger(st, prunes, After(st, prunes, start, Front(h)), e, ColdTimes(before));
        ColdTimesSnoc(before, Admission(e.session, e.at, true));
        ColdTimesSnoc(before, Admission(e.session, e.at, false));
      }
    }
  }

  /** For every run: the n-th charged admission comes at least n-1 token times after
      the first, and any n consecutive ones span at least n-2 token times less a
      nanosecond. Pairwise spacing by a token time is not promised. */
  lemma {:induction false} ColdSpacing(
      st: Settings, prunes: bool, start: int, h: History, i: nat, j: nat)
    requires st.Valid() && st.rate > 0 && Ordered(start, h)
    requires i < j < |ColdTimes(Admissions(st, prunes, start, h))|
    ensures var cold := ColdTimes(Admissions(st, prunes, start, h));
            && cold[j] - cold[i] >= (j - i - 1) * PerToken(st.rate) - 1
            && (i == 0 ==> cold[j] - cold[0] >= j * PerToken(st.rate))
  {
    var all := Admissions(st, prunes, start, h);
    var cold := ColdTimes(all);
    if j == |cold| - 1 {
      BucketLedger(st, prunes, start, h);
      LedgerSpacing(st.rate, cold, After(st, prunes, start, h).bucket, i);
    } else {
      var before := Admissions(st, prunes, start, Front(h));
      assert all != before ==> all[..|all| - 1] == before;
      ColdSpacing(st, prunes, start, Front(h), i, j);
    }
  }

  /** Pairwise spacing really fails: at two per minute, charged admissions at 0 s, 59 s
      and 60 s all go through. */
  lemma SpacingIsNotPairwise() returns (h: History)
    ensures var st := Settings(DEFAULT_WINDOW, 2);
            && Ordered(0, h)
            && ColdTimes(Admissions(st, true, 0, h)) == [0] + [59 * SECOND] + [60 * SECOND]
            && 60 * SECOND - 59 * SECOND < PerToken(st.rate)
  {
    var st := Settings(DEFAULT_WINDOW, 2);
    h := [];
    KeylessAdmission(st, h, 0, Bucket(1, 0), []);
    assert [] + [0] == [0];
    h := h + [Attempt("", 1, 0, 0)];
    assert Refill(Bucket(0, 0), 2, 59 * SECOND) == Bucket(1, 30 * SECOND);
    KeylessAdmission(st, h, 59 * SECOND, Bucket(0, 0), [0]);
    h := h + [Attempt("", 1, 0, 59 * SECOND)];
    assert Refill(Bucket(0, 30 * SECOND), 2, 60 * SECOND) == Bucket(1, 60 * SECOND);
    KeylessAdmission(st, h, 60 * SECOND, Bucket(0, 30 * SECOND), [0] + [59 * SECOND]);
    h := h + [Attempt("", 1, 0, 60 * SECOND)];
  }

  /** A keyless attempt with no budget set: only the bucket decides. */
  lemma KeylessAdmission(st: Settings, h: History, at: int, b: Bucket, cold: seq<int>)
    requires st.Valid() && st.rate > 0 && Ordered(0, h) && Now(0, h) <= at
    requires After(st, true, 0, h).bucket == b && ColdTimes(Admissions(st, true, 0, h)) == cold
    requires Credits(b, st.rate, at)
    ensures var h' := h + [Attempt("", 1, 0, at)];
            && Ordered(0, h') && Now(0, h') == at
            && After(st, true, 0, h').bucket == Bucket(Refill(b, st.rate, at).tokens - 1, Refill(b, st.rate, at).anchor)
            && ColdTimes(Admissions(st, true, 0, h')) == cold + [at]
  {
    var h' := h + [Attempt("", 1, 0, at)];
    assert Front(h') == h;
    ColdTimesSnoc(Admissions(st, true, 0, h), Admission("", at, true));
  }

  // ----- The gap after one admission -----

  /** `e` is the next charged admission after the run h, with `more` in between. */
  ghost predicate NextCold(st: Settings, prunes: bool, start: int, h: History, more: History, e: Event)
    requires st.Valid()
  {
    && e.Attempt? && Ordered(start, h + more + [e])
    && ColdTimes(Admissions(st, prunes, start, h + more)) == ColdTimes(Admissions(st, prunes, start, h))
    && Decide(st, prunes, After(st, prunes, start, h + more), e).1.Cold?
  }

  /** However the run goes on, its next charged admission is at least a token time away. */
  ghost predicate NextIsSpaced(st: Settings, prunes: bool, start: int, h: History)
    requires st.Valid() && st.rate > 0
  {
    forall more, e :: NextCold(st, prunes, start, h, more, e) ==> e.at - Now(start, h) >= PerToken(st.rate)
  }

  lemma AfterSnoc(st: Settings, prunes: bool, start: int, h: History, e: Event)
    requires st.Valid()
    ensures After(st, prunes, start, h + [e]) == Step(st, prunes, After(st, prunes, start, h), e)
    ensures Admissions(st, prunes, start, h + [e])
         == Admissions(st, prunes, start, h) + AdmittedBy(st, prunes, After(st, prunes, start, h), e)
    ensures Ordered(start, h + [e]) <==> Ordered(start, h) && (e.Attempt? ==> Now(start, h) <= e.at)
    ensures Now(start, h + [e]) == if e.Attempt? then e.at else Now(start, h)
  {
    assert Front(h + [e]) == h;
  }

  /** What one event adds to the admissions. */
  function AdmittedBy(st: Settings, prunes: bool, g: Gate, e: Event): seq<Admission>
    requires st.Valid()
  {
    if e.Attempt? && Decide(st, prunes, g, e).1.Admitted()
    then [Admission(e.session, e.at, Decide(st, prunes, g, e).1.Cold?)] else []
  }

  lemma {:induction false} ColdTimesConcat(a: seq<Admission>, b: seq<Admission>)
    ensures |ColdTimes(a + b)| == |ColdTimes(a)| + |ColdTimes(b)|
  {
    if b == [] {
      assert a + b == a;
    } else {
      var n := |b| - 1;
      ColdTimesConcat(a, b[..n]);
      assert (a + b)[..|a + b| - 1] == a + b[..n];
    }
  }

  /** Until the next charged admission the bucket stays as it is. */
  lemma {:induction false} BucketStays(st: Settings, prunes: bool, start: int, h: History, more: History)
    requires st.Valid() && st.rate > 0 && After(st, prunes, start, h).bucket.tokens == 0
    ensures var a, b := Admissions(st, prunes, start, h), Admissions(st, prunes, start, h + more);
            && |ColdTimes(a)| <= |ColdTimes(b)|
            && (|ColdTimes(a)| == |ColdTimes(b)| ==>
                  After(st, prunes, start, h + more).bucket == After(st, prunes, start, h).bucket)
  {
    if more == [] {
      assert h + more == h;
    } else {
      var front, e := more[..|more| - 1], more[|more| - 1];
      BucketStays(st, prunes, start, h, front);
      assert h + more == h + front + [e];
      AfterSnoc(st, prunes, start, h + front, e);
      var g := After(st, prunes, start, h + front);
      ColdTimesConcat(Admissions(st, prunes, start, h + front), AdmittedBy(st, prunes, g, e));
      if e.Attempt? && g.bucket.tokens == 0 { OneCold(st, prunes, g, e); }
    }
  }

  /** From an empty bucket an attempt is charged or leaves the bucket alone. */
  lemma OneCold(st: Settings, prunes: bool, g: Gate, e: Event)
    requires st.Valid() && st.rate > 0 && e.Attempt? && g.bucket.tokens == 0
    ensures var (g', v) := Decide(st, prunes, g, e);
            && |ColdTimes(AdmittedBy(st, prunes, g, e))| == (if v.Cold? then 1 else 0)
            && (v.Cold? ==> Credits(g.bucket, st.rate, e.at))
            && (!v.Cold? ==> g'.bucket == g.bucket)
  {
    var x := AdmittedBy(st, prunes, g, e);
    assert x != [] ==> x[..0] == [];
  }

  /** An attempt nobody can refuse for anything but the rate. */
  lemma KeylessTakes(st: Settings, prunes: bool, g: Gate, at: int)
    requires st.Valid() && st.rate > 0 && Credits(g.bucket, st.rate, at)
    ensures Decide(st, prunes, g, Attempt("", 0, 0, at)).1.Cold?
  {
  }

  /** Pairwise spacing, exactly, on every run: right after a charged admission the next
      one is at least a token time away, however the run goes on, if and only if the time
      the bucket has left unspent is worth less than `rate + 60e9 % rate`. */
  lemma NextIsSpacedIff(st: Settings, prunes: bool, start: int, h: History)
    requires st.Valid() && st.rate > 0 && Ordered(start, h)
    requires h != [] && h[|h| - 1].Attempt? && LastVerdict(st, prunes, start, h).Cold?
    ensures var b := After(st, prunes, start, h).bucket;
            NextIsSpaced(st, prunes, start, h) <==>
            Residue(b, st.rate, Now(start, h)) < st.rate + MINUTE % st.rate
  {
    var b, t := After(st, prunes, start, h).bucket, Now(start, h);
    LastCold(st, prunes, start, h);
    GapIff(b, st.rate, t);
    if GapKept(b, st.rate, t) {
      forall more, e | NextCold(st, prunes, start, h, more, e) ensures e.at - t >= PerToken(st.rate) {
        NextFindsToken(st, prunes, start, h, more, e);
      }
    } else {
      var u :| t <= u && Credits(b, st.rate, u) && u - t < PerToken(st.rate);
      var e := Attempt("", 0, 0, u);
      assert h + [] == h;
      AfterSnoc(st, prunes, start, h, e);
      KeylessTakes(st, prunes, After(st, prunes, start, h), u);
      assert NextCold(st, prunes, start, h, [], e);
    }
  }

  lemma NextFindsToken(st: Settings, prunes: bool, start: int, h: History, more: History, e: Event)
    requires st.Valid() && st.rate > 0 && After(st, prunes, start, h).bucket.tokens == 0
    requires NextCold(st, prunes, start, h, more, e)
    ensures Now(start, h) <= e.at && Credits(After(st, prunes, start, h).bucket, st.rate, e.at)
  {
    BucketStays(st, prunes, start, h, more);
    OneCold(st, prunes, After(st, prunes, start, h + more), e);
    AfterSnoc(st, prunes, start, h + more, e);
    NowGrows(start, h, more);
  }

  lemma {:induction false} NowGrows(start: int, h: History, more: History)
    requires Ordered(start, h + more)
    ensures Ordered(start, h) && Now(start, h) <= Now(start, h + more)
  {
    if more == [] {
      assert h + more == h;
    } else {
      assert Front(h + more) == h + more[..|more| - 1];
      NowGrows(start, h, more[..|more| - 1]);
    }
  }

  /** After a charged admission the bucket is empty and its account is at that instant. */
  lemma LastCold(st: Settings, prunes: bool, start: int, h: History)
    requires st.Valid() && st.rate > 0 && Ordered(start, h)
    requires h != [] && h[|h| - 1].Attempt? && LastVerdict(st, prunes, start, h).Cold?
    ensures var b := After(st, prunes, start, h).bucket;
            b.tokens == 0 && 0 <= Residue(b, st.rate, Now(start, h)) < MINUTE + st.rate
  {
    var e := h[|h| - 1];
    var before := Admissions(st, prunes, start, Front(h));
    ColdTimesSnoc(before, Admission(e.session, e.at, true));
    BucketLedger(st, prunes, start, h);
  }

  // ----- Every verdict -----

  /** Another charge would take a positive budget over its limit while others are charged. */
  predicate NoRoom(inFlight: int, estimate: int, budget: int) {
    0 < inFlight && 0 < budget < inFlight + estimate
  }

  /** The bucket yields a token at this instant: nobody has been charged yet, or the time
      since the anchor is stored as a minute's worth. */
  ghost predicate TokenThere(st: Settings, prunes: bool, start: int, h: History, at: int)
    requires st.Valid()
  {
    || ColdTimes(Admissions(st, prunes, start, h)) == []
    || 60_000_000_000 <= Residue(After(st, prunes, start, h).bucket, st.rate, at)
  }

  /** On every run the verdict of an attempt follows from the history alone: warm if the id
      was admitted inside the window; else over budget if there is no room; else over the
      rate if there is one and no token; else cold. And only a cold one is counted. */
  lemma VerdictExactly(st: Settings, prunes: bool, start: int, h: History, e: Event)
    requires st.Valid() && e.Attempt? && Ordered(start, h + [e])
    ensures var g := After(st, prunes, start, h);
            var recent := RecentlyAdmitted(Admissions(st, prunes, start, h), e.session, e.at, st.window);
            var (g', v) := Decide(st, prunes, g, e);
            && v == (if recent then Warm
                     else if NoRoom(g.inFlight, e.estimate, e.budget) then OverBudget
                     else if 0 < st.rate && !TokenThere(st, prunes, start, h, e.at) then OverRate
                     else Cold)
            && g'.inFlight == g.inFlight + if v == Cold then e.estimate else 0
  {
    var b := After(st, prunes, start, h).bucket;
    assert Front(h + [e]) == h;
    WarmByHistory(st, prunes, start, h + [e]);
    if 0 < st.rate {
      BucketLedger(st, prunes, start, h);
      if b.tokens == 0 { CreditsStored(b, st.rate, e.at); }
    }
  }

  // ----- The session map stays small -----

  /** How often the map is walked: an eighth of the window, at least a second. */
  function WalkInterval(window: int): int {
    if window / 8 < 1_000_000_000 then 1_000_000_000 else window / 8
  }

  /** The latest walk is recent, and left nothing older than the window. */
  ghost predicate Walked(st: Settings, g: Gate, now: int) {
    && (g.lastPrune == None ==> g.seen == map[])
    && (g.lastPrune.Some? ==>
          && g.lastPrune.value <= now
          && forall id :: id in g.seen ==> g.lastPrune.value - g.seen[id] < st.window)
  }

  lemma WalkedAttempt(st: Settings, g: Gate, now: int, e: Event)
    requires st.Valid() && e.Attempt? && Walked(st, g, now) && now <= e.at
    ensures var g' := Decide(st, true, g, e).0;
            && Walked(st, g', e.at) && g'.lastPrune.Some?
            && e.at - g'.lastPrune.value < WalkInterval(st.window)
  {
  }

  lemma {:induction false} MapWalked(st: Settings, start: int, h: History)
    requires st.Valid() && Ordered(start, h)
    ensures Walked(st, After(st, true, start, h), Now(start, h))
  {
    if h != [] {
      MapWalked(st, start, Front(h));
      if h[|h| - 1].Attempt? { WalkedAttempt(st, After(st, true, start, Front(h)), Now(start, Front(h)), h[|h| - 1]); }
    }
  }

  /** On every run, after every attempt: no session is remembered for longer than the window
      and an eighth of it (at least a second), and the map is walked again only after that
      eighth. */
  lemma MapStaysSmall(st: Settings, start: int, h: History, e: Event)
    requires st.Valid() && e.Attempt? && Ordered(start, h + [e])
    ensures var g, g' := After(st, true, start, h), After(st, true, start, h + [e]);
            && (forall id :: id in g'.seen ==> e.at - g'.seen[id] < st.window + WalkInterval(st.window))
            && g'.lastPrune == if g.lastPrune.Some? && e.at - g.lastPrune.value < WalkInterval(st.window)
                               then g.lastPrune else Some(e.at)
  {
    AfterSnoc(st, true, start, h, e);
    MapWalked(st, start, h);
    WalkedAttempt(st, After(st, true, start, h), Now(start, h), e);
  }

  // ----- A gate with the rate alone -----

  ghost predicate NothingFreed(h: History) {
    forall k :: 0 <= k < |h| ==> h[k].Attempt?
  }

  /** Did event k charge a nonzero estimate? */
  predicate Charges(st: Settings, prunes: bool, start: int, h: History, k: nat)
    requires st.Valid() && k < |h|
  {
    && h[k].Attempt? && h[k].estimate != 0
    && Decide(st, prunes, After(st, prunes, start, h[..k]), h[k]).1.Cold?
  }

  lemma ChargeStep(st: Settings, prunes: bool, start: int, h: History, k: nat)
    requires st.Valid() && k < |h| && h[k].Attempt?
    ensures After(st, prunes, start, h[..k + 1]).inFlight == After(st, prunes, start, h[..k]).inFlight
            + if Charges(st, prunes, start, h, k) then h[k].estimate else 0
  {
    assert h[..k + 1] == h[..k] + [h[k]];
    AfterSnoc(st, prunes, start, h[..k], h[k]);
  }

  lemma {:induction false} ZeroUntil(st: Settings, prunes: bool, start: int, h: History, k: nat)
    requires st.Valid() && NothingFreed(h) && k <= |h|
    requires forall j: nat :: j < |h| ==> !Charges(st, prunes, start, h, j)
    ensures After(st, prunes, start, h[..k]).inFlight == 0
  {
    if k > 0 {
      ZeroUntil(st, prunes, start, h, k - 1);
      ChargeStep(st, prunes, start, h, k - 1);
    } else {
      assert h[..0] == [];
    }
  }

  /** Whatever the budgets, until the first release the count stays 0 if and only if
      every charged estimate is 0: a gate with the rate alone counts like any other. */
  lemma CountStaysZeroIff(st: Settings, prunes: bool, start: int, h: History)
    requires st.Valid() && NothingFreed(h)
    ensures (forall k: nat :: k <= |h| ==> After(st, prunes, start, h[..k]).inFlight == 0)
        <==> (forall k: nat :: k < |h| ==> !Charges(st, prunes, start, h, k))
  {
    if k: nat :| k < |h| && Charges(st, prunes, start, h, k) {
      ChargeStep(st, prunes, start, h, k);
    } else {
      forall k: nat | k <= |h| ensures After(st, prunes, start, h[..k]).inFlight == 0 {
        ZeroUntil(st, prunes, start, h, k);
      }
    }
  }

  /** The count of a gate without a budget does not stay 0: whatever its rate, the first
      request brings it to its estimate. */
  lemma RateOnlyCounts(st: Settings, estimate: int) returns (h: History)
    requires st.Valid()
    ensures h != [] && NothingFreed(h) && (forall k :: 0 <= k < |h| ==> h[k].budget <= 0)
    ensures After(st, true, 0, h).inFlight == estimate
  {
    var e := Attempt("", estimate, 0, 0);
    h := [] + [e];
    AfterSnoc(st, true, 0, [], e);
    KeylessFirst(st, e);
  }

  lemma KeylessFirst(st: Settings, e: Event)
    requires st.Valid() && e.Attempt? && e.session == "" && e.budget <= 0
    ensures Step(st, true, Initial(0), e).inFlight == e.estimate
  {
  }
}
