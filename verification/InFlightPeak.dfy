/** One provider's per-second maxima. */
module PeakBuckets {

  import opened GoInts

  const PEAK_WINDOW: int := 60

  /** A Unix second, an int64. */
  type Second = sec: int | -TWO_63 <= sec < TWO_63

  type Buckets = map<Second, int>

  /** The buckets still inside the window. */
  function Fresh(b: Buckets, now: Second): Buckets {
    map sec | sec in b && now - sec < PEAK_WINDOW :: b[sec]
  }

  function Raised(b: Buckets, now: Second, count: int): Buckets {
    if count > (if now in b then b[now] else 0) then b[now := count] else b
  }

  /** Drop the buckets that have left the window, one by one. */
  method DropOld(was: Buckets, now: Second) returns (b: Buckets)
    ensures b == Fresh(was, now)
  {
    b := was;
    var secs := b.Keys;
    while secs != {}
      invariant secs <= b.Keys <= was.Keys
      invariant forall sec :: sec in b ==> b[sec] == was[sec]
      invariant forall sec :: sec in was && sec !in secs ==> (sec in b <==> now - sec < PEAK_WINDOW)
      decreases secs
    {
      var sec :| sec in secs;
      if now - sec >= PEAK_WINDOW {
        b := b - {sec};
      }
      secs := secs - {sec};
    }
  }

  /** The larger of the current count and the largest bucket. */
  method Highest(current: int, b: Buckets) returns (peak: int)
    ensures current <= peak
    ensures forall sec :: sec in b ==> b[sec] <= peak
    ensures peak == current || exists sec :: sec in b && b[sec] == peak
  {
    peak := current;
    var secs := b.Keys;
    while secs != {}
      invariant secs <= b.Keys && current <= peak
      invariant forall sec :: sec in b && sec !in secs ==> b[sec] <= peak
      invariant peak == current || exists sec :: sec in b && b[sec] == peak
      decreases secs
    {
      var sec :| sec in secs;
      if b[sec] > peak {
        peak := b[sec];
      }
      secs := secs - {sec};
    }
  }
}

/** The in-flight gauge and its 60-second peak: per-provider counts, per-second maxima
    pruned as they age, and end functions that count once. */
module InFlightPeak {

  import opened PeakBuckets

  datatype Meter = Meter(counts: map<string, int>, buckets: map<string, Buckets>)

  const EMPTY: Meter := Meter(map[], map[])

  function CountOf(m: Meter, p: string): int {
    if p in m.counts then m.counts[p] else 0
  }

  function BucketsOf(m: Meter, p: string): Buckets {
    if p in m.buckets then m.buckets[p] else map[]
  }

  function Pruned(all: map<string, Buckets>, p: string, now: Second): map<string, Buckets> {
    if p in all then all[p := Fresh(all[p], now)] else all
  }

  function Starting(m: Meter, p: string, now: Second): Meter {
    var count := CountOf(m, p) + 1;
    Meter(m.counts[p := count], m.buckets[p := Raised(Fresh(BucketsOf(m, p), now), now, count)])
  }

  /** One end; the clamp keeps the count from going below zero. */
  function Ending(m: Meter, p: string): Meter {
    var count := CountOf(m, p) - 1;
    m.(counts := m.counts[p := if count < 0 then 0 else count])
  }

  function Collecting(m: Meter, now: Second): Meter {
    m.(buckets := map p | p in m.buckets ::
         if p in m.counts then Fresh(m.buckets[p], now) else m.buckets[p])
  }

  /** `peak` is the larger of the current count and the largest bucket. */
  ghost predicate IsPeakOf(count: int, b: Buckets, peak: int) {
    && count <= peak
    && (forall sec :: sec in b ==> b[sec] <= peak)
    && (peak == count || exists sec :: sec in b && b[sec] == peak)
  }

  /** The pair a scrape reports for one provider: its count, and the peak over its count
      and the buckets left after pruning. */
  ghost predicate Reports(m: Meter, p: string, now: Second, pair: (int, int)) {
    pair.0 == CountOf(m, p) && IsPeakOf(pair.0, Fresh(BucketsOf(m, p), now), pair.1)
  }

  class InFlight {
    var counts: map<string, int>
    var peakBuckets: map<string, Buckets>

    ghost function Abs(): Meter
      reads this
    {
      Meter(counts, peakBuckets)
    }

    constructor ()
      ensures Abs() == EMPTY
    {
      counts, peakBuckets := map[], map[];
    }

    /** Drop the provider's buckets that have left the window. */
    method PruneLocked(provider: string, now: Second)
      modifies this`peakBuckets
      ensures peakBuckets == Pruned(old(peakBuckets), provider, now)
    {
      if provider in peakBuckets {
        var b := DropOld(peakBuckets[provider], now);
        peakBuckets := peakBuckets[provider := b];
      }
    }

    method Start(provider: string, now: Second) returns (end: EndOnce)
      modifies this
      ensures Abs() == Starting(old(Abs()), provider, now)
      ensures fresh(end) && !end.done && end.meter == this && end.provider == provider
    {
      end := new EndOnce(this, provider);
      PruneLocked(provider, now);
      var current := (if provider in counts then counts[provider] else 0) + 1;
      counts := counts[provider := current];
      RaisePeak(provider, now, current);
      PrunedThenRaised(old(Abs()), provider, now, current);
    }

    /** Keep the highest count of the second. */
    method RaisePeak(provider: string, now: Second, current: int)
      modifies this`peakBuckets
      ensures peakBuckets == RaisedIn(old(peakBuckets), provider, now, current)
    {
      var b := if provider in peakBuckets then peakBuckets[provider] else map[];
      if current > (if now in b then b[now] else 0) {
        b := b[now := current];
      }
      peakBuckets := peakBuckets[provider := b];
    }

    /** The reported current counts and peaks. */
    method Collect(now: Second) returns (report: map<string, (int, int)>)
      modifies this
      ensures Abs() == Collecting(old(Abs()), now)
      ensures report.Keys == counts.Keys
      ensures forall p :: p in report ==> Reports(old(Abs()), p, now, report[p])
    {
      report := map[];
      var names := counts.Keys;
      while names != {}
        invariant names <= counts.Keys && counts == old(counts)
        invariant peakBuckets == PrunedExcept(old(Abs()), names, now)
        invariant report.Keys == counts.Keys - names
        invariant forall p :: p in report ==> Reports(old(Abs()), p, now, report[p])
        decreases names
      {
        var p :| p in names;
        PrunedOneMore(old(Abs()), names, p, now);
        PruneLocked(p, now);
        names := names - {p};
        var b := if p in peakBuckets then peakBuckets[p] else map[];
        assert b == Fresh(BucketsOf(old(Abs()), p), now);
        var peak := Highest(counts[p], b);
        report := report[p := (counts[p], peak)];
      }
    }
  }

  function RaisedIn(all: map<string, Buckets>, p: string, now: Second, count: int): map<string, Buckets> {
    all[p := Raised(if p in all then all[p] else map[], now, count)]
  }

  lemma PrunedThenRaised(m: Meter, p: string, now: Second, count: int)
    ensures RaisedIn(Pruned(m.buckets, p, now), p, now, count)
         == m.buckets[p := Raised(Fresh(BucketsOf(m, p), now), now, count)]
  {
    assert Fresh(map[], now) == map[];
  }

  /** The buckets after a scrape has pruned every counted provider except those left. */
  function PrunedExcept(m: Meter, left: set<string>, now: Second): map<string, Buckets> {
    map p | p in m.buckets ::
      if p in m.counts && p !in left then Fresh(m.buckets[p], now) else m.buckets[p]
  }

  lemma PrunedOneMore(m: Meter, left: set<string>, p: string, now: Second)
    requires p in left && left <= m.counts.Keys
    ensures Pruned(PrunedExcept(m, left, now), p, now) == PrunedExcept(m, left - {p}, now)
  {
  }

  /** The end function of one start: only its first call counts. */
  class EndOnce {
    const meter: InFlight
    const provider: string
    var done: bool

    constructor (meter: InFlight, provider: string)
      ensures this.meter == meter && this.provider == provider && !done
    {
      this.meter, this.provider, done := meter, provider, false;
    }

    method End()
      modifies this, meter
      ensures done
      ensures meter.Abs() == if old(done) then old(meter.Abs()) else Ending(old(meter.Abs()), provider)
    {
      if done {
        return;
      }
      done := true;
      var count := (if provider in meter.counts then meter.counts[provider] else 0) - 1;
      if count < 0 {
        count := 0;
      }
      meter.counts := meter.counts[provider := count];
    }
  }

  // ----- Runs -----

  /** Start number k is the event at index k; End(k) is one call of its end function. */
  datatype Event = Start(provider: string, sec: Second) | End(k: nat) | Collect(sec: Second)

  /** The meter, the end functions already used, and the latest clock reading. */
  datatype System = System(meter: Meter, ended: set<nat>, now: Second)

  predicate EndsNow(h: seq<Event>, n: nat, s: System)
    requires n < |h|
  {
    h[n].End? && h[n].k < n && h[h[n].k].Start? && h[n].k !in s.ended
  }

  function Next(h: seq<Event>, n: nat, s: System): System
    requires n < |h|
  {
    match h[n]
    case Start(p, sec) => System(Starting(s.meter, p, sec), s.ended, sec)
    case End(k) =>
      if EndsNow(h, n, s) then System(Ending(s.meter, h[k].provider), s.ended + {k}, s.now) else s
    case Collect(sec) => System(Collecting(s.meter, sec), s.ended, sec)
  }

  predicate StepAt(h: seq<Event>, tr: seq<System>, n: nat)
    requires |tr| == |h| + 1
  {
    n < |h| ==> tr[n + 1] == Next(h, n, tr[n])
  }

  /** `tr` are the states the events lead through from an empty meter. */
  ghost predicate IsRun(h: seq<Event>, tr: seq<System>) {
    && |tr| == |h| + 1
    && tr[0].meter == EMPTY && tr[0].ended == {}
    && forall n: nat :: n < |h| ==> StepAt(h, tr, n)
  }

  predicate TimeForward(s: System, s': System) { s.now <= s'.now }

  /** The clock never goes back. */
  ghost predicate Ordered(tr: seq<System>) {
    forall n :: 0 <= n < |tr| - 1 ==> TimeForward(tr[n], tr[n + 1])
  }

  // ----- What the history says -----

  ghost predicate EndedBy(h: seq<Event>, k: nat, n: nat)
    requires n <= |h|
  {
    exists j :: k < j < n && h[j] == End(k)
  }

  ghost predicate OpenAt(h: seq<Event>, p: string, k: nat, n: nat)
    requires k < n <= |h|
  {
    h[k].Start? && h[k].provider == p && !EndedBy(h, k, n)
  }

  /** Starts of p among the first i events that have not been ended by event n. */
  ghost function OpenBelow(h: seq<Event>, p: string, n: nat, i: nat): nat
    requires i <= n <= |h|
  {
    if i == 0 then 0 else OpenBelow(h, p, n, i - 1) + if OpenAt(h, p, i - 1, n) then 1 else 0
  }

  /** Starts minus distinct ends. */
  ghost function Open(h: seq<Event>, p: string, n: nat): nat
    requires n <= |h|
  {
    OpenBelow(h, p, n, n)
  }

  /** The count a start brought its provider to. */
  ghost function Reached(h: seq<Event>, k: nat): nat
    requires k < |h| && h[k].Start?
  {
    Open(h, h[k].provider, k + 1)
  }

  /** Does event n end a start of p for the first time, below index i? */
  ghost predicate FirstEnd(h: seq<Event>, p: string, n: nat, i: nat)
    requires n < |h|
  {
    h[n].End? && h[n].k < i && h[n].k < n && OpenAt(h, p, h[n].k, n)
  }

  lemma EndedStep(h: seq<Event>, k: nat, n: nat)
    requires k < n < |h|
    ensures EndedBy(h, k, n + 1) <==> EndedBy(h, k, n) || h[n] == End(k)
  {
    if EndedBy(h, k, n) {
      var j :| k < j < n && h[j] == End(k);
    }
  }

  lemma {:induction false} OpenStep(h: seq<Event>, p: string, n: nat, i: nat)
    requires i <= n < |h|
    ensures OpenBelow(h, p, n + 1, i)
         == OpenBelow(h, p, n, i) - (if FirstEnd(h, p, n, i) then 1 else 0)
  {
    if i > 0 {
      OpenStep(h, p, n, i - 1);
      EndedStep(h, i - 1, n);
    }
  }

  lemma OpenNext(h: seq<Event>, p: string, n: nat)
    requires n < |h|
    ensures Open(h, p, n + 1)
         == Open(h, p, n) - (if FirstEnd(h, p, n, n) then 1 else 0)
            + (if h[n].Start? && h[n].provider == p then 1 else 0)
  {
    OpenStep(h, p, n, n);
    assert !EndedBy(h, n, n + 1);
  }

  /** The state agrees with the history. */
  ghost predicate Agrees(h: seq<Event>, s: System, n: nat)
    requires n <= |h|
  {
    && (forall k: nat :: k in s.ended <==> k < n && h[k].Start? && EndedBy(h, k, n))
    && (forall p :: CountOf(s.meter, p) == Open(h, p, n))
  }

  lemma {:induction false} CountsExact(h: seq<Event>, tr: seq<System>, n: nat)
    requires IsRun(h, tr) && n <= |h|
    ensures Agrees(h, tr[n], n)
  {
    if n > 0 {
      CountsExact(h, tr, n - 1);
      assert StepAt(h, tr, n - 1);
      CountsStep(h, tr[n - 1], n - 1);
    }
  }

  lemma CountsStep(h: seq<Event>, s: System, n: nat)
    requires n < |h| && Agrees(h, s, n)
    ensures Agrees(h, Next(h, n, s), n + 1)
  {
    var s' := Next(h, n, s);
    forall k: nat ensures k in s'.ended <==> k < n + 1 && h[k].Start? && EndedBy(h, k, n + 1) {
      if k < n { EndedStep(h, k, n); }
    }
    forall p ensures CountOf(s'.meter, p) == Open(h, p, n + 1) {
      OpenNext(h, p, n);
    }
  }

  /** In every reachable state the count is starts minus distinct ends, so the clamp at
      zero never changes anything. */
  lemma CurrentExact(h: seq<Event>, tr: seq<System>, n: nat, p: string)
    requires IsRun(h, tr) && n <= |h|
    ensures CountOf(tr[n].meter, p) == Open(h, p, n)
    ensures n < |h| && EndsNow(h, n, tr[n]) ==> CountOf(tr[n].meter, h[h[n].k].provider) >= 1
  {
    CountsExact(h, tr, n);
    if n < |h| && EndsNow(h, n, tr[n]) {
      OpenNext(h, h[h[n].k].provider, n);
    }
  }

  // ----- The peak -----

  /** Every bucket is a count some start of its second reached, and every start still in
      the window is covered by its second's bucket. */
  ghost predicate BucketsAgree(h: seq<Event>, p: string, b: Buckets, now: Second, n: nat)
    requires n <= |h|
  {
    && (forall sec :: sec in b ==> ReachedIn(h, p, sec, b[sec], n))
    && (forall k: nat :: k < n && h[k].Start? && h[k].provider == p ==>
          now - h[k].sec >= PEAK_WINDOW || Covered(h, k, b))
  }

  ghost predicate ReachedIn(h: seq<Event>, p: string, sec: Second, count: int, n: nat)
    requires n <= |h|
  {
    exists k: nat :: k < n && h[k] == Start(p, sec) && Reached(h, k) == count
  }

  ghost predicate Covered(h: seq<Event>, k: nat, b: Buckets)
    requires k < |h| && h[k].Start?
  {
    h[k].sec in b && Reached(h, k) <= b[h[k].sec]
  }

  lemma FreshAgrees(h: seq<Event>, p: string, b: Buckets, now: Second, later: Second, n: nat)
    requires n <= |h| && now <= later && BucketsAgree(h, p, b, now, n)
    ensures BucketsAgree(h, p, Fresh(b, later), later, n)
    ensures BucketsAgree(h, p, b, later, n)
  {
    forall k: nat | k < n && h[k].Start? && h[k].provider == p && later - h[k].sec < PEAK_WINDOW
      ensures Covered(h, k, Fresh(b, later)) && Covered(h, k, b)
    {
      assert Covered(h, k, b);
    }
  }

  lemma RaisedAgrees(h: seq<Event>, p: string, b: Buckets, n: nat)
    requires n < |h| && h[n].Start? && h[n].provider == p && BucketsAgree(h, p, b, h[n].sec, n)
    ensures BucketsAgree(h, p, Raised(b, h[n].sec, Reached(h, n)), h[n].sec, n + 1)
  {
    var b' := Raised(b, h[n].sec, Reached(h, n));
    assert Reached(h, n) >= 1 by { OpenNext(h, p, n); }
    forall sec | sec in b' ensures ReachedIn(h, p, sec, b'[sec], n + 1) {
      if sec in b && b'[sec] == b[sec] {
        assert ReachedIn(h, p, sec, b[sec], n);
      } else {
        assert h[n] == Start(p, sec);
      }
    }
    forall k: nat | k < n + 1 && h[k].Start? && h[k].provider == p && h[n].sec - h[k].sec < PEAK_WINDOW
      ensures Covered(h, k, b')
    {
      if k < n { assert Covered(h, k, b); }
    }
  }

  /** An event that is no start of p leaves p's agreement alone. */
  lemma OtherAgrees(h: seq<Event>, p: string, b: Buckets, now: Second, n: nat)
    requires n < |h| && !(h[n].Start? && h[n].provider == p) && BucketsAgree(h, p, b, now, n)
    ensures BucketsAgree(h, p, b, now, n + 1)
  {
    forall sec | sec in b ensures ReachedIn(h, p, sec, b[sec], n + 1) {
      assert ReachedIn(h, p, sec, b[sec], n);
    }
  }

  lemma {:induction false} BucketsExact(h: seq<Event>, tr: seq<System>, n: nat, p: string)
    requires IsRun(h, tr) && Ordered(tr) && n <= |h|
    ensures BucketsAgree(h, p, BucketsOf(tr[n].meter, p), tr[n].now, n)
    ensures p in tr[n].meter.buckets ==> p in tr[n].meter.counts
  {
    if n > 0 {
      BucketsExact(h, tr, n - 1, p);
      assert StepAt(h, tr, n - 1);
      assert TimeForward(tr[n - 1], tr[n - 1 + 1]);
      var b, now := BucketsOf(tr[n - 1].meter, p), tr[n].now;
      FreshAgrees(h, p, b, tr[n - 1].now, now, n - 1);
      if h[n - 1].Start? && h[n - 1].provider == p {
        CurrentExact(h, tr, n, p);
        RaisedAgrees(h, p, Fresh(b, now), n - 1);
      } else {
        OtherBuckets(h, tr[n - 1], n - 1, p);
        OtherAgrees(h, p, b, now, n - 1);
        OtherAgrees(h, p, Fresh(b, now), now, n - 1);
      }
    }
  }

  /** An event that is no start of p leaves its buckets alone or prunes them. */
  lemma OtherBuckets(h: seq<Event>, s: System, n: nat, p: string)
    requires n < |h| && !(h[n].Start? && h[n].provider == p)
    requires p in s.meter.buckets ==> p in s.meter.counts
    ensures var s', b := Next(h, n, s), BucketsOf(s.meter, p);
            && BucketsOf(s'.meter, p) in {b, Fresh(b, s'.now)}
            && (p in s'.meter.buckets ==> p in s'.meter.counts)
  {
  }

  /** A start of p less than 60 seconds before now. */
  ghost predicate InWindow(h: seq<Event>, p: string, k: nat, now: Second, n: nat) {
    k < n <= |h| && h[k].Start? && h[k].provider == p && now - h[k].sec < 60
  }

  /** What a scrape reports: the count is starts minus distinct ends, and the peak is the
      larger of that and the largest count any start of the last 60 seconds reached, over
      the full history. */
  lemma PeakExact(h: seq<Event>, tr: seq<System>, n: nat, p: string, pair: (int, int))
    requires IsRun(h, tr) && Ordered(tr) && n < |h| && h[n].Collect? && Reports(tr[n].meter, p, h[n].sec, pair)
    ensures pair.0 == Open(h, p, n) <= pair.1
    ensures forall k: nat :: InWindow(h, p, k, h[n].sec, n) ==> Reached(h, k) <= pair.1
    ensures pair.1 == pair.0
         || exists k: nat :: InWindow(h, p, k, h[n].sec, n) && Reached(h, k) == pair.1
  {
    var now, b := h[n].sec, Fresh(BucketsOf(tr[n].meter, p), h[n].sec);
    assert StepAt(h, tr, n);
    assert TimeForward(tr[n], tr[n + 1]);
    CurrentExact(h, tr, n, p);
    BucketsExact(h, tr, n, p);
    FreshAgrees(h, p, BucketsOf(tr[n].meter, p), tr[n].now, now, n);
    forall k: nat | InWindow(h, p, k, now, n) ensures Reached(h, k) <= pair.1 {
      assert Covered(h, k, b);
    }
    if pair.1 != pair.0 {
      var sec :| sec in b && b[sec] == pair.1;
      assert ReachedIn(h, p, sec, b[sec], n);
      var k: nat :| k < n && h[k] == Start(p, sec) && Reached(h, k) == b[sec];
      assert InWindow(h, p, k, now, n);
    }
  }
}
