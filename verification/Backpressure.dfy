/** The time-to-first-token backpressure controller: a live budget moved at most once
    per 60-second window. Seconds are reals; rounding is not modelled. */
module Backpressure {
  import opened GoInts

  const WINDOW_SECONDS: int := 60
  const CLEAN_MEDIAN: real := 8.0
  const GROWTH_STEP: int := 8192
  const FLOOR_DIVISOR: int := 16

  /** One observation, with its clock reading in Unix seconds. */
  datatype Obs = Ttft(seconds: real, at: int) | Status(status: int, at: int)

  datatype Controls = Controls(ceiling: int, threshold: int) {
    /** Both are positive int64 values. */
    predicate Valid() { 0 < ceiling < TWO_63 && 0 < threshold < TWO_63 }

    /** One growth step above the ceiling still fits 64 bits. */
    predicate Fits() { ceiling + GROWTH_STEP < TWO_63 }

    function Floor(): int
      requires Valid()
    {
      if ceiling / FLOOR_DIVISOR < 1 then 1 else ceiling / FLOOR_DIVISOR
    }
  }

  datatype Controller = Controller(
    budget: int,
    started: bool,
    windowIndex: int,
    samples: seq<real>,
    failed: bool)

  function WindowOf(at: int): int {
    Quo(at, WINDOW_SECONDS)
  }

  // ----- Median -----

  function Insert(x: real, s: seq<real>): seq<real> {
    if s == [] then [x]
    else if x <= s[0] then [x] + s
    else [s[0]] + Insert(x, s[1..])
  }

  function Sorted(s: seq<real>): seq<real> {
    if s == [] then [] else Insert(s[0], Sorted(s[1..]))
  }

  lemma {:induction false} InsertLength(x: real, s: seq<real>)
    ensures |Insert(x, s)| == |s| + 1
  {
    if s != [] { InsertLength(x, s[1..]); }
  }

  lemma {:induction false} SortedLength(s: seq<real>)
    ensures |Sorted(s)| == |s|
  {
    if s != [] {
      SortedLength(s[1..]);
      InsertLength(s[0], Sorted(s[1..]));
    }
  }

  function Median(samples: seq<real>): real {
    if samples == [] then 0.0
    else
      SortedLength(samples);
      var sorted := Sorted(samples);
      var mid := |sorted| / 2;
      if |sorted| % 2 == 1 then sorted[mid] else (sorted[mid - 1] + sorted[mid]) / 2.0
  }

  function AtMost(s: seq<real>, x: real): nat {
    if s == [] then 0 else (if s[0] <= x then 1 else 0) + AtMost(s[1..], x)
  }

  function AtLeast(s: seq<real>, x: real): nat {
    if s == [] then 0 else (if s[0] >= x then 1 else 0) + AtLeast(s[1..], x)
  }

  ghost predicate Ascending(s: seq<real>) {
    forall i, j :: 0 <= i < j < |s| ==> s[i] <= s[j]
  }

  lemma {:induction false} InsertCounts(x: real, s: seq<real>, y: real)
    ensures AtMost(Insert(x, s), y) == AtMost(s, y) + (if x <= y then 1 else 0)
    ensures AtLeast(Insert(x, s), y) == AtLeast(s, y) + (if x >= y then 1 else 0)
  {
    if s != [] {
      assert ([x] + s)[1..] == s;
      InsertCounts(x, s[1..], y);
      assert ([s[0]] + Insert(x, s[1..]))[1..] == Insert(x, s[1..]);
    }
  }

  /** Sorting keeps every count, so it is a rearrangement. */
  lemma {:induction false} SortedCounts(s: seq<real>, y: real)
    ensures AtMost(Sorted(s), y) == AtMost(s, y) && AtLeast(Sorted(s), y) == AtLeast(s, y)
  {
    if s != [] {
      SortedCounts(s[1..], y);
      InsertCounts(s[0], Sorted(s[1..]), y);
    }
  }

  lemma {:induction false} InsertAtLeast(x: real, s: seq<real>, low: real)
    requires low <= x && forall i :: 0 <= i < |s| ==> low <= s[i]
    ensures forall i :: 0 <= i < |Insert(x, s)| ==> low <= Insert(x, s)[i]
  {
    if s != [] { InsertAtLeast(x, s[1..], low); }
  }

  lemma {:induction false} InsertAscending(x: real, s: seq<real>)
    requires Ascending(s)
    ensures Ascending(Insert(x, s))
  {
    if s != [] && x > s[0] {
      InsertAscending(x, s[1..]);
      InsertAtLeast(x, s[1..], s[0]);
    }
  }

  lemma {:induction false} SortedAscending(s: seq<real>)
    ensures Ascending(Sorted(s))
  {
    if s != [] {
      SortedAscending(s[1..]);
      InsertAscending(s[0], Sorted(s[1..]));
    }
  }

  /** In ascending order, k+1 elements are at most anything at or above the k-th. */
  lemma {:induction false} RankBelow(s: seq<real>, k: nat, x: real)
    requires Ascending(s) && k < |s| && s[k] <= x
    ensures AtMost(s, x) >= k + 1
  {
    if k > 0 { RankBelow(s[1..], k - 1, x); }
  }

  lemma {:induction false} RankAbove(s: seq<real>, k: nat, x: real)
    requires Ascending(s) && k <= |s| && (k < |s| ==> x <= s[k])
    ensures AtLeast(s, x) >= |s| - k
  {
    if s != [] {
      if k > 0 { RankAbove(s[1..], k - 1, x); } else { RankAbove(s[1..], 0, x); }
    }
  }

  /** The median splits the samples, whatever order they came in: at least half of them
      lie on either side. */
  lemma MedianSplits(samples: seq<real>)
    requires samples != []
    ensures 2 * AtMost(samples, Median(samples)) >= |samples|
    ensures 2 * AtLeast(samples, Median(samples)) >= |samples|
  {
    var sorted, m := Sorted(samples), Median(samples);
    SortedLength(samples);
    SortedAscending(samples);
    SortedCounts(samples, m);
    MiddleSplits(sorted, m);
  }

  lemma MiddleSplits(s: seq<real>, m: real)
    requires Ascending(s) && s != []
    requires var mid := |s| / 2;
             m == if |s| % 2 == 1 then s[mid] else (s[mid - 1] + s[mid]) / 2.0
    ensures 2 * AtMost(s, m) >= |s| && 2 * AtLeast(s, m) >= |s|
  {
    var mid := |s| / 2;
    if |s| % 2 == 1 {
      RankBelow(s, mid, m);
    } else {
      assert s[mid - 1] <= s[mid];
      Between(s[mid - 1], s[mid]);
      RankBelow(s, mid - 1, m);
    }
    RankAbove(s, mid, m);
  }

  lemma Between(a: real, b: real)
    requires a <= b
    ensures a <= (a + b) / 2.0 <= b
  {
  }

  lemma {:induction false} InsertKeeps(x: real, s: seq<real>)
    ensures multiset(Insert(x, s)) == multiset(s) + multiset{x}
  {
    if s != [] {
      InsertKeeps(x, s[1..]);
      assert s == [s[0]] + s[1..];
    }
  }

  lemma {:induction false} SortedKeeps(s: seq<real>)
    ensures multiset(Sorted(s)) == multiset(s)
  {
    if s != [] {
      SortedKeeps(s[1..]);
      InsertKeeps(s[0], Sorted(s[1..]));
      assert s == [s[0]] + s[1..];
    }
  }

  lemma FirstIsLeast(s: seq<real>, x: real)
    requires s != [] && Ascending(s) && x in multiset(s)
    ensures s[0] <= x
  {
    var i :| 0 <= i < |s| && s[i] == x;
  }

  lemma SameFirst(s: seq<real>, t: seq<real>)
    requires Ascending(s) && Ascending(t) && multiset(s) == multiset(t) && s != [] && t != []
    ensures s[0] == t[0]
  {
    assert s[0] in multiset(s) && t[0] in multiset(t);
    FirstIsLeast(s, t[0]);
    FirstIsLeast(t, s[0]);
  }

  lemma WithoutFirst(s: seq<real>)
    requires s != []
    ensures multiset(s[1..]) == multiset(s) - multiset{s[0]}
    ensures Ascending(s) ==> Ascending(s[1..])
  {
    assert s == [s[0]] + s[1..];
  }

  /** Two ascending arrangements of the same values are the same. */
  lemma {:induction false} OneAscending(s: seq<real>, t: seq<real>)
    requires Ascending(s) && Ascending(t) && multiset(s) == multiset(t)
    ensures s == t
  {
    assert |s| == |multiset(s)| == |multiset(t)| == |t|;
    if s != [] {
      SameFirst(s, t);
      WithoutFirst(s);
      WithoutFirst(t);
      OneAscending(s[1..], t[1..]);
      assert s == [s[0]] + s[1..] && t == [t[0]] + t[1..];
    }
  }

  /** The median, by any ascending arrangement of the samples: the middle one of an odd
      number, the mean of the two central ones of an even number, and 0 for none. */
  lemma MedianExactly(samples: seq<real>, s: seq<real>)
    requires Ascending(s) && multiset(s) == multiset(samples)
    ensures |s| == |samples|
    ensures Median(samples)
         == if |s| == 0 then 0.0
            else if |s| % 2 == 1 then s[|s| / 2] else (s[|s| / 2 - 1] + s[|s| / 2]) / 2.0
  {
    SortedAscending(samples);
    SortedKeeps(samples);
    SortedLength(samples);
    OneAscending(Sorted(samples), s);
  }

  // ----- Steps -----

  /** The budget after leaving a window with these samples and this failure flag; the
      growth is stored in 64 bits before it is compared with the ceiling. */
  function Adjusted(c: Controls, budget: int, samples: seq<real>, failed: bool): int
    requires c.Valid()
  {
    var median := Median(samples);
    if failed || median > c.threshold as real then
      if Quo(budget, 2) < c.Floor() then c.Floor() else Quo(budget, 2)
    else if median < CLEAN_MEDIAN then Min(Wrap64(budget + GROWTH_STEP), c.ceiling)
    else budget
  }

  function Roll(c: Controls, b: Controller, at: int): Controller
    requires c.Valid()
  {
    var w := WindowOf(at);
    if b.started && w != b.windowIndex then
      Controller(Adjusted(c, b.budget, b.samples, b.failed), true, w, [], false)
    else b.(started := true, windowIndex := w)
  }

  function Observe(c: Controls, b: Controller, o: Obs): Controller
    requires c.Valid()
  {
    var b1 := Roll(c, b, o.at);
    match o
    case Ttft(seconds, _) => b1.(samples := b1.samples + [seconds])
    case Status(status, _) => if status >= 500 then b1.(failed := true) else b1
  }

  function Initial(c: Controls): Controller {
    Controller(c.ceiling, false, 0, [], false)
  }

  class TtftBackpressure {
    const ceiling: int
    const threshold: int
    const floor: int
    var budget: int
    var started: bool
    var windowIndex: int
    var samples: seq<real>
    var failed: bool

    ghost function Config(): Controls { Controls(ceiling, threshold) }

    ghost predicate Valid() { Config().Valid() && floor == Config().Floor() }

    ghost function Abs(): Controller
      reads this
    {
      Controller(budget, started, windowIndex, samples, failed)
    }

    constructor (ceilingTokens: int, thresholdSeconds: int)
      requires 0 < ceilingTokens < TWO_63 && 0 < thresholdSeconds < TWO_63
      ensures Valid() && Config() == Controls(ceilingTokens, thresholdSeconds)
      ensures Abs() == Initial(Config())
    {
      ceiling, threshold := ceilingTokens, thresholdSeconds;
      floor := if ceilingTokens / FLOOR_DIVISOR < 1 then 1 else ceilingTokens / FLOOR_DIVISOR;
      budget, started, windowIndex, samples, failed := ceilingTokens, false, 0, [], false;
    }

    method EvaluateLocked()
      requires Valid()
      modifies this`budget
      ensures budget == Adjusted(Config(), old(budget), samples, failed)
    {
      var median := Median(samples);
      var next := budget;
      if failed || median > threshold as real {
        next := Quo(budget, 2);
        if next < floor {
          next := floor;
        }
      } else if median < CLEAN_MEDIAN {
        next := Wrap64(budget + GROWTH_STEP);
        if next > ceiling {
          next := ceiling;
        }
      }
      if next == budget {
        return;
      }
      budget := next;
    }

    method RollLocked(at: int)
      requires Valid()
      modifies this
      ensures Abs() == Roll(Config(), old(Abs()), at)
    {
      var w := Quo(at, WINDOW_SECONDS);
      if started && w != windowIndex {
        EvaluateLocked();
        samples := [];
        failed := false;
      }
      started := true;
      windowIndex := w;
    }

    method ObserveColdTtft(seconds: real, now: int)
      requires Valid()
      modifies this
      ensures Abs() == Observe(Config(), old(Abs()), Ttft(seconds, now))
    {
      RollLocked(now);
      samples := samples + [seconds];
    }

    method ObserveStatus(status: int, now: int)
      requires Valid()
      modifies this
      ensures Abs() == Observe(Config(), old(Abs()), Status(status, now))
    {
      RollLocked(now);
      if status >= 500 {
        failed := true;
      }
    }
  }

  // ----- The history, cut into windows -----

  function After(c: Controls, h: seq<Obs>): Controller
    requires c.Valid()
  {
    if h == [] then Initial(c) else Observe(c, After(c, h[..|h| - 1]), h[|h| - 1])
  }

  function Flat(gs: seq<seq<Obs>>): seq<Obs> {
    if gs == [] then [] else Flat(gs[..|gs| - 1]) + gs[|gs| - 1]
  }

  ghost predicate SameWindow(g: seq<Obs>) {
    g != [] && forall i :: 0 <= i < |g| ==> WindowOf(g[i].at) == WindowOf(g[0].at)
  }

  /** `gs` cuts the history into maximal stretches of one window each. */
  ghost predicate Cuts(gs: seq<seq<Obs>>, h: seq<Obs>) {
    && Flat(gs) == h
    && (forall i :: 0 <= i < |gs| ==> SameWindow(gs[i]))
    && (forall i :: 0 < i < |gs| ==> Boundary(gs, i))
  }

  ghost predicate Boundary(gs: seq<seq<Obs>>, i: int)
    requires 0 < i < |gs|
  {
    gs[i - 1] != [] && gs[i] != [] && WindowOf(gs[i - 1][0].at) != WindowOf(gs[i][0].at)
  }

  function Samples(g: seq<Obs>): seq<real> {
    if g == [] then []
    else Samples(g[..|g| - 1]) + if g[|g| - 1].Ttft? then [g[|g| - 1].seconds] else []
  }

  function AnyFailed(g: seq<Obs>): bool {
    g != [] && (AnyFailed(g[..|g| - 1]) || (g[|g| - 1].Status? && g[|g| - 1].status >= 500))
  }

  function Fold(c: Controls, budget: int, gs: seq<seq<Obs>>): int
    requires c.Valid()
  {
    if gs == [] then budget
    else
      var g := gs[|gs| - 1];
      Adjusted(c, Fold(c, budget, gs[..|gs| - 1]), Samples(g), AnyFailed(g))
  }

  /** The controller holds the last, still open stretch, and has folded the others. */
  ghost predicate Tracks(c: Controls, b: Controller, gs: seq<seq<Obs>>)
    requires c.Valid() && gs != [] && gs[|gs| - 1] != []
  {
    var n := |gs| - 1;
    && b.started
    && b.windowIndex == WindowOf(gs[n][0].at)
    && b.samples == Samples(gs[n])
    && b.failed == AnyFailed(gs[n])
    && b.budget == Fold(c, c.ceiling, gs[..n])
  }

  lemma FlatSnoc(gs: seq<seq<Obs>>, g: seq<Obs>)
    ensures Flat(gs + [g]) == Flat(gs) + g
  {
    assert (gs + [g])[..|gs|] == gs;
  }

  /** The last observation is the last of the last stretch. */
  lemma LastStretch(gs: seq<seq<Obs>>, h: seq<Obs>) returns (done: seq<seq<Obs>>, g: seq<Obs>)
    requires h != [] && Cuts(gs, h)
    ensures gs == done + [g + [h[|h| - 1]]] && h[..|h| - 1] == Flat(done) + g
  {
    var n := |gs| - 1;
    var last := gs[n];
    assert SameWindow(last);
    done, g := gs[..n], last[..|last| - 1];
    assert h == Flat(done) + last;
    assert last == g + [last[|last| - 1]];
  }

  lemma ShorterStretch(g: seq<Obs>, o: Obs)
    requires g != [] && SameWindow(g + [o])
    ensures SameWindow(g) && (g + [o])[0] == g[0]
  {
    assert forall i :: 0 <= i < |g| ==> (g + [o])[i] == g[i];
  }

  /** Taking the last observation off a cut history leaves a cut history. */
  lemma Uncut(gs: seq<seq<Obs>>, h: seq<Obs>) returns (done: seq<seq<Obs>>, g: seq<Obs>)
    requires h != [] && Cuts(gs, h)
    ensures gs == done + [g + [h[|h| - 1]]]
    ensures Cuts(if g == [] then done else done + [g], h[..|h| - 1])
  {
    done, g := LastStretch(gs, h);
    FlatSnoc(done, g);
    var before, n := if g == [] then done else done + [g], |done|;
    assert SameWindow(gs[n]);
    if g != [] { ShorterStretch(g, h[|h| - 1]); }
    forall i | 0 <= i < |before| ensures SameWindow(before[i]) {
      assert SameWindow(gs[i]);
    }
    forall i | 0 < i < |before| ensures Boundary(before, i) {
      assert Boundary(gs, i);
    }
  }

  lemma FlatNonempty(gs: seq<seq<Obs>>)
    requires forall i :: 0 <= i < |gs| ==> SameWindow(gs[i])
    ensures gs != [] ==> Flat(gs) != []
  {
    if gs != [] {
      assert SameWindow(gs[|gs| - 1]);
      assert |Flat(gs)| == |Flat(gs[..|gs| - 1])| + |gs[|gs| - 1]|;
    }
  }

  lemma TracksSame(c: Controls, b: Controller, done: seq<seq<Obs>>, g: seq<Obs>, o: Obs)
    requires c.Valid() && SameWindow(g + [o]) && g != [] && Tracks(c, b, done + [g])
    ensures Tracks(c, Observe(c, b, o), done + [g + [o]])
  {
    assert (done + [g])[..|done|] == done && (done + [g + [o]])[..|done|] == done;
    assert (g + [o])[..|g|] == g && (g + [o])[0] == g[0];
    assert WindowOf((g + [o])[|g|].at) == WindowOf(g[0].at);
  }

  lemma TracksNew(c: Controls, b: Controller, gs: seq<seq<Obs>>, o: Obs)
    requires c.Valid() && gs != [] && gs[|gs| - 1] != [] && Tracks(c, b, gs)
    requires WindowOf(o.at) != WindowOf(gs[|gs| - 1][0].at)
    ensures Tracks(c, Observe(c, b, o), gs + [[o]])
  {
    assert (gs + [[o]])[..|gs|] == gs;
    assert [o][..0] == [];
  }

  /** The budget equals the fold of halve, grow and hold over the maximal same-window
      stretches of the history, except the open last one — for however the history is
      cut into them. */
  lemma {:induction false} BudgetIsFold(c: Controls, h: seq<Obs>, gs: seq<seq<Obs>>)
    requires c.Valid() && h != [] && Cuts(gs, h)
    ensures gs != [] && gs[|gs| - 1] != [] && Tracks(c, After(c, h), gs)
  {
    var done, g := Uncut(gs, h);
    var front, o := h[..|h| - 1], h[|h| - 1];
    var n := |done|;
    assert gs[n] == g + [o] && SameWindow(gs[n]);
    if g != [] {
      FlatNonempty(done + [g]);
      BudgetIsFold(c, front, done + [g]);
      TracksSame(c, After(c, front), done, g, o);
    } else if done == [] {
      assert gs == [[o]] && front == [];
      TracksFirst(c, o);
    } else {
      FlatNonempty(done);
      BudgetIsFold(c, front, done);
      assert g + [o] == [o] && Boundary(gs, n);
      TracksNew(c, After(c, front), done, o);
    }
  }

  lemma TracksFirst(c: Controls, o: Obs)
    requires c.Valid()
    ensures Tracks(c, Observe(c, Initial(c), o), [[o]])
  {
    assert [[o]][..0] == [] && [o][..0] == [];
  }

  lemma CutLonger(fs: seq<seq<Obs>>, h: seq<Obs>, o: Obs)
    requires fs != [] && Cuts(fs, h) && fs[|fs| - 1] != []
    requires WindowOf(fs[|fs| - 1][0].at) == WindowOf(o.at)
    ensures Cuts(fs[..|fs| - 1] + [fs[|fs| - 1] + [o]], h + [o])
  {
    var n := |fs| - 1;
    var g := fs[n] + [o];
    var gs := fs[..n] + [g];
    assert gs[..n] == fs[..n];
    assert SameWindow(fs[n]);
    assert g[0] == fs[n][0];
    forall i | 0 <= i < |gs| ensures SameWindow(gs[i]) {
      if i < n { assert SameWindow(fs[i]); }
    }
    forall i | 0 < i < |gs| ensures Boundary(gs, i) {
      assert Boundary(fs, i);
    }
  }

  lemma CutNew(fs: seq<seq<Obs>>, h: seq<Obs>, o: Obs)
    requires Cuts(fs, h)
    requires fs != [] ==> fs[|fs| - 1] != [] && WindowOf(fs[|fs| - 1][0].at) != WindowOf(o.at)
    ensures Cuts(fs + [[o]], h + [o])
  {
    var gs := fs + [[o]];
    assert gs[..|fs|] == fs;
    forall i | 0 <= i < |gs| ensures SameWindow(gs[i]) {
      if i < |fs| { assert SameWindow(fs[i]); }
    }
    forall i | 0 < i < |gs| ensures Boundary(gs, i) {
      if i < |fs| { assert Boundary(fs, i); }
    }
  }

  /** Every history can be cut. */
  lemma {:induction false} CutExists(h: seq<Obs>) returns (gs: seq<seq<Obs>>)
    ensures Cuts(gs, h)
  {
    gs := [];
    if h != [] {
      var front, o := h[..|h| - 1], h[|h| - 1];
      gs := CutExists(front);
      assert front + [o] == h;
      if gs != [] {
        assert SameWindow(gs[|gs| - 1]);
      }
      if gs != [] && WindowOf(gs[|gs| - 1][0].at) == WindowOf(o.at) {
        CutLonger(gs, front, o);
        gs := gs[..|gs| - 1] + [gs[|gs| - 1] + [o]];
      } else {
        CutNew(gs, front, o);
        gs := gs + [[o]];
      }
    }
  }

  // ----- Where the budget can be -----

  /** Never above the ceiling; and never below the floor if a growth step fits. */
  lemma {:induction false} FoldBounds(c: Controls, gs: seq<seq<Obs>>)
    requires c.Valid()
    ensures Fold(c, c.ceiling, gs) <= c.ceiling
    ensures c.Fits() ==> c.Floor() <= Fold(c, c.ceiling, gs)
  {
    if gs != [] { FoldBounds(c, gs[..|gs| - 1]); }
  }

  lemma {:induction false} AfterBounds(c: Controls, h: seq<Obs>)
    requires c.Valid()
    ensures -TWO_63 <= After(c, h).budget <= c.ceiling
    ensures c.Fits() ==> c.Floor() <= After(c, h).budget
  {
    if h != [] {
      AfterBounds(c, h[..|h| - 1]);
      ObserveBounds(c, After(c, h[..|h| - 1]), h[|h| - 1]);
    }
  }

  lemma AdjustedBounds(c: Controls, b: int, samples: seq<real>, failed: bool)
    requires c.Valid() && -TWO_63 <= b <= c.ceiling
    ensures -TWO_63 <= Adjusted(c, b, samples, failed) <= c.ceiling
    ensures c.Fits() && c.Floor() <= b ==> c.Floor() <= Adjusted(c, b, samples, failed)
  {
  }

  lemma ObserveBounds(c: Controls, b: Controller, o: Obs)
    requires c.Valid() && -TWO_63 <= b.budget <= c.ceiling
    ensures -TWO_63 <= Observe(c, b, o).budget <= c.ceiling
    ensures c.Fits() && c.Floor() <= b.budget ==> c.Floor() <= Observe(c, b, o).budget
  {
    AdjustedBounds(c, b.budget, b.samples, b.failed);
  }

  /** Two quiet windows: the first is clean, the second still open. */
  const TWO_WINDOWS: seq<Obs> := [Status(200, 0), Status(200, 60)]

  lemma TwoWindowsBudget(c: Controls)
    requires c.Valid()
    ensures After(c, TWO_WINDOWS).budget == Min(Wrap64(c.ceiling + GROWTH_STEP), c.ceiling)
    ensures Clean(c, [Status(200, 0)])
  {
    var g := [Status(200, 0)];
    assert TWO_WINDOWS[..1] == g && g[..0] == [];
    assert After(c, g) == Observe(c, Initial(c), Status(200, 0));
    assert After(c, TWO_WINDOWS) == Observe(c, After(c, g), Status(200, 60));
    assert WindowOf(0) == 0 && WindowOf(60) == 1;
  }

  lemma TwoWindowsCut()
    ensures Cuts([[Status(200, 0)], [Status(200, 60)]], TWO_WINDOWS)
  {
    var g, g' := [Status(200, 0)], [Status(200, 60)];
    CutNew([], [], Status(200, 0));
    assert [] + [g] == [g] && [] + g == g;
    CutNew([g], g, Status(200, 60));
    assert [g] + [g'] == [g, g'] && g + g' == TWO_WINDOWS;
  }

  lemma GrowthWraps(c: Controls)
    requires c.Valid()
    ensures Wrap64(c.ceiling + GROWTH_STEP)
         == if c.Fits() then c.ceiling + GROWTH_STEP else c.ceiling + GROWTH_STEP - TWO_64
  {
    if !c.Fits() { WrapSame(c.ceiling + GROWTH_STEP - TWO_64, 1); }
  }

  /** After every history the budget lies between the floor, which is positive, and the
      ceiling, so that it never switches the admission check off, if and only if the
      ceiling leaves room for one growth step in 64 bits. It never exceeds the ceiling. */
  lemma BudgetBounds(c: Controls)
    requires c.Valid()
    ensures (forall h :: 1 <= c.Floor() <= After(c, h).budget) <==> c.Fits()
    ensures forall h :: After(c, h).budget <= c.ceiling
  {
    forall h ensures After(c, h).budget <= c.ceiling && (c.Fits() ==> c.Floor() <= After(c, h).budget) {
      AfterBounds(c, h);
    }
    TwoWindowsBudget(c);
    GrowthWraps(c);
    assert !c.Fits() ==> After(c, TWO_WINDOWS).budget < 0;
  }

  /** The overflow is real: with the largest ceiling one clean window makes the budget
      negative, and the gate then admits against no budget at all. */
  lemma HugeCeilingDisables()
    ensures var c := Controls(TWO_63 - 1, 30);
            c.Valid() && After(c, TWO_WINDOWS).budget == GROWTH_STEP - 1 - TWO_63 < 0
  {
    var c := Controls(TWO_63 - 1, 30);
    TwoWindowsBudget(c);
    GrowthWraps(c);
  }

  predicate Bad(c: Controls, g: seq<Obs>) {
    AnyFailed(g) || Median(Samples(g)) > c.threshold as real
  }

  predicate Clean(c: Controls, g: seq<Obs>) {
    !Bad(c, g) && Median(Samples(g)) < CLEAN_MEDIAN
  }

  lemma ConcatFront(gs: seq<seq<Obs>>, more: seq<seq<Obs>>)
    requires more != []
    ensures (gs + more)[..|gs + more| - 1] == gs + more[..|more| - 1]
    ensures (gs + more)[|gs + more| - 1] == more[|more| - 1]
  {
  }

  lemma {:induction false} FoldConcat(c: Controls, budget: int, gs: seq<seq<Obs>>, more: seq<seq<Obs>>)
    requires c.Valid()
    ensures Fold(c, budget, gs + more) == Fold(c, Fold(c, budget, gs), more)
  {
    if more == [] {
      assert gs + more == gs;
    } else {
      FoldConcat(c, budget, gs, more[..|more| - 1]);
      ConcatFront(gs, more);
    }
  }

  /** The ceiling after k halvings, up to four. */
  function HalvedCeiling(c: Controls, k: nat): int {
    match k
    case 0 => c.ceiling
    case 1 => c.ceiling / 2
    case 2 => c.ceiling / 4
    case 3 => c.ceiling / 8
    case _ => c.ceiling / 16
  }

  lemma HalveOnce(c: Controls, b: int, k: nat)
    requires c.Valid() && k < 4 && b <= HalvedCeiling(c, k)
    ensures Quo(b, 2) <= HalvedCeiling(c, k + 1)
  {
  }

  lemma BadStep(c: Controls, budget: int, g: seq<Obs>)
    requires c.Valid() && Bad(c, g)
    ensures var b := Adjusted(c, budget, Samples(g), AnyFailed(g));
            c.Floor() <= b && (b == c.Floor() || b == Quo(budget, 2))
  {
  }

  /** k bad windows leave at most the ceiling halved k times, or the floor. */
  lemma {:induction false} BadWindows(c: Controls, budget: int, gs: seq<seq<Obs>>)
    requires c.Valid() && budget <= c.ceiling && |gs| <= 4 && forall i :: 0 <= i < |gs| ==> Bad(c, gs[i])
    ensures Fold(c, budget, gs) <= HalvedCeiling(c, |gs|) || Fold(c, budget, gs) == c.Floor()
    ensures gs != [] ==> c.Floor() <= Fold(c, budget, gs)
  {
    if gs != [] {
      var n := |gs| - 1;
      var before := Fold(c, budget, gs[..n]);
      BadWindows(c, budget, gs[..n]);
      BadStep(c, before, gs[n]);
      if before <= HalvedCeiling(c, n) { HalveOnce(c, before, n); }
    }
  }

  /** Four bad windows in a row reach the floor from anywhere, even from a wrapped budget. */
  lemma FourBadReachFloor(c: Controls, before: seq<seq<Obs>>, bad: seq<seq<Obs>>)
    requires c.Valid() && |bad| == 4 && forall i :: 0 <= i < 4 ==> Bad(c, bad[i])
    ensures Fold(c, c.ceiling, before + bad) == c.Floor()
  {
    FoldBounds(c, before);
    FoldConcat(c, c.ceiling, before, bad);
    BadWindows(c, Fold(c, c.ceiling, before), bad);
  }

  lemma CleanStep(c: Controls, budget: int, g: seq<Obs>)
    requires c.Valid() && c.Fits() && c.Floor() <= budget <= c.ceiling && Clean(c, g)
    ensures Adjusted(c, budget, Samples(g), AnyFailed(g)) == Min(budget + GROWTH_STEP, c.ceiling)
  {
  }

  /** k clean windows in a row win back at least 8192 tokens each, up to the ceiling. */
  lemma {:induction false} CleanWindows(c: Controls, budget: int, clean: seq<seq<Obs>>)
    requires c.Valid() && c.Fits() && c.Floor() <= budget <= c.ceiling
    requires forall i :: 0 <= i < |clean| ==> Clean(c, clean[i])
    ensures c.Floor() <= Fold(c, budget, clean) <= c.ceiling
    ensures Fold(c, budget, clean) == c.ceiling || Fold(c, budget, clean) >= c.Floor() + GROWTH_STEP * |clean|
  {
    if clean != [] {
      var n := |clean| - 1;
      CleanWindows(c, budget, clean[..n]);
      CleanStep(c, Fold(c, budget, clean[..n]), clean[n]);
    }
  }

  lemma CleanWindowsGrow(c: Controls, before: seq<seq<Obs>>, clean: seq<seq<Obs>>)
    requires c.Valid() && c.Fits() && forall i :: 0 <= i < |clean| ==> Clean(c, clean[i])
    ensures var b := Fold(c, c.ceiling, before + clean);
            b == c.ceiling || b >= c.Floor() + GROWTH_STEP * |clean|
  {
    FoldBounds(c, before);
    FoldConcat(c, c.ceiling, before, clean);
    CleanWindows(c, Fold(c, c.ceiling, before), clean);
  }

  lemma BudgetOf(c: Controls, h: seq<Obs>, gs: seq<seq<Obs>>)
    requires c.Valid() && h != [] && Cuts(gs, h)
    ensures gs != [] && After(c, h).budget == Fold(c, c.ceiling, gs[..|gs| - 1])
  {
    BudgetIsFold(c, h, gs);
  }

  /** The windows that are over, with the last k of them apart. */
  lemma LastWindows(gs: seq<seq<Obs>>, k: nat) returns (before: seq<seq<Obs>>, last: seq<seq<Obs>>)
    requires k < |gs|
    ensures gs[..|gs| - 1] == before + last && |last| == k
    ensures forall i :: 0 <= i < |last| ==> last[i] == gs[|gs| - 1 - k + i]
  {
    before, last := gs[..|gs| - 1 - k], gs[|gs| - 1 - k..|gs| - 1];
  }

  /** On histories: after four bad windows the next observation finds the floor. */
  lemma FloorAfterFourBad(c: Controls, h: seq<Obs>, gs: seq<seq<Obs>>)
    requires c.Valid() && h != [] && Cuts(gs, h) && |gs| >= 5
    requires forall i :: |gs| - 5 <= i < |gs| - 1 ==> Bad(c, gs[i])
    ensures After(c, h).budget == c.Floor()
  {
    BudgetOf(c, h, gs);
    var before, last := LastWindows(gs, 4);
    FourBadReachFloor(c, before, last);
  }

  /** Some response of the window was a failure. */
  ghost predicate SomeFailure(g: seq<Obs>) {
    exists i :: 0 <= i < |g| && g[i].Status? && g[i].status >= 500
  }

  lemma {:induction false} AnyFailedIff(g: seq<Obs>)
    ensures AnyFailed(g) <==> SomeFailure(g)
  {
    if g != [] {
      var n := |g| - 1;
      AnyFailedIff(g[..n]);
      if i :| 0 <= i < n && g[i].Status? && g[i].status >= 500 { assert g[..n][i] == g[i]; }
      if i :| 0 <= i < n && g[..n][i].Status? && g[..n][i].status >= 500 { assert g[i] == g[..n][i]; }
    }
  }

  /** Two clock readings since 1970 are in the same window if and only if they are in the
      same minute. */
  lemma WindowIsMinute(a: int, b: int)
    requires 0 <= a && 0 <= b
    ensures WindowOf(a) == WindowOf(b) <==> a - a % 60 == b - b % 60
  {
  }

  /** What one closed window does, on every history: with b the budget while it was open, a
      failure or a median above the threshold leaves half of b, but at least a sixteenth of
      the ceiling and at least 1; otherwise a median below 8 s leaves 8192 more, stored in
      64 bits, but at most the ceiling; and anything else leaves b. */
  lemma ClosedWindow(c: Controls, h: seq<Obs>, gs: seq<seq<Obs>>)
    requires c.Valid() && h != [] && Cuts(gs, h) && |gs| >= 2
    ensures var g := gs[|gs| - 2];
            var b, b' := After(c, Flat(gs[..|gs| - 1])).budget, After(c, h).budget;
            var floor := if c.ceiling < 16 then 1 else c.ceiling / 16;
            if SomeFailure(g) || Median(Samples(g)) > c.threshold as real then
              b' == if b < 2 * floor then floor else b / 2
            else if Median(Samples(g)) < 8.0 then
              b' == if b + 8192 >= TWO_63 then b + 8192 - TWO_64
                    else if b + 8192 > c.ceiling then c.ceiling else b + 8192
            else b' == b
  {
    var n := |gs| - 1;
    var front := gs[..n];
    CutFront(gs, h);
    assert Cuts(front, Flat(front)) && Flat(front) != [];
    BudgetOf(c, h, gs);
    BudgetOf(c, Flat(front), front);
    assert front[..n - 1] == gs[..n - 1] && front[n - 1] == gs[n - 1];
    AnyFailedIff(gs[n - 1]);
    AfterBounds(c, Flat(front));
    OneStep(c, After(c, Flat(front)).budget, gs[n - 1]);
  }

  lemma CutFront(gs: seq<seq<Obs>>, h: seq<Obs>)
    requires Cuts(gs, h) && |gs| >= 2
    ensures Cuts(gs[..|gs| - 1], Flat(gs[..|gs| - 1])) && Flat(gs[..|gs| - 1]) != []
  {
    var front := gs[..|gs| - 1];
    forall i | 0 <= i < |front| ensures SameWindow(front[i]) { assert SameWindow(gs[i]); }
    forall i | 0 < i < |front| ensures Boundary(front, i) { assert Boundary(gs, i); }
    FlatNonempty(front);
  }

  lemma OneStep(c: Controls, b: int, g: seq<Obs>)
    requires c.Valid() && b <= c.ceiling && -TWO_63 <= b
    ensures var b' := Adjusted(c, b, Samples(g), AnyFailed(g));
            var floor := if c.ceiling < 16 then 1 else c.ceiling / 16;
            if AnyFailed(g) || Median(Samples(g)) > c.threshold as real then
              b' == if b < 2 * floor then floor else b / 2
            else if Median(Samples(g)) < 8.0 then
              b' == if b + 8192 >= TWO_63 then b + 8192 - TWO_64
                    else if b + 8192 > c.ceiling then c.ceiling else b + 8192
            else b' == b
  {
    if b + 8192 >= TWO_63 { WrapSame(b + 8192 - TWO_64, 1); }
  }

  /** The k windows before the open one are clean. */
  ghost predicate EndsClean(c: Controls, h: seq<Obs>, gs: seq<seq<Obs>>, k: nat) {
    && h != [] && Cuts(gs, h) && k < |gs|
    && forall i :: |gs| - 1 - k <= i < |gs| - 1 ==> Clean(c, gs[i])
  }

  /** On histories: after k clean windows the next observation finds k steps won back. */
  lemma GrowthAfterClean(c: Controls, h: seq<Obs>, gs: seq<seq<Obs>>, k: nat)
    requires c.Valid() && c.Fits() && EndsClean(c, h, gs, k)
    ensures var b := After(c, h).budget;
            b == c.ceiling || b >= c.Floor() + GROWTH_STEP * k
  {
    BudgetOf(c, h, gs);
    var before, last := LastWindows(gs, k);
    CleanWindowsGrow(c, before, last);
  }

  /** Growth is what it should be on every history if and only if the ceiling leaves room
      for one step in 64 bits. */
  lemma GrowthIff(c: Controls)
    requires c.Valid()
    ensures (forall h, gs, k: nat :: EndsClean(c, h, gs, k) ==>
               After(c, h).budget == c.ceiling || After(c, h).budget >= c.Floor() + GROWTH_STEP * k)
        <==> c.Fits()
  {
    if c.Fits() {
      forall h, gs, k: nat | EndsClean(c, h, gs, k)
        ensures After(c, h).budget == c.ceiling || After(c, h).budget >= c.Floor() + GROWTH_STEP * k
      {
        GrowthAfterClean(c, h, gs, k);
      }
    } else {
      TwoWindowsBudget(c);
      TwoWindowsCut();
      GrowthWraps(c);
      assert EndsClean(c, TWO_WINDOWS, [[Status(200, 0)], [Status(200, 60)]], 1);
    }
  }
}
