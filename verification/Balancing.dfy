/** Choosing by load: the upstream pool's least-loaded scan over one snapshot, the model
    pool's scan that reads the live counters twice, and its overflow to a sibling. */
module Balancing {
  import opened GoInts
  import opened Selection

  function MinLoad(loads: seq<int>): int
    requires loads != []
  {
    if |loads| == 1 then loads[0]
    else
      var m := MinLoad(loads[..|loads| - 1]);
      if loads[|loads| - 1] < m then loads[|loads| - 1] else m
  }

  lemma {:induction false} MinLoadIsLeast(loads: seq<int>)
    requires loads != []
    ensures MinLoad(loads) in loads
    ensures forall i :: 0 <= i < |loads| ==> MinLoad(loads) <= loads[i]
  {
    if |loads| > 1 {
      var front := loads[..|loads| - 1];
      MinLoadIsLeast(front);
      assert forall x :: x in front ==> x in loads;
      assert forall i :: 0 <= i < |front| ==> front[i] == loads[i];
    }
  }

  /** The members whose load is `min`, in declaration order. */
  function Ties(idx: seq<nat>, loads: seq<int>, min: int): seq<nat>
    requires |idx| == |loads|
  {
    if idx == [] then []
    else
      var n := |idx| - 1;
      Ties(idx[..n], loads[..n], min) + if loads[n] == min then [idx[n]] else []
  }

  lemma {:induction false} TiesExactly(idx: seq<nat>, loads: seq<int>, min: int)
    requires |idx| == |loads|
    ensures var ties := Ties(idx, loads, min);
            && (ties == [] <==> min !in loads)
            && (forall k :: 0 <= k < |ties| ==>
                  exists i :: 0 <= i < |idx| && idx[i] == ties[k] && loads[i] == min)
  {
    if idx != [] {
      var n := |idx| - 1;
      TiesExactly(idx[..n], loads[..n], min);
      var ties, before := Ties(idx, loads, min), Ties(idx[..n], loads[..n], min);
      assert min in loads <==> min in loads[..n] || loads[n] == min by {
        assert loads == loads[..n] + [loads[n]];
      }
      forall k | 0 <= k < |ties|
        ensures exists i :: 0 <= i < |idx| && idx[i] == ties[k] && loads[i] == min
      {
        if k < |before| {
          var i :| 0 <= i < n && idx[..n][i] == before[k] && loads[..n][i] == min;
          assert idx[i] == ties[k];
        } else {
          assert idx[n] == ties[k];
        }
      }
    }
  }

  /** Every member with that load is among the ties, and no other. */
  lemma {:induction false} TiesComplete(idx: seq<nat>, loads: seq<int>, min: int, x: nat)
    requires |idx| == |loads|
    ensures x in Ties(idx, loads, min) <==> exists i :: 0 <= i < |idx| && idx[i] == x && loads[i] == min
  {
    if idx != [] {
      var n := |idx| - 1;
      TiesComplete(idx[..n], loads[..n], min, x);
      if i :| 0 <= i < |idx| && idx[i] == x && loads[i] == min {
        assert i < n ==> idx[..n][i] == x && loads[..n][i] == min;
      }
      if i :| 0 <= i < n && idx[..n][i] == x && loads[..n][i] == min {
        assert idx[i] == x && loads[i] == min;
      }
    }
  }

  /** Member x has a load no greater than any other's. */
  ghost predicate IsLeast(idx: seq<nat>, loads: seq<int>, x: nat)
    requires |idx| == |loads|
  {
    exists i :: 0 <= i < |idx| && idx[i] == x && forall j :: 0 <= j < |loads| ==> loads[i] <= loads[j]
  }

  /** The ties are exactly the members of least load. */
  lemma TiedIff(idx: seq<nat>, loads: seq<int>, x: nat)
    requires |idx| == |loads| && idx != []
    ensures x in Tied(idx, loads) <==> IsLeast(idx, loads, x)
  {
    var min := MinLoad(loads);
    MinLoadIsLeast(loads);
    TiesComplete(idx, loads, min, x);
    if i :| 0 <= i < |idx| && idx[i] == x && forall j :: 0 <= j < |loads| ==> loads[i] <= loads[j] {
      assert loads[i] == min;
    }
  }

  /** Distinct members tie as distinct members, so a tie number stands for one member. */
  lemma {:induction false} TiesDistinct(idx: seq<nat>, loads: seq<int>, min: int)
    requires |idx| == |loads|
    requires forall i, j :: 0 <= i < j < |idx| ==> idx[i] < idx[j]
    ensures var ties := Ties(idx, loads, min);
            forall i, j :: 0 <= i < j < |ties| ==> ties[i] < ties[j]
  {
    if idx != [] {
      var n := |idx| - 1;
      TiesDistinct(idx[..n], loads[..n], min);
      TiesExactly(idx[..n], loads[..n], min);
      var before, ties := Ties(idx[..n], loads[..n], min), Ties(idx, loads, min);
      forall k | 0 <= k < |before| ensures before[k] < idx[n] {
        var i :| 0 <= i < n && idx[..n][i] == before[k] && loads[..n][i] == min;
        assert idx[i] == before[k];
      }
      forall i, j | 0 <= i < j < |ties| ensures ties[i] < ties[j] {
        assert ties[i] == before[i];
      }
    }
  }

  /** The members tied for the least load of a snapshot. */
  function Tied(idx: seq<nat>, loads: seq<int>): seq<nat>
    requires |idx| == |loads| && idx != []
  {
    Ties(idx, loads, MinLoad(loads))
  }

  lemma TiedDistinct(idx: seq<nat>, loads: seq<int>, ties: seq<nat>)
    requires |idx| == |loads| && idx != [] && Tied(idx, loads) == ties
    requires forall i, j :: 0 <= i < j < |idx| ==> idx[i] < idx[j]
    ensures forall i, j :: 0 <= i < j < |ties| ==> ties[i] < ties[j]
  {
    var min := MinLoad(loads);
    assert Ties(idx, loads, min) == ties;
    TiesDistinct(idx, loads, min);
    forall i, j | 0 <= i < j < |ties| ensures ties[i] < ties[j] {
      assert Ties(idx, loads, min)[i] < Ties(idx, loads, min)[j];
    }
  }

  class UpstreamPool {
    /** The keyless round-robin counter, 64 bits wide. */
    var rr: int

    constructor ()
      ensures rr == 0
    {
      rr := 0;
    }

    /** `loads[i]` is what member `idx[i]`'s counter read, once each. */
    method LeastLoaded(idx: seq<nat>, loads: seq<int>) returns (member: nat)
      requires |idx| == |loads| && 0 <= rr < TWO_64
      modifies this
      ensures 0 <= rr < TWO_64
      ensures idx == [] ==> member == 0 && rr == old(rr)
      ensures idx != [] ==>
                var ties := Tied(idx, loads);
                && rr == WrapU64(old(rr) + 1)
                && ties != [] && member == ties[old(rr) % |ties|]
                && (forall x :: x in ties <==> IsLeast(idx, loads, x))
                && IsLeast(idx, loads, member)
    {
      if |idx| == 0 {
        return 0;
      }
      var min := loads[0];
      for i := 1 to |loads|
        invariant min == MinLoad(loads[..i])
      {
        assert loads[..i + 1][..i] == loads[..i];
        if loads[i] < min {
          min := loads[i];
        }
      }
      assert loads[..|loads|] == loads;
      var ties := [];
      for i := 0 to |loads|
        invariant ties == Ties(idx[..i], loads[..i], min)
      {
        assert idx[..i + 1][..i] == idx[..i] && loads[..i + 1][..i] == loads[..i];
        if loads[i] == min {
          ties := ties + [idx[i]];
        } else {
          assert ties + [] == ties;
        }
      }
      assert idx[..|idx|] == idx;
      MinLoadIsLeast(loads);
      TiesExactly(idx, loads, min);
      var before := rr;
      rr := WrapU64(rr + 1);
      member := ties[before % |ties|];
      forall x ensures x in ties <==> IsLeast(idx, loads, x) { TiedIff(idx, loads, x); }
    }

    /** Selections one after the other. */
    method SelectAll(rounds: seq<Round>, ghost least: set<nat>) returns (chosen: seq<nat>)
      requires 0 <= rr < TWO_64
      requires forall i :: 0 <= i < |rounds| ==> RoundOf(rounds[i], least)
      modifies this
      ensures 0 <= rr < TWO_64 && rr == WrapU64(old(rr) + |rounds|)
      ensures SameLeast(old(rr), rounds, least, chosen)
    {
      chosen := [];
      ghost var c := rr;
      for n := 0 to |rounds|
        invariant |chosen| == n && 0 <= rr < TWO_64 && rr == WrapU64(c + n)
        invariant forall i :: 0 <= i < n ==> Chooses(c, rounds[i], i, least, chosen[i])
      {
        assert RoundOf(rounds[n], least);
        NextValue(c, n);
        var member := LeastLoaded(rounds[n].idx, rounds[n].loads);
        chosen := chosen + [member];
      }
    }
  }

  lemma NextValue(c: nat, n: nat)
    requires c < TWO_64
    ensures WrapU64(WrapU64(c + n) + 1) == WrapU64(c + (n + 1))
  {
  }

  // ----- Fairness of the round robin -----

  /** How many of the n picks from counter value c on choose tie number j. */
  function Picks(c: nat, n: nat, k: nat, j: nat): nat
    requires 0 < k
  {
    if n == 0 then 0
    else Picks(c, n - 1, k, j) + if WrapU64(c + n - 1) % k == j then 1 else 0
  }

  lemma ModUnique(x: int, k: nat, d: int, r: nat)
    requires 0 < k && r < k && x == k * d + r && 0 <= x
    ensures x % k == r
  {
    var d', r' := x / k, x % k;
    assert x == k * d' + r';
    if d < d' { MulGap(k, d, d'); } else if d' < d { MulGap(k, d', d); }
  }

  lemma Nonnegative(x: nat, y: nat)
    ensures 0 <= x * y
  {
  }

  lemma MulGap(k: nat, a: int, b: int)
    requires a < b
    ensures k * a + k <= k * b
  {
    Nonnegative(k, b - a - 1);
    assert k * (b - a - 1) == k * b - k * a - k;
  }

  /** How far tie j lies ahead of counter value c on the circle of k ties. */
  function Ahead(c: nat, k: nat, j: nat): nat
    requires 0 < k && j < k
  {
    if j >= c % k then j - c % k else j + k - c % k
  }

  /** Within one turn of the cycle: the picks 0..n-1 from residue s on reach the ties
      s, s+1, ... around the circle. */
  lemma {:induction false} OneTurn(c: nat, n: nat, k: nat, j: nat)
    requires 0 < k && j < k && n <= k && c + n <= TWO_64
    ensures Picks(c, n, k, j) == if Ahead(c, k, j) < n then 1 else 0
  {
    if n > 0 {
      OneTurn(c, n - 1, k, j);
      TurnResidue(c, n - 1, k);
    }
  }

  lemma TurnResidue(c: nat, i: nat, k: nat)
    requires 0 < k && i < k
    ensures (c + i) % k == if c % k + i < k then c % k + i else c % k + i - k
  {
    var d, s := c / k, c % k;
    assert c == k * d + s;
    if s + i < k {
      ModUnique(c + i, k, d, s + i);
    } else {
      assert k * (d + 1) == k * d + k;
      ModUnique(c + i, k, d + 1, s + i - k);
    }
  }

  lemma {:induction false} PicksSplit(c: nat, a: nat, n: nat, k: nat, j: nat)
    requires 0 < k
    ensures Picks(c, a + n, k, j) == Picks(c, a, k, j) + Picks(c + a, n, k, j)
  {
    if n > 0 {
      PicksSplit(c, a, n - 1, k, j);
      assert a + n - 1 == a + (n - 1);
    }
  }

  /** Whole turns short of the wrap choose every tie once each. */
  lemma {:induction false} WholeTurns(c: nat, m: nat, k: nat, j: nat)
    requires 0 < k && j < k && c + k * m <= TWO_64
    ensures Picks(c, k * m, k, j) == m
  {
    if m > 0 {
      assert k * m == k * (m - 1) + k;
      Nonnegative(k, m - 1);
      WholeTurns(c, m - 1, k, j);
      PicksSplit(c, k * (m - 1), k, k, j);
      OneTurn(c + k * (m - 1), k, k, j);
    }
  }

  /** A part of a turn and then whole turns, short of the wrap. */
  lemma PartAndTurns(c: nat, r: nat, q: nat, k: nat, j: nat)
    requires 0 < k && j < k && r <= k && c + r + k * q <= TWO_64
    ensures Picks(c, r + k * q, k, j) == q + if Ahead(c, k, j) < r then 1 else 0
  {
    Nonnegative(k, q);
    PicksSplit(c, r, k * q, k, j);
    OneTurn(c, r, k, j);
    WholeTurns(c + r, q, k, j);
  }

  lemma StartsOver(i: nat)
    requires i < TWO_64
    ensures WrapU64(TWO_64 + i) == WrapU64(0 + i) == i
  {
  }

  /** Past the wrap the counter starts over. */
  lemma {:induction false} PicksWrapped(n: nat, k: nat, j: nat)
    requires 0 < k && n <= TWO_64
    ensures Picks(TWO_64, n, k, j) == Picks(0, n, k, j)
  {
    if n > 0 {
      PicksWrapped(n - 1, k, j);
      StartsOver(n - 1);
    }
  }

  /** Picks across the wrap: the part of a turn the wrap cuts off, r picks of the tie circle
      from c on, and the k - r picks of a turn from 0 on that make it up again. */
  lemma AcrossTheWrap(c: nat, m: nat, k: nat, j: nat, q: nat, r: nat)
    requires 0 < k && j < k && c < TWO_64 && TWO_64 < c + k * m <= 2 * TWO_64
    requires TWO_64 - c == k * q + r && 0 < r < k
    ensures Picks(c, k * m, k, j) == m - 1 + (if Ahead(c, k, j) < r then 1 else 0) + (if j < k - r then 1 else 0)
  {
    assert q < m by { if m <= q { MulLe(m, q, k); } }
    Nonnegative(k, q);
    var a, p := r + k * q, m - q - 1;
    assert k * m == k * q + k * p + k by { MulSplit(k, m, q, p); }
    Nonnegative(k, p);
    PicksSplit(c, a, k - r + k * p, k, j);
    PartAndTurns(c, r, q, k, j);
    PicksWrapped(k - r + k * p, k, j);
    PartAndTurns(0, k - r, p, k, j);
    assert Ahead(0, k, j) == j;
  }

  lemma MulSplit(k: nat, m: nat, q: nat, p: nat)
    requires m == q + p + 1
    ensures k * m == k * q + k * p + k
  {
  }

  /** The wrap does not disturb the cycle: it is not reached, or falls on a multiple of k,
      or on the end of a turn. */
  predicate WrapHarmless(c: nat, n: nat, k: nat)
    requires 0 < k
  {
    c + n <= TWO_64 || TWO_64 % k == 0 || (TWO_64 - c) % k == 0
  }

  /** While the same k members tie, k*m consecutive picks choose each of them exactly m
      times if and only if the wrap of the 64-bit counter does not disturb the cycle. */
  lemma RoundRobinFairIff(c: nat, m: nat, k: nat)
    requires 0 < k && c < TWO_64 && c + k * m <= 2 * TWO_64
    ensures (forall j: nat :: j < k ==> Picks(c, k * m, k, j) == m) <==> WrapHarmless(c, k * m, k)
  {
    if c + k * m <= TWO_64 {
      forall j: nat | j < k ensures Picks(c, k * m, k, j) == m { WholeTurns(c, m, k, j); }
    } else {
      var a := TWO_64 - c;
      var q, r := a / k, a % k;
      assert a == k * q + r;
      if r == 0 {
        forall j: nat | j < k ensures Picks(c, k * m, k, j) == m { TurnEndsAtWrap(c, m, k, j, q); }
      } else {
        CutAtWrap(c, k, q, r);
        CutTurn(c, m, k, q, r);
      }
    }
  }

  /** A turn cut by the wrap is fair exactly when its two parts fit together. */
  lemma CutTurn(c: nat, m: nat, k: nat, q: nat, r: nat)
    requires 0 < k && c < TWO_64 && TWO_64 < c + k * m <= 2 * TWO_64
    requires TWO_64 - c == k * q + r && 0 < r < k
    ensures (forall j: nat :: j < k ==> Picks(c, k * m, k, j) == m) <==> c % k == k - r
  {
    var s := c % k;
    if s == k - r {
      forall j: nat | j < k ensures Picks(c, k * m, k, j) == m { AcrossTheWrap(c, m, k, j, q, r); }
    } else {
      var j: nat := if s < k - r then s else 0;
      AcrossTheWrap(c, m, k, j, q, r);
      assert Picks(c, k * m, k, j) == m + 1;
    }
  }

  lemma TurnEndsAtWrap(c: nat, m: nat, k: nat, j: nat, q: nat)
    requires 0 < k && j < k && c < TWO_64 && TWO_64 < c + k * m <= 2 * TWO_64
    requires TWO_64 - c == k * q
    ensures Picks(c, k * m, k, j) == m
  {
    assert q < m by { if m <= q { MulLe(m, q, k); } }
    assert k * m == k * q + k * (m - q);
    Nonnegative(k, m - q);
    PicksSplit(c, k * q, k * (m - q), k, j);
    WholeTurns(c, q, k, j);
    PicksWrapped(k * (m - q), k, j);
    WholeTurns(0, m - q, k, j);
  }

  /** Where the wrap cuts the turn, seen from the counter value. */
  lemma CutAtWrap(c: nat, k: nat, q: nat, r: nat)
    requires 0 < r < k && c < TWO_64 && TWO_64 - c == k * q + r
    ensures TWO_64 % k == 0 <==> c % k == k - r
  {
    var d, s := c / k, c % k;
    assert c == k * d + s;
    if s == k - r {
      assert TWO_64 == k * (d + q + 1) + 0;
      ModUnique(TWO_64, k, d + q + 1, 0);
    }
    if TWO_64 % k == 0 {
      var n := TWO_64 / k;
      assert TWO_64 == k * n;
      assert c == k * (n - q - 1) + (k - r);
      ModUnique(c, k, n - q - 1, k - r);
    }
  }

  /** Three picks among three ties across the wrap. */
  lemma PicksAtWrap(j: nat)
    ensures Picks(TWO_64 - 1, 3, 3, j) == (if j == 0 then 2 else 0) + (if j == 1 then 1 else 0)
  {
    assert WrapU64(TWO_64 - 1) % 3 == 0 && WrapU64(TWO_64) % 3 == 0 && WrapU64(TWO_64 + 1) % 3 == 1;
    assert Picks(TWO_64 - 1, 1, 3, j) == Picks(TWO_64 - 1, 0, 3, j) + if j == 0 then 1 else 0;
    assert Picks(TWO_64 - 1, 2, 3, j) == Picks(TWO_64 - 1, 1, 3, j) + if j == 0 then 1 else 0;
    assert Picks(TWO_64 - 1, 3, 3, j) == Picks(TWO_64 - 1, 2, 3, j) + if j == 1 then 1 else 0;
  }

  /** At the wrap three members are not served alike: the first is picked twice in a
      row, the last not at all. */
  lemma WrapDisturbs()
    ensures Picks(TWO_64 - 1, 3, 3, 0) == 2 && Picks(TWO_64 - 1, 3, 3, 2) == 0
  {
    PicksAtWrap(0);
    PicksAtWrap(2);
  }

  /** One keyless selection: the eligible members and the loads read for them. */
  datatype Round = Round(idx: seq<nat>, loads: seq<int>)

  /** Selections among the same members of least load, one after the other from counter
      value c on, and the members they chose. */
  ghost predicate SameLeast(c: nat, rounds: seq<Round>, least: set<nat>, chosen: seq<nat>) {
    && |chosen| == |rounds|
    && forall i :: 0 <= i < |rounds| ==> Chooses(c, rounds[i], i, least, chosen[i])
  }

  /** A selection whose members of least load are these. */
  ghost predicate RoundOf(round: Round, least: set<nat>) {
    && |round.idx| == |round.loads| && round.idx != []
    && (forall k, l :: 0 <= k < l < |round.idx| ==> round.idx[k] < round.idx[l])
    && forall x: nat :: x in least <==> IsLeast(round.idx, round.loads, x)
  }

  /** The i-th selection is among these and chooses as `LeastLoaded` does. */
  ghost predicate Chooses(c: nat, round: Round, i: nat, least: set<nat>, member: nat) {
    && RoundOf(round, least)
    && var ties := Tied(round.idx, round.loads);
       ties != [] && member == ties[WrapU64(c + i) % |ties|]
  }

  ghost predicate Increasing(s: seq<nat>) {
    forall i, j :: 0 <= i < j < |s| ==> s[i] < s[j]
  }

  /** s holds exactly the elements of the set. */
  ghost predicate Arranges(s: seq<nat>, all: set<nat>) {
    forall x: nat :: x in all <==> x in s
  }

  lemma ButLast(s: seq<nat>, all: set<nat>)
    requires Increasing(s) && s != [] && Arranges(s, all)
    ensures s[|s| - 1] in all && Arranges(s[..|s| - 1], all - {s[|s| - 1]}) && Increasing(s[..|s| - 1])
  {
    var n := |s| - 1;
    assert s == s[..n] + [s[n]];
  }

  lemma {:induction false} ArrangedSize(s: seq<nat>, all: set<nat>)
    requires Increasing(s) && Arranges(s, all)
    ensures |s| == |all|
  {
    if s == [] {
      assert all == {};
    } else {
      ButLast(s, all);
      ArrangedSize(s[..|s| - 1], all - {s[|s| - 1]});
    }
  }

  lemma LastIsGreatest(s: seq<nat>, t: seq<nat>, all: set<nat>)
    requires Increasing(s) && Increasing(t) && s != [] && t != [] && Arranges(s, all) && Arranges(t, all)
    ensures s[|s| - 1] == t[|t| - 1]
  {
    assert s[|s| - 1] in all && t[|t| - 1] in all;
    assert s[|s| - 1] in t && t[|t| - 1] in s;
  }

  /** A set has one increasing arrangement. */
  lemma {:induction false} OneIncreasing(s: seq<nat>, t: seq<nat>, all: set<nat>)
    requires Increasing(s) && Increasing(t) && Arranges(s, all) && Arranges(t, all)
    ensures s == t
  {
    ArrangedSize(s, all);
    ArrangedSize(t, all);
    if s != [] {
      var n := |s| - 1;
      LastIsGreatest(s, t, all);
      ButLast(s, all);
      ButLast(t, all);
      OneIncreasing(s[..n], t[..n], all - {s[n]});
      assert s == s[..n] + [s[n]] && t == t[..n] + [t[n]];
    }
  }

  /** The ties of such a selection are the members of least load in order. */
  lemma TiesOf(round: Round, least: set<nat>)
    requires RoundOf(round, least)
    ensures var ties := Tied(round.idx, round.loads);
            Increasing(ties) && Arranges(ties, least)
  {
    var ties := Tied(round.idx, round.loads);
    TiedDistinct(round.idx, round.loads, ties);
    forall x: nat ensures x in least <==> x in ties { TiedIff(round.idx, round.loads, x); }
  }

  function Times(chosen: seq<nat>, member: nat): nat {
    if chosen == [] then 0
    else Times(chosen[..|chosen| - 1], member) + if chosen[|chosen| - 1] == member then 1 else 0
  }

  lemma SameLeastFront(c: nat, rounds: seq<Round>, least: set<nat>, chosen: seq<nat>)
    requires SameLeast(c, rounds, least, chosen) && rounds != []
    ensures SameLeast(c, rounds[..|rounds| - 1], least, chosen[..|rounds| - 1])
  {
    var n := |rounds| - 1;
    forall i | 0 <= i < n ensures Chooses(c, rounds[..n][i], i, least, chosen[..n][i]) {
      assert Chooses(c, rounds[i], i, least, chosen[i]);
    }
  }

  /** A selection chooses the j-th of them exactly when the counter is at its place. */
  lemma ChoosesPlace(c: nat, round: Round, i: nat, least: set<nat>, member: nat, order: seq<nat>, j: nat)
    requires Chooses(c, round, i, least, member)
    requires Increasing(order) && Arranges(order, least) && j < |order|
    ensures member == order[j] <==> WrapU64(c + i) % |order| == j
  {
    TiesOf(round, least);
    OneIncreasing(Tied(round.idx, round.loads), order, least);
    var place: nat := WrapU64(c + i) % |order|;
    assert place < j ==> order[place] < order[j];
    assert j < place ==> order[j] < order[place];
  }

  /** A member of least load is chosen as often as the counter comes to its place. */
  lemma {:induction false} TimesArePicks(
      c: nat, rounds: seq<Round>, least: set<nat>, chosen: seq<nat>, order: seq<nat>, j: nat)
    requires SameLeast(c, rounds, least, chosen)
    requires Increasing(order) && Arranges(order, least) && j < |order|
    ensures Times(chosen, order[j]) == Picks(c, |rounds|, |order|, j)
  {
    if rounds != [] {
      var n := |rounds| - 1;
      SameLeastFront(c, rounds, least, chosen);
      TimesArePicks(c, rounds[..n], least, chosen[..n], order, j);
      assert Chooses(c, rounds[n], n, least, chosen[n]);
      ChoosesPlace(c, rounds[n], n, least, chosen[n], order, j);
    }
  }

  /** While the same k members have the least load, k*m consecutive selections choose every
      one of them exactly m times, whatever the loads and whoever else is eligible, if and
      only if the wrap of the 64-bit counter does not disturb the cycle. */
  lemma LeastServedAlikeIff(c: nat, m: nat, rounds: seq<Round>, least: set<nat>, chosen: seq<nat>)
    requires SameLeast(c, rounds, least, chosen) && least != {} && |rounds| == |least| * m
    requires c < TWO_64 && c + |rounds| <= 2 * TWO_64
    ensures (forall x :: x in least ==> Times(chosen, x) == m) <==> WrapHarmless(c, |rounds|, |least|)
  {
    if rounds == [] {
      assert |least| > 0 && WrapHarmless(c, 0, |least|);
      assert m == 0 by { if m > 0 { MulLe(1, m, |least|); } }
      assert forall x :: Times(chosen, x) == 0;
    } else {
      var order := Tied(rounds[0].idx, rounds[0].loads);
      assert Chooses(c, rounds[0], 0, least, chosen[0]);
      TiesOf(rounds[0], least);
      ArrangedSize(order, least);
      OrderServedAlike(c, m, rounds, least, chosen, order);
    }
  }

  lemma OrderServedAlike(
      c: nat, m: nat, rounds: seq<Round>, least: set<nat>, chosen: seq<nat>, order: seq<nat>)
    requires SameLeast(c, rounds, least, chosen) && order != [] && |rounds| == |order| * m
    requires Increasing(order) && Arranges(order, least)
    requires c < TWO_64 && c + |rounds| <= 2 * TWO_64
    ensures (forall x :: x in least ==> Times(chosen, x) == m) <==> WrapHarmless(c, |rounds|, |order|)
  {
    var k, n := |order|, |rounds|;
    FairIff(c, m, k, n);
    if x :| x in least && Times(chosen, x) != m {
      var j: nat :| j < k && order[j] == x;
      TimesArePicks(c, rounds, least, chosen, order, j);
      assert Picks(c, n, k, j) != m;
    } else {
      forall j: nat | j < k ensures Picks(c, n, k, j) == m {
        TimesArePicks(c, rounds, least, chosen, order, j);
        assert order[j] in least;
      }
    }
  }

  lemma FairIff(c: nat, m: nat, k: nat, n: nat)
    requires 0 < k && n == k * m && c < TWO_64 && c + n <= 2 * TWO_64
    ensures (forall j: nat :: j < k ==> Picks(c, n, k, j) == m) <==> WrapHarmless(c, n, k)
  {
    RoundRobinFairIff(c, m, k);
  }

  // ----- The model pool -----

  /** The scan that reads every live load twice: once for the minimum, once for the
      ties. `None` is the run-time panic of a division by zero ties. */
  method ModelLeastLoaded(idx: seq<nat>, first: seq<int>, second: seq<int>, rr: int)
    returns (member: Option<nat>)
    requires |idx| == |first| == |second| && 0 <= rr < TWO_64
    ensures idx == [] ==> member == Some(0)
    ensures idx != [] ==> (member == None <==> MinLoad(first) !in second)
    ensures idx != [] && member.Some? ==>
              var ties := Ties(idx, second, MinLoad(first));
              && ties != [] && member.value == ties[rr % |ties|]
              && (forall x :: x in ties <==> HasLoad(idx, second, x, MinLoad(first)))
              && HasLoad(idx, second, member.value, MinLoad(first))
    ensures idx != [] ==> MinLoad(first) in first && forall j :: 0 <= j < |first| ==> MinLoad(first) <= first[j]
  {
    if |idx| == 0 {
      return Some(0);
    }
    MinLoadIsLeast(first);
    var min := first[0];
    for i := 1 to |idx|
      invariant min == MinLoad(first[..i])
    {
      assert first[..i + 1][..i] == first[..i];
      if first[i] < min {
        min := first[i];
      }
    }
    assert first[..|first|] == first;
    var ties := [];
    for i := 0 to |idx|
      invariant ties == Ties(idx[..i], second[..i], min)
    {
      assert idx[..i + 1][..i] == idx[..i] && second[..i + 1][..i] == second[..i];
      if second[i] == min {
        ties := ties + [idx[i]];
      } else {
        assert ties + [] == ties;
      }
    }
    assert idx[..|idx|] == idx && second[..|second|] == second;
    TiesExactly(idx, second, min);
    if |ties| == 0 {
      return None;
    }
    forall x ensures x in ties <==> HasLoad(idx, second, x, min) { TiesComplete(idx, second, min, x); }
    return Some(ties[rr % |ties|]);
  }

  /** Member x was read with this load. */
  ghost predicate HasLoad(idx: seq<nat>, loads: seq<int>, x: nat, load: int)
    requires |idx| == |loads|
  {
    exists i :: 0 <= i < |idx| && idx[i] == x && loads[i] == load
  }

  /** One request starting between the two reads of an idle one-member pool is enough
      to leave no tie at all. */
  lemma MovingLoadsMayNotTie()
    ensures Ties([0], [1], MinLoad([0])) == []
  {
  }

  /** With loads that hold still between the two reads there is always a tie. */
  lemma SteadyLoadsTie(idx: seq<nat>, loads: seq<int>)
    requires |idx| == |loads| && idx != []
    ensures Ties(idx, loads, MinLoad(loads)) != []
  {
    MinLoadIsLeast(loads);
    TiesExactly(idx, loads, MinLoad(loads));
  }

  /** The saturated member's stand-in: the least-loaded other eligible member, the first
      declared among equals, or itself when it has no eligible sibling. */
  method OverflowTarget(idx: seq<nat>, loads: seq<int>, excluded: nat) returns (member: nat)
    requires |idx| == |loads|
    requires forall i, j :: 0 <= i < j < |idx| ==> idx[i] < idx[j]
    ensures (member == excluded) <==> (forall i :: 0 <= i < |idx| ==> idx[i] == excluded)
    ensures member != excluded ==> IsStandIn(idx, loads, excluded, member)
  {
    member := excluded;
    var minLoad := 0;
    ghost var at := 0;
    for k := 0 to |idx|
      invariant member == excluded <==> (forall i :: 0 <= i < k ==> idx[i] == excluded)
      invariant member != excluded ==>
                  && 0 <= at < k && idx[at] == member && loads[at] == minLoad
                  && (forall j :: 0 <= j < k && idx[j] != excluded ==> minLoad <= loads[j])
                  && (forall j :: 0 <= j < at && idx[j] != excluded ==> minLoad < loads[j])
    {
      if idx[k] != excluded {
        if member == excluded || loads[k] < minLoad {
          member := idx[k];
          minLoad := loads[k];
          at := k;
        }
      }
    }
  }

  /** The member a session's ring hash is pinned to; `None` is the panic on a stored total
      of zero. */
  function Pinned(weights: seq<int>, idx: seq<nat>, hash: int): Option<nat>
    requires forall i :: 0 <= i < |idx| ==> idx[i] < |weights|
  {
    if idx == [] then Some(0)
    else
      var total := WrapU64(RingSum(weights, idx, |idx|));
      if total == 0 then None else Some(idx[RingPick(weights, idx, hash % total)])
  }

  /** The least-loaded other member, the first declared among equals. */
  ghost predicate IsStandIn(idx: seq<nat>, loads: seq<int>, excluded: nat, member: nat)
    requires |idx| == |loads|
  {
    exists i :: 0 <= i < |idx| && idx[i] == member && member != excluded
      && (forall j :: 0 <= j < |idx| && idx[j] != excluded ==> loads[i] <= loads[j])
      && (forall j :: 0 <= j < i && idx[j] != excluded ==> loads[i] < loads[j])
  }

  class ModelPool {
    const weights: seq<int>
    const overflow: seq<bool>
    var rr: int

    ghost predicate Valid()
      reads this
    {
      0 < |weights| == |overflow| && 0 <= rr < TWO_64
    }

    constructor (weights: seq<int>, overflow: seq<bool>)
      requires 0 < |weights| == |overflow|
      ensures Valid() && this.weights == weights && this.overflow == overflow && rr == 0
    {
      this.weights, this.overflow, rr := weights, overflow, 0;
    }

    /** Where a request goes. `hash` is None for a request without a session; `idx` is the
        eligible set and `first`, `second` the loads as the first selection reads them,
        `saturated` what the members report, and `later`, `loads` what the overflow scan
        reads afterwards. `None` is a panic. */
    method Resolve(hash: Option<int>, idx: seq<nat>, first: seq<int>, second: seq<int>,
                   saturated: seq<bool>, later: seq<nat>, loads: seq<int>)
      returns (member: Option<nat>)
      requires Valid() && |idx| == |first| == |second| && |saturated| == |weights| && |later| == |loads|
      requires forall i :: 0 <= i < |idx| ==> idx[i] < |weights|
      requires forall i, j :: 0 <= i < j < |later| ==> later[i] < later[j]
      requires hash.Some? ==> 0 <= hash.value < TWO_64
      modifies this
      ensures Valid()
      ensures rr == if hash.None? && idx != [] then WrapU64(old(rr) + 1) else old(rr)
      ensures hash.None? && idx == [] ==> member == Some(0)
      ensures hash.None? && idx != [] ==> (member == None <==> MinLoad(first) !in second)
      ensures hash.None? && idx != [] && member.Some? ==>
                var ties := Ties(idx, second, MinLoad(first));
                && ties != [] && member.value == ties[old(rr) % |ties|]
                && (forall x :: x in ties <==> HasLoad(idx, second, x, MinLoad(first)))
      ensures hash.Some? ==>
                var pinned := Pinned(weights, idx, hash.value);
                if pinned.Some? && overflow[pinned.value] && saturated[pinned.value] then
                  member.Some? && (IsStandIn(later, loads, pinned.value, member.value)
                    || (member == pinned && forall i :: 0 <= i < |later| ==> later[i] == pinned.value))
                else member == pinned
    {
      if hash.None? {
        member := ModelLeastLoaded(idx, first, second, rr);
        if idx != [] {
          rr := WrapU64(rr + 1);
        }
        return;
      }
      member := PinSlot(weights, idx, hash.value);
      if member.Some? && overflow[member.value] && saturated[member.value] {
        var target := OverflowTarget(later, loads, member.value);
        member := Some(target);
      }
    }
  }
}
