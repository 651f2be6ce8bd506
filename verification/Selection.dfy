/** How a pool chooses among its members: the weighted ring for a pinned session, the
    least-loaded scan with round-robin ties for a keyless request, and a model pool's
    overflow. The hash is any 64-bit value; loads are what the counters returned. */
module Selection {
  import opened GoInts

  // ----- Eligible members -----

  function EligibleBelow(eligible: seq<bool>, n: nat): seq<nat>
    requires n <= |eligible|
  {
    if n == 0 then []
    else EligibleBelow(eligible, n - 1) + if eligible[n - 1] then [n - 1] else []
  }

  method EligibleIndices(eligible: seq<bool>) returns (idx: seq<nat>)
    ensures idx == EligibleBelow(eligible, |eligible|)
  {
    idx := [];
    for i := 0 to |eligible|
      invariant idx == EligibleBelow(eligible, i)
    {
      if eligible[i] {
        idx := idx + [i];
      } else {
        assert idx + [] == idx;
      }
    }
  }

  /** Exactly the eligible members, in declaration order, each once. */
  lemma {:induction false} EligibleExactly(eligible: seq<bool>, n: nat)
    requires n <= |eligible|
    ensures var idx := EligibleBelow(eligible, n);
            && (forall i :: 0 <= i < n ==> (eligible[i] <==> i in idx))
            && (forall k :: 0 <= k < |idx| ==> idx[k] < n)
            && (forall j, k :: 0 <= j < k < |idx| ==> idx[j] < idx[k])
  {
    if n > 0 {
      EligibleExactly(eligible, n - 1);
      var before, idx := EligibleBelow(eligible, n - 1), EligibleBelow(eligible, n);
      forall i | 0 <= i < n ensures eligible[i] <==> i in idx {
        if i < n - 1 { assert i in before <==> i in idx; }
      }
    }
  }

  // ----- The weighted ring -----

  /** Total weight of the first k eligible members. */
  function RingSum(weights: seq<int>, idx: seq<nat>, k: nat): int
    requires k <= |idx| && forall i :: 0 <= i < |idx| ==> idx[i] < |weights|
  {
    if k == 0 then 0 else RingSum(weights, idx, k - 1) + weights[idx[k - 1]]
  }

  ghost predicate RingOk(weights: seq<int>, idx: seq<nat>) {
    && (forall i :: 0 <= i < |idx| ==> idx[i] < |weights|)
    && (forall i :: 0 <= i < |weights| ==> 0 < weights[i])
  }

  /** The ring position of a slot, as the unsigned comparison of stored sums finds it:
      the first one whose stored sum exceeds the slot, from position `from` on; the last
      position if there is none. */
  function RingFind(weights: seq<int>, idx: seq<nat>, slot: int, from: nat): nat
    requires from <= |idx| && idx != [] && forall i :: 0 <= i < |idx| ==> idx[i] < |weights|
    ensures RingFind(weights, idx, slot, from) < |idx|
    decreases |idx| - from
  {
    if from == |idx| then |idx| - 1
    else if WrapU64(RingSum(weights, idx, from + 1)) > slot then from
    else RingFind(weights, idx, slot, from + 1)
  }

  function RingPick(weights: seq<int>, idx: seq<nat>, slot: int): nat
    requires idx != [] && forall i :: 0 <= i < |idx| ==> idx[i] < |weights|
  {
    RingFind(weights, idx, slot, 0)
  }

  /** Two's complement: the signed running total and the mathematical one are the same
      unsigned number. */
  lemma StoredSum(x: int)
    ensures WrapU64(Wrap64(x)) == WrapU64(x)
  {
    assert Wrap64(x) == x - Laps(x) * TWO_64;
  }

  lemma StoredAdd(x: int, w: int)
    ensures Wrap64(Wrap64(x) + w) == Wrap64(x + w)
  {
    WrapSame(x + w - Laps(x) * TWO_64, Laps(x));
  }

  /** The member a session hash is pinned to. `None` is the run-time panic of a division
      by a stored total of zero. */
  method PinSlot(weights: seq<int>, idx: seq<nat>, hash: int) returns (member: Option<nat>)
    requires forall i :: 0 <= i < |idx| ==> idx[i] < |weights|
    requires 0 <= hash < TWO_64
    ensures idx == [] ==> member == Some(0)
    ensures idx != [] ==>
              var total := WrapU64(RingSum(weights, idx, |idx|));
              member == if total == 0 then None
                        else Some(idx[RingPick(weights, idx, hash % total)])
  {
    if |idx| == 0 {
      return Some(0);
    }
    var total := 0;
    var cumulative: seq<int> := [];
    for i := 0 to |idx|
      invariant |cumulative| == i && total == Wrap64(RingSum(weights, idx, i))
      invariant forall k :: 0 <= k < i ==> cumulative[k] == Wrap64(RingSum(weights, idx, k + 1))
    {
      StoredAdd(RingSum(weights, idx, i), weights[idx[i]]);
      total := Wrap64(total + weights[idx[i]]);
      cumulative := cumulative + [total];
    }
    StoredSum(RingSum(weights, idx, |idx|));
    if WrapU64(total) == 0 {
      return None;
    }
    var slot := hash % WrapU64(total);
    for i := 0 to |idx|
      invariant RingPick(weights, idx, slot) == RingFind(weights, idx, slot, i)
    {
      StoredSum(RingSum(weights, idx, i + 1));
      if WrapU64(cumulative[i]) > slot {
        return Some(idx[i]);
      }
    }
    return Some(idx[|idx| - 1]);
  }

  lemma {:induction false} RingSumGrows(weights: seq<int>, idx: seq<nat>, j: nat, k: nat)
    requires RingOk(weights, idx) && j <= k <= |idx|
    ensures 0 <= RingSum(weights, idx, j) <= RingSum(weights, idx, k)
    ensures j < k ==> RingSum(weights, idx, j) < RingSum(weights, idx, k)
    decreases k
  {
    if k > 0 {
      if j == k { RingSumGrows(weights, idx, j - 1, k - 1); } else { RingSumGrows(weights, idx, j, k - 1); }
    }
  }

  /** While the total fits 64 bits, a slot belongs to the one position whose weight
      interval contains it, and a position is always found before the fallback. */
  lemma {:induction false} RingInterval(weights: seq<int>, idx: seq<nat>, slot: int, from: nat)
    requires RingOk(weights, idx) && idx != [] && from < |idx|
    requires RingSum(weights, idx, |idx|) < TWO_64
    requires RingSum(weights, idx, from) <= slot < RingSum(weights, idx, |idx|)
    ensures var p := RingFind(weights, idx, slot, from);
            RingSum(weights, idx, p) <= slot < RingSum(weights, idx, p + 1)
    decreases |idx| - from
  {
    RingSumGrows(weights, idx, from + 1, |idx|);
    if RingSum(weights, idx, from + 1) <= slot {
      RingInterval(weights, idx, slot, from + 1);
    }
  }

  /** While the total fits 64 bits, every hash is pinned to the eligible member whose
      interval of the ring, in declaration order, contains the hash modulo the total. */
  lemma RingSlot(weights: seq<int>, idx: seq<nat>, hash: int)
    requires RingOk(weights, idx) && idx != [] && 0 <= hash && RingSum(weights, idx, |idx|) < TWO_64
    ensures var total := RingSum(weights, idx, |idx|);
            && total > 0
            && var p := RingPick(weights, idx, hash % total);
               RingSum(weights, idx, p) <= hash % total < RingSum(weights, idx, p) + weights[idx[p]]
  {
    RingSumGrows(weights, idx, 0, |idx|);
    RingInterval(weights, idx, hash % RingSum(weights, idx, |idx|), 0);
  }

  /** How many of the first n slots lead to a position. */
  function Share(weights: seq<int>, idx: seq<nat>, pos: nat, n: nat): nat
    requires idx != [] && forall i :: 0 <= i < |idx| ==> idx[i] < |weights|
  {
    if n == 0 then 0
    else Share(weights, idx, pos, n - 1) + if RingPick(weights, idx, n - 1) == pos then 1 else 0
  }

  lemma {:induction false} ShareIsInterval(weights: seq<int>, idx: seq<nat>, pos: nat, n: nat)
    requires RingOk(weights, idx) && pos < |idx|
    requires RingSum(weights, idx, |idx|) < TWO_64 && n <= RingSum(weights, idx, |idx|)
    ensures Share(weights, idx, pos, n)
         == Min(n, RingSum(weights, idx, pos + 1)) - Min(n, RingSum(weights, idx, pos))
  {
    RingSumGrows(weights, idx, pos, pos + 1);
    if n > 0 {
      ShareIsInterval(weights, idx, pos, n - 1);
      var p := RingPick(weights, idx, n - 1);
      RingInterval(weights, idx, n - 1, 0);
      if p < pos { RingSumGrows(weights, idx, p + 1, pos); }
      if pos < p { RingSumGrows(weights, idx, pos + 1, p); }
    }
  }

  /** Sum of the shares of the first k positions. */
  function Shares(weights: seq<int>, idx: seq<nat>, k: nat, n: nat): nat
    requires idx != [] && forall i :: 0 <= i < |idx| ==> idx[i] < |weights|
  {
    if k == 0 then 0 else Shares(weights, idx, k - 1, n) + Share(weights, idx, k - 1, n)
  }

  lemma {:induction false} SharesStep(weights: seq<int>, idx: seq<nat>, k: nat, n: nat)
    requires idx != [] && (forall i :: 0 <= i < |idx| ==> idx[i] < |weights|) && 0 < n
    ensures Shares(weights, idx, k, n)
         == Shares(weights, idx, k, n - 1) + if RingPick(weights, idx, n - 1) < k then 1 else 0
  {
    if k > 0 { SharesStep(weights, idx, k - 1, n); }
  }

  /** Every slot leads to exactly one position. */
  lemma {:induction false} SharesTotal(weights: seq<int>, idx: seq<nat>, n: nat)
    requires idx != [] && forall i :: 0 <= i < |idx| ==> idx[i] < |weights|
    ensures Shares(weights, idx, |idx|, n) == n
  {
    if n > 0 {
      SharesTotal(weights, idx, n - 1);
      SharesStep(weights, idx, |idx|, n);
    } else {
      SharesNone(weights, idx, |idx|);
    }
  }

  lemma {:induction false} SharesNone(weights: seq<int>, idx: seq<nat>, k: nat)
    requires idx != [] && forall i :: 0 <= i < |idx| ==> idx[i] < |weights|
    ensures Shares(weights, idx, k, 0) == 0
  {
    if k > 0 { SharesNone(weights, idx, k - 1); }
  }

  /** The ring over the stored total gives every eligible member exactly its weight. */
  ghost predicate RingExact(weights: seq<int>, idx: seq<nat>)
    requires idx != [] && forall i :: 0 <= i < |idx| ==> idx[i] < |weights|
  {
    var total := WrapU64(RingSum(weights, idx, |idx|));
    && total > 0
    && forall p :: 0 <= p < |idx| ==> Share(weights, idx, p, total) == weights[idx[p]]
  }

  lemma {:induction false} ExactSharesSum(weights: seq<int>, idx: seq<nat>, k: nat)
    requires RingOk(weights, idx) && idx != [] && k <= |idx| && RingExact(weights, idx)
    ensures Shares(weights, idx, k, WrapU64(RingSum(weights, idx, |idx|))) == RingSum(weights, idx, k)
  {
    if k > 0 { ExactSharesSum(weights, idx, k - 1); }
  }

  /** For positive weights the ring is exact — each eligible member gets its weight's
      share of the slots, never a division by zero — if and only if the total weight
      fits 64 bits. */
  lemma RingExactIff(weights: seq<int>, idx: seq<nat>)
    requires RingOk(weights, idx) && idx != []
    ensures RingExact(weights, idx) <==> RingSum(weights, idx, |idx|) < TWO_64
  {
    var sum := RingSum(weights, idx, |idx|);
    RingSumGrows(weights, idx, 0, |idx|);
    if sum < TWO_64 {
      forall p | 0 <= p < |idx| ensures Share(weights, idx, p, sum) == weights[idx[p]] {
        ShareIsInterval(weights, idx, p, sum);
        RingSumGrows(weights, idx, p, p + 1);
        RingSumGrows(weights, idx, p + 1, |idx|);
      }
    }
    if RingExact(weights, idx) {
      ExactSharesSum(weights, idx, |idx|);
      SharesTotal(weights, idx, WrapU64(sum));
    }
  }

  /** A slot below the last stored sum is found before the scan falls through. */
  lemma {:induction false} FoundBeforeEnd(weights: seq<int>, idx: seq<nat>, slot: int, from: nat)
    requires idx != [] && (forall i :: 0 <= i < |idx| ==> idx[i] < |weights|) && from < |idx|
    requires slot < WrapU64(RingSum(weights, idx, |idx|))
    ensures WrapU64(RingSum(weights, idx, RingFind(weights, idx, slot, from) + 1)) > slot
    decreases |idx| - from
  {
    if from + 1 < |idx| && WrapU64(RingSum(weights, idx, from + 1)) <= slot {
      FoundBeforeEnd(weights, idx, slot, from + 1);
    }
  }

  /** The fallback at the end of the ring scan is never taken, whatever the weights and
      however their sum is stored: unless the total is stored as zero, which panics first,
      the stored sum of the chosen position really exceeds the slot. */
  lemma FallbackUnreachable(weights: seq<int>, idx: seq<nat>, hash: int)
    requires idx != [] && forall i :: 0 <= i < |idx| ==> idx[i] < |weights|
    ensures var total := WrapU64(RingSum(weights, idx, |idx|));
            total > 0 ==>
              WrapU64(RingSum(weights, idx, RingPick(weights, idx, hash % total) + 1)) > hash % total
  {
    var total := WrapU64(RingSum(weights, idx, |idx|));
    if total > 0 {
      FoundBeforeEnd(weights, idx, hash % total, 0);
    }
  }

  /** The overflow is real: four members of weight 2^62 divide by zero. */
  lemma HugeWeightsPanic()
    ensures var w := TWO_63 / 2;
            var weights, idx := [w, w, w, w], [0, 1, 2, 3];
            RingOk(weights, idx) && WrapU64(RingSum(weights, idx, 4)) == 0
  {
    var w := TWO_63 / 2;
    var weights, idx: seq<nat> := [w, w, w, w], [0, 1, 2, 3];
    assert RingSum(weights, idx, 1) == w;
    assert RingSum(weights, idx, 2) == 2 * w;
    assert RingSum(weights, idx, 3) == 3 * w;
  }
}
