/** The upstream pool over its shared host limiters and member limiters, as a step
    system over any number of requests, members, pools and hosts. A request takes its
    host slot first and its member slot second, may queue at either, and while queued
    for a member may be handed back to its pool. Each event is one channel operation
    or one atomic update with the counter beside it; every event sequence is a run, and
    an event that is not enabled changes nothing. */
module LimiterStack {

  import opened GoInts
  import opened Totals

  /** One member: the host it resolves to and its own cap (0 or less: unlimited). */
  datatype Member = Member(host: nat, cap: int)

  datatype Pool = Pool(members: seq<nat>, windowed: bool)

  datatype Topology = Topology(hostCap: seq<int>, members: seq<Member>, pools: seq<Pool>) {
    ghost predicate Valid() {
      && (forall m :: 0 <= m < |members| ==> members[m].host < |hostCap|)
      && (forall p :: 0 <= p < |pools| ==> PoolOk(pools[p]))
    }

    ghost predicate PoolOk(p: Pool) {
      p.members != [] && forall i :: 0 <= i < |p.members| ==> p.members[i] < |members|
    }

    function Host(m: nat): nat {
      if m < |members| then members[m].host else 0
    }

    function HostCap(m: nat): int {
      if Host(m) < |hostCap| then hostCap[Host(m)] else 0
    }

    function Cap(m: nat): int {
      if m < |members| then members[m].cap else 0
    }
  }

  /** The counters of the stack: semaphore occupancies and waiter counts. */
  datatype Counter =
    | HostSem(host: nat)
    | HostWaiters(member: nat)
    | MemberSem(member: nat)
    | MemberWaiters(member: nat)

  datatype Outcome = Forwarded | Refused | Dropped

  datatype Exit = Finish(outcome: Outcome) | Again

  datatype Phase =
    | Selecting
    | Picking
    | AtHost(m: nat)
    | HostQueued(m: nat)
    | AtMember(m: nat)
    | MemberQueued(m: nat, stale: bool)
    | Serving(m: nat)
    | Unwinding(m: nat, exit: Exit)
    | Done(outcome: Outcome)

  /** One request. `seen` is the eligible set its member was chosen from, `chosenAt` and
      `arrivedAt` the pool's change count then and at arrival. */
  datatype Request = Request(
    pool: nat,
    phase: Phase,
    gone: bool,
    seen: seq<nat>,
    arrivedAt: nat,
    chosenAt: nat,
    bounces: nat,
    outcomes: seq<Outcome>)

  /** The eligible members of a pool, and how often that set has changed. */
  datatype Eligibility = Eligibility(members: seq<nat>, changes: nat)

  datatype System = System(
    requests: seq<Request>,
    counters: map<Counter, int>,
    eligible: seq<Eligibility>)

  /** What one request can do, or have done to it. */
  datatype Act =
    | Disconnect       // its client goes away
    | Snapshot         // top of the pool's loop: read the eligible set
    | Pick(m: nat)     // choose a member
    | TryHost          // first, non-blocking attempt on the host semaphore
    | AcquireHost      // a queued request gets the host slot
    | HostTimeout
    | HostDrop
    | TryMember        // first, non-blocking attempt on the member semaphore
    | AcquireMember
    | MemberTimeout
    | MemberDrop
    | Poll             // the re-check goroutine compares eligible sets
    | Bounce           // hand the request back to the pool
    | Return           // the upstream round trip ends
    | Unwind           // the host slot is released on the way out

  datatype Event =
    | Arrive(pool: nat)
    | SetEligible(pool: nat, members: seq<nat>)
    | Do(r: nat, act: Act)

  function Get(c: map<Counter, int>, k: Counter): int {
    if k in c then c[k] else 0
  }

  function Add(c: map<Counter, int>, k: Counter, d: int): map<Counter, int> {
    c[k := Get(c, k) + d]
  }

  function Start(t: Topology, eligible: seq<seq<nat>>): System {
    System([], map[], seq(|t.pools|, i => Eligibility(if 0 <= i < |eligible| then eligible[i] else [], 0)))
  }

  predicate HostFree(t: Topology, s: System, m: nat) {
    t.HostCap(m) <= 0 || Get(s.counters, HostSem(t.Host(m))) < t.HostCap(m)
  }

  predicate MemberFree(t: Topology, s: System, m: nat) {
    Get(s.counters, MemberSem(m)) < t.Cap(m)
  }

  function Put(s: System, r: nat, q: Request, counters: map<Counter, int>): System
    requires r < |s.requests|
  {
    s.(requests := s.requests[r := q], counters := counters)
  }

  /** The member index a selection may return: an eligible one, or the first when none
      is eligible or the client is already gone. */
  predicate MayPick(t: Topology, s: System, q: Request, m: nat) {
    && q.pool < |t.pools| && q.pool < |s.eligible|
    && m < |t.members|
    && (m in s.eligible[q.pool].members
        || ((s.eligible[q.pool].members == [] || q.gone)
            && t.pools[q.pool].members != [] && m == t.pools[q.pool].members[0]))
  }

  predicate Stale(t: Topology, s: System, q: Request) {
    && q.pool < |t.pools| && q.pool < |s.eligible| && t.pools[q.pool].windowed
    && (s.eligible[q.pool].members != q.seen || q.gone)
  }

  function Next(t: Topology, s: System, e: Event): System {
    match e
    case Arrive(pool) =>
      if pool < |t.pools| && pool < |s.eligible| then
        var c := s.eligible[pool].changes;
        s.(requests := s.requests + [Request(pool, Selecting, false, [], c, c, 0, [])])
      else s
    case SetEligible(pool, members) =>
      if pool < |s.eligible| && members != s.eligible[pool].members
         && (forall m :: m in members ==> m < |t.members|) then
        s.(eligible := s.eligible[pool := Eligibility(members, s.eligible[pool].changes + 1)])
      else s
    case Do(r, act) =>
      if r < |s.requests| && Enabled(t, s, s.requests[r], act) then
        Put(s, r, Moved(t, s, s.requests[r], act), Counted(t, s, s.requests[r], act))
      else s
  }

  /** May the request do this now? */
  predicate Enabled(t: Topology, s: System, q: Request, act: Act) {
    match act
    case Disconnect => true
    case Snapshot => q.phase.Selecting? && q.pool < |s.eligible|
    case Pick(m) => q.phase.Picking? && MayPick(t, s, q, m)
    case TryHost => q.phase.AtHost?
    case AcquireHost => q.phase.HostQueued? && HostFree(t, s, q.phase.m)
    case HostTimeout => q.phase.HostQueued?
    case HostDrop => q.phase.HostQueued? && q.gone
    case TryMember => q.phase.AtMember?
    case AcquireMember => q.phase.MemberQueued? && MemberFree(t, s, q.phase.m)
    case MemberTimeout => q.phase.MemberQueued?
    case MemberDrop => q.phase.MemberQueued? && q.gone
    case Poll => q.phase.MemberQueued? && Stale(t, s, q)
    case Bounce => q.phase.MemberQueued? && q.phase.stale
    case Return => q.phase.Serving?
    case Unwind => q.phase.Unwinding?
  }

  /** What becomes of the request. */
  function Moved(t: Topology, s: System, q: Request, act: Act): Request
    requires Enabled(t, s, q, act)
  {
    match act
    case Disconnect => q.(gone := true)
    case Snapshot =>
      if q.gone then End(q, Dropped)
      else q.(phase := Picking, seen := s.eligible[q.pool].members, chosenAt := s.eligible[q.pool].changes)
    case Pick(m) => q.(phase := AtHost(m))
    case TryHost =>
      if HostFree(t, s, q.phase.m) then q.(phase := AtMember(q.phase.m))
      else q.(phase := HostQueued(q.phase.m))
    case AcquireHost => q.(phase := AtMember(q.phase.m))
    case HostTimeout => End(q, Refused)
    case HostDrop => End(q, Dropped)
    case TryMember =>
      if t.Cap(q.phase.m) <= 0 || MemberFree(t, s, q.phase.m) then Forward(q, q.phase.m)
      else q.(phase := MemberQueued(q.phase.m, false))
    case AcquireMember => Forward(q, q.phase.m)
    case MemberTimeout => Leave(q, q.phase.m, Refused)
    case MemberDrop => Leave(q, q.phase.m, Dropped)
    case Poll => q.(phase := MemberQueued(q.phase.m, true))
    case Bounce => q.(phase := Unwinding(q.phase.m, Again), bounces := q.bounces + 1)
    case Return => q.(phase := Unwinding(q.phase.m, Finish(Forwarded)))
    case Unwind =>
      q.(phase := if q.phase.exit == Again then Selecting else Done(q.phase.exit.outcome))
  }

  /** What the semaphores and waiter counts become. */
  function Counted(t: Topology, s: System, q: Request, act: Act): map<Counter, int>
    requires Enabled(t, s, q, act)
  {
    var c := s.counters;
    match act
    case TryHost =>
      if HostFree(t, s, q.phase.m) then Add(c, HostSem(t.Host(q.phase.m)), 1)
      else Add(c, HostWaiters(q.phase.m), 1)
    case AcquireHost => Add(Add(c, HostSem(t.Host(q.phase.m)), 1), HostWaiters(q.phase.m), -1)
    case HostTimeout => Add(c, HostWaiters(q.phase.m), -1)
    case HostDrop => Add(c, HostWaiters(q.phase.m), -1)
    case TryMember =>
      if t.Cap(q.phase.m) <= 0 then c
      else if MemberFree(t, s, q.phase.m) then Add(c, MemberSem(q.phase.m), 1)
      else Add(c, MemberWaiters(q.phase.m), 1)
    case AcquireMember => Add(Add(c, MemberSem(q.phase.m), 1), MemberWaiters(q.phase.m), -1)
    case MemberTimeout => Add(c, MemberWaiters(q.phase.m), -1)
    case MemberDrop => Add(c, MemberWaiters(q.phase.m), -1)
    case Bounce => Add(c, MemberWaiters(q.phase.m), -1)
    case Return => if t.Cap(q.phase.m) <= 0 then c else Add(c, MemberSem(q.phase.m), -1)
    case Unwind => Add(c, HostSem(t.Host(q.phase.m)), -1)
    case _ => c
  }

  /** The handler chain returns to its caller with this outcome. */
  function End(q: Request, o: Outcome): Request {
    q.(phase := Done(o), outcomes := q.outcomes + [o])
  }

  function Forward(q: Request, m: nat): Request {
    q.(phase := Serving(m), outcomes := q.outcomes + [Forwarded])
  }

  /** The member limiter returns without serving; the host slot is still held. */
  function Leave(q: Request, m: nat, o: Outcome): Request {
    q.(phase := Unwinding(m, Finish(o)), outcomes := q.outcomes + [o])
  }

  function Run(t: Topology, eligible: seq<seq<nat>>, es: seq<Event>): System {
    if es == [] then Start(t, eligible)
    else Next(t, Run(t, eligible, es[..|es| - 1]), es[|es| - 1])
  }

  // ----- Who holds what -----

  predicate OnHost(p: Phase) {
    p.AtMember? || p.MemberQueued? || p.Serving? || p.Unwinding?
  }

  predicate Holds(t: Topology, p: Phase, k: Counter) {
    match k
    case HostSem(h) => OnHost(p) && t.Host(p.m) == h
    case HostWaiters(m) => p.HostQueued? && p.m == m
    case MemberSem(m) => p.Serving? && p.m == m && t.Cap(m) > 0
    case MemberWaiters(m) => p.MemberQueued? && p.m == m
  }

  function Unit(b: bool): nat { if b then 1 else 0 }

  function HoldOf(t: Topology, k: Counter): Request -> nat {
    (q: Request) => Unit(Holds(t, q.phase, k))
  }

  /** How many requests hold the counter. */
  function Holders(t: Topology, rs: seq<Request>, k: Counter): nat {
    Total(HoldOf(t, k), rs)
  }

  // ----- What every run keeps -----

  /** Every counter is exactly the number of requests that hold it, and every capped
      semaphore stays within its cap. */
  ghost predicate CountersExact(t: Topology, s: System) {
    && (forall k :: Get(s.counters, k) == Holders(t, s.requests, k))
    && (forall h :: 0 <= h < |t.hostCap| && t.hostCap[h] > 0 ==>
          Get(s.counters, HostSem(h)) <= t.hostCap[h])
    && (forall m :: 0 <= m < |t.members| && t.members[m].cap > 0 ==>
          Get(s.counters, MemberSem(m)) <= t.members[m].cap)
  }

  /** What one request's record says. */
  ghost predicate RequestOk(t: Topology, s: System, q: Request) {
    && q.pool < |t.pools| && q.pool < |s.eligible|
    && MemberOk(t, q.phase)
    && OutcomeOk(q)
    && BounceOk(q, s.eligible[q.pool])
  }

  ghost predicate MemberOk(t: Topology, p: Phase) {
    && (!(p.Selecting? || p.Picking? || p.Done?) ==> p.m < |t.members|)
    && (p.HostQueued? ==> t.HostCap(p.m) > 0)
    && (p.MemberQueued? ==> t.Cap(p.m) > 0)
  }

  /** At most one outcome, none before the request is served, refused or dropped; only a
      request whose client is gone is dropped. */
  ghost predicate OutcomeOk(q: Request) {
    match q.phase
    case Serving(_) => q.outcomes == [Forwarded]
    case Unwinding(_, exit) =>
      && q.outcomes == (if exit == Again then [] else [exit.outcome])
      && (exit == Finish(Dropped) ==> q.gone)
    case Done(o) => q.outcomes == [o] && (o == Dropped ==> q.gone)
    case _ => q.outcomes == []
  }

  /** Bounces are paid for by changes of the eligible set; a client already gone may be
      handed back once more. */
  ghost predicate BounceOk(q: Request, e: Eligibility) {
    && q.arrivedAt <= e.changes && q.chosenAt <= e.changes
    && q.bounces <= e.changes - q.arrivedAt + (if q.gone then 1 else 0)
    && (!(q.phase.Selecting? || q.phase.Done? || q.phase.Unwinding?) ==>
          && q.arrivedAt <= q.chosenAt
          && q.bounces <= q.chosenAt - q.arrivedAt
          && (q.chosenAt == e.changes ==> q.seen == e.members))
    && (q.phase.MemberQueued? && q.phase.stale ==> q.gone || q.chosenAt < e.changes)
  }

  ghost predicate EligibleOk(t: Topology, s: System) {
    && |s.eligible| == |t.pools|
    && forall p, m :: 0 <= p < |s.eligible| && m in s.eligible[p].members ==> m < |t.members|
  }

  ghost predicate Inv(t: Topology, s: System) {
    && CountersExact(t, s)
    && EligibleOk(t, s)
    && forall r :: 0 <= r < |s.requests| ==> RequestOk(t, s, s.requests[r])
  }

  lemma Recount(t: Topology, s: System, r: nat, q: Request, counters: map<Counter, int>)
    requires CountersExact(t, s) && r < |s.requests|
    requires forall k :: Get(counters, k) == Get(s.counters, k)
               - Unit(Holds(t, s.requests[r].phase, k)) + Unit(Holds(t, q.phase, k))
    requires forall h :: 0 <= h < |t.hostCap| && t.hostCap[h] > 0 ==>
               Get(counters, HostSem(h)) <= t.hostCap[h]
    requires forall m :: 0 <= m < |t.members| && t.members[m].cap > 0 ==>
               Get(counters, MemberSem(m)) <= t.members[m].cap
    ensures CountersExact(t, Put(s, r, q, counters))
  {
    forall k ensures Get(counters, k) == Holders(t, s.requests[r := q], k) {
      TotalUpdate(HoldOf(t, k), s.requests, r, q);
    }
  }

  /** Every act moves the counters exactly as it moves the request. */
  lemma ActCounts(t: Topology, s: System, q: Request, act: Act, k: Counter)
    requires Enabled(t, s, q, act) && MemberOk(t, q.phase)
    ensures Get(Counted(t, s, q, act), k)
         == Get(s.counters, k) - Unit(Holds(t, q.phase, k)) + Unit(Holds(t, Moved(t, s, q, act).phase, k))
  {
  }

  /** No act takes a slot that is not free. */
  lemma ActWithinCaps(t: Topology, s: System, q: Request, act: Act, m: nat)
    requires t.Valid() && Enabled(t, s, q, act) && MemberOk(t, q.phase)
    ensures m < |t.members| && t.members[m].cap > 0 && Get(s.counters, MemberSem(m)) <= t.members[m].cap ==>
              Get(Counted(t, s, q, act), MemberSem(m)) <= t.members[m].cap
    ensures m < |t.hostCap| && t.hostCap[m] > 0 && Get(s.counters, HostSem(m)) <= t.hostCap[m] ==>
              Get(Counted(t, s, q, act), HostSem(m)) <= t.hostCap[m]
  {
  }

  /** The acts on the way to the host slot. */
  predicate BeforeHost(act: Act) {
    match act
    case Disconnect => true
    case Snapshot => true
    case Pick(_) => true
    case TryHost => true
    case AcquireHost => true
    case HostTimeout => true
    case HostDrop => true
    case _ => false
  }

  lemma EarlyActKeeps(t: Topology, s: System, q: Request, act: Act)
    requires t.Valid() && EligibleOk(t, s) && RequestOk(t, s, q) && Enabled(t, s, q, act)
    requires BeforeHost(act)
    ensures RequestOk(t, s, Moved(t, s, q, act))
  {
  }

  lemma LateActKeeps(t: Topology, s: System, q: Request, act: Act)
    requires t.Valid() && EligibleOk(t, s) && RequestOk(t, s, q) && Enabled(t, s, q, act)
    requires !BeforeHost(act)
    ensures RequestOk(t, s, Moved(t, s, q, act))
  {
  }

  lemma ActKeepsRequest(t: Topology, s: System, q: Request, act: Act)
    requires t.Valid() && EligibleOk(t, s) && RequestOk(t, s, q) && Enabled(t, s, q, act)
    ensures RequestOk(t, s, Moved(t, s, q, act))
  {
    if BeforeHost(act) { EarlyActKeeps(t, s, q, act); } else { LateActKeeps(t, s, q, act); }
  }

  lemma DoKeeps(t: Topology, s: System, r: nat, act: Act)
    requires t.Valid() && Inv(t, s) && r < |s.requests| && Enabled(t, s, s.requests[r], act)
    ensures Inv(t, Next(t, s, Do(r, act)))
  {
    var q := s.requests[r];
    assert RequestOk(t, s, q);
    forall k ensures Get(Counted(t, s, q, act), k) == Get(s.counters, k)
               - Unit(Holds(t, q.phase, k)) + Unit(Holds(t, Moved(t, s, q, act).phase, k)) {
      ActCounts(t, s, q, act, k);
    }
    forall m: nat { ActWithinCaps(t, s, q, act, m); }
    Recount(t, s, r, Moved(t, s, q, act), Counted(t, s, q, act));
    ActKeepsRequest(t, s, q, act);
    var s' := Next(t, s, Do(r, act));
    forall i | 0 <= i < |s'.requests| ensures RequestOk(t, s', s'.requests[i]) {
      assert i != r ==> RequestOk(t, s, s.requests[i]);
    }
  }

  lemma ArriveKeeps(t: Topology, s: System, pool: nat)
    requires t.Valid() && Inv(t, s)
    ensures Inv(t, Next(t, s, Arrive(pool)))
  {
    var s' := Next(t, s, Arrive(pool));
    if s' != s {
      forall k ensures Get(s'.counters, k) == Holders(t, s'.requests, k) {
        TotalAppend(HoldOf(t, k), s.requests, s'.requests[|s.requests|]);
      }
      forall i | 0 <= i < |s'.requests| ensures RequestOk(t, s', s'.requests[i]) {
        assert i < |s.requests| ==> RequestOk(t, s, s.requests[i]);
      }
    }
  }

  lemma SetEligibleKeeps(t: Topology, s: System, pool: nat, members: seq<nat>)
    requires t.Valid() && Inv(t, s)
    ensures Inv(t, Next(t, s, SetEligible(pool, members)))
  {
    var s' := Next(t, s, SetEligible(pool, members));
    forall i | 0 <= i < |s'.requests| ensures RequestOk(t, s', s'.requests[i]) {
      assert RequestOk(t, s, s.requests[i]);
    }
  }

  lemma {:induction false} RunKeeps(t: Topology, eligible: seq<seq<nat>>, es: seq<Event>)
    requires t.Valid() && StartOk(t, eligible)
    ensures Inv(t, Run(t, eligible, es))
  {
    if es != [] {
      RunKeeps(t, eligible, es[..|es| - 1]);
      var s := Run(t, eligible, es[..|es| - 1]);
      match es[|es| - 1]
      case Arrive(pool) => ArriveKeeps(t, s, pool);
      case SetEligible(pool, members) => SetEligibleKeeps(t, s, pool, members);
      case Do(r, act) =>
        if r < |s.requests| && Enabled(t, s, s.requests[r], act) { DoKeeps(t, s, r, act); }
    }
  }

  /** The members eligible at the start exist. */
  ghost predicate StartOk(t: Topology, eligible: seq<seq<nat>>) {
    forall p, m :: 0 <= p < |eligible| && m in eligible[p] ==> m < |t.members|
  }

  // ----- Main results -----

  /** In every reachable state each semaphore's occupancy and each waiter count equals
      the number of requests holding it, and no capped semaphore exceeds its cap. */
  lemma SlotsExact(t: Topology, eligible: seq<seq<nat>>, es: seq<Event>)
    requires t.Valid() && StartOk(t, eligible)
    ensures CountersExact(t, Run(t, eligible, es))
  {
    RunKeeps(t, eligible, es);
  }

  /** Waits on no one: it can take its next step whatever the others do. */
  predicate Runnable(t: Topology, s: System, p: Phase) {
    p.AtMember? || p.Unwinding? || (p.MemberQueued? && MemberFree(t, s, p.m))
  }

  lemma FullMemberServes(t: Topology, s: System, m: nat) returns (q: nat)
    requires Inv(t, s) && t.Cap(m) > 0 && !MemberFree(t, s, m)
    ensures q < |s.requests| && s.requests[q].phase == Serving(m)
  {
    assert Get(s.counters, MemberSem(m)) == Holders(t, s.requests, MemberSem(m));
    q := SomePositive(HoldOf(t, MemberSem(m)), s.requests);
  }

  lemma FullHostMoves(t: Topology, s: System, m: nat) returns (q: nat)
    requires t.Valid() && Inv(t, s) && !HostFree(t, s, m)
    ensures q < |s.requests| && OnHost(s.requests[q].phase)
    ensures t.Host(s.requests[q].phase.m) == t.Host(m)
    ensures s.requests[q].phase.Serving? || Runnable(t, s, s.requests[q].phase)
  {
    var k := HostSem(t.Host(m));
    assert Get(s.counters, k) == Holders(t, s.requests, k);
    q := SomePositive(HoldOf(t, k), s.requests);
    var p := s.requests[q].phase;
    assert RequestOk(t, s, s.requests[q]);
    if p.MemberQueued? && !MemberFree(t, s, p.m) {
      q := FullMemberServes(t, s, p.m);
    }
  }

  /** Request q holds a slot of host h. */
  predicate OnSlot(t: Topology, s: System, q: nat, h: nat) {
    q < |s.requests| && OnHost(s.requests[q].phase) && t.Host(s.requests[q].phase.m) == h
  }

  /** Somebody on host h is being served. */
  ghost predicate HostServes(t: Topology, s: System, h: nat) {
    exists q: nat :: OnSlot(t, s, q, h) && s.requests[q].phase.Serving?
  }

  /** Somebody on host h cannot take its next step by itself. */
  ghost predicate HostWaits(t: Topology, s: System, h: nat) {
    exists q: nat :: OnSlot(t, s, q, h) && !Runnable(t, s, s.requests[q].phase)
  }

  /** On every host of every reachable state, somebody is being served if and only if not
      every slot holder is just between two steps of its own. */
  lemma ServedIff(t: Topology, eligible: seq<seq<nat>>, es: seq<Event>, h: nat)
    requires t.Valid() && StartOk(t, eligible)
    ensures HostServes(t, Run(t, eligible, es), h) <==> HostWaits(t, Run(t, eligible, es), h)
  {
    RunKeeps(t, eligible, es);
    var s := Run(t, eligible, es);
    if q: nat :| OnSlot(t, s, q, h) && !Runnable(t, s, s.requests[q].phase) {
      var p := s.requests[q].phase;
      assert RequestOk(t, s, s.requests[q]);
      if p.MemberQueued? {
        var r := FullMemberServes(t, s, p.m);
        assert OnSlot(t, s, r, h);
      }
    }
  }

  /** Nested slots never deadlock. Whoever waits on a full host semaphore, some request
      holds a slot of that host and is being served or can move by itself, and one is
      being served exactly if not all of them can; whoever waits on a full member
      semaphore, one on that very member is being served. */
  lemma NoDeadlock(t: Topology, eligible: seq<seq<nat>>, es: seq<Event>, r: nat)
    requires t.Valid() && StartOk(t, eligible) && r < |Run(t, eligible, es).requests|
    ensures var s := Run(t, eligible, es);
            var p := s.requests[r].phase;
            && (p.HostQueued? && !HostFree(t, s, p.m) ==>
                  && (HostServes(t, s, t.Host(p.m)) <==> HostWaits(t, s, t.Host(p.m)))
                  && exists q: nat :: OnSlot(t, s, q, t.Host(p.m))
                       && (s.requests[q].phase.Serving? || Runnable(t, s, s.requests[q].phase)))
            && (p.MemberQueued? && !MemberFree(t, s, p.m) ==>
                  exists q :: 0 <= q < |s.requests| && s.requests[q].phase == Serving(p.m))
  {
    RunKeeps(t, eligible, es);
    var s := Run(t, eligible, es);
    var p := s.requests[r].phase;
    assert RequestOk(t, s, s.requests[r]);
    if p.HostQueued? && !HostFree(t, s, p.m) {
      ServedIff(t, eligible, es, t.Host(p.m));
      var q := FullHostMoves(t, s, p.m);
      assert OnSlot(t, s, q, t.Host(p.m));
    }
    if p.MemberQueued? && !MemberFree(t, s, p.m) {
      var q := FullMemberServes(t, s, p.m);
    }
  }

  // ----- When a request queues, and what it can do then -----

  /** Some run comes to this state. */
  ghost predicate Reachable(t: Topology, s: System) {
    exists eligible, es :: StartOk(t, eligible) && Run(t, eligible, es) == s
  }

  lemma ReachableKeeps(t: Topology, s: System)
    requires t.Valid() && Reachable(t, s)
    ensures Inv(t, s)
  {
    var eligible, es :| StartOk(t, eligible) && Run(t, eligible, es) == s;
    RunKeeps(t, eligible, es);
  }

  /** Where request r is after one event of its own. */
  function PhaseAfter(t: Topology, s: System, r: nat, act: Act): Phase
    requires r < |s.requests|
  {
    Next(t, s, Do(r, act)).requests[r].phase
  }

  /** The requests that hold a slot of host h, and those being served by a member that has
      a cap. */
  ghost function HostHolders(t: Topology, s: System, h: nat): nat { Holders(t, s.requests, HostSem(h)) }
  ghost function ServedBy(t: Topology, s: System, m: nat): nat { Holders(t, s.requests, MemberSem(m)) }

  /** In every reachable state, a request at its host queues if and only if the host has a
      cap and exactly that many requests hold a slot; otherwise it takes one. */
  lemma HostQueuesIff(t: Topology, s: System, r: nat, m: nat)
    requires t.Valid() && Reachable(t, s) && r < |s.requests| && s.requests[r].phase == AtHost(m)
    ensures m < |t.members|
    ensures var h := t.members[m].host;
            PhaseAfter(t, s, r, TryHost)
            == if 0 < t.hostCap[h] == HostHolders(t, s, h) then HostQueued(m) else AtMember(m)
  {
    ReachableKeeps(t, s);
    assert RequestOk(t, s, s.requests[r]);
    assert Get(s.counters, HostSem(t.members[m].host)) == HostHolders(t, s, t.members[m].host);
  }

  /** In every reachable state, a request in a host queue gets a slot if and only if fewer
      requests hold one than the cap. */
  lemma HostSlotIff(t: Topology, s: System, r: nat, m: nat)
    requires t.Valid() && Reachable(t, s) && r < |s.requests| && s.requests[r].phase == HostQueued(m)
    ensures m < |t.members|
    ensures var h := t.members[m].host;
            PhaseAfter(t, s, r, AcquireHost)
            == if HostHolders(t, s, h) < t.hostCap[h] then AtMember(m) else HostQueued(m)
  {
    ReachableKeeps(t, s);
    assert RequestOk(t, s, s.requests[r]);
    assert Get(s.counters, HostSem(t.members[m].host)) == HostHolders(t, s, t.members[m].host);
  }

  /** In every reachable state, a request at its member queues if and only if the member has
      a cap and exactly that many requests are being served; otherwise it is served. */
  lemma MemberQueuesIff(t: Topology, s: System, r: nat, m: nat)
    requires t.Valid() && Reachable(t, s) && r < |s.requests| && s.requests[r].phase == AtMember(m)
    ensures m < |t.members|
    ensures PhaseAfter(t, s, r, TryMember)
            == if 0 < t.members[m].cap == ServedBy(t, s, m) then MemberQueued(m, false) else Serving(m)
  {
    ReachableKeeps(t, s);
    assert RequestOk(t, s, s.requests[r]);
    assert Get(s.counters, MemberSem(m)) == ServedBy(t, s, m);
  }

  /** In every reachable state, a request in a member queue is served if and only if fewer
      requests are than the cap. */
  lemma MemberSlotIff(t: Topology, s: System, r: nat, m: nat)
    requires t.Valid() && Reachable(t, s) && r < |s.requests|
    requires s.requests[r].phase.MemberQueued? && s.requests[r].phase.m == m
    ensures m < |t.members|
    ensures PhaseAfter(t, s, r, AcquireMember)
            == if ServedBy(t, s, m) < t.members[m].cap then Serving(m) else s.requests[r].phase
  {
    ReachableKeeps(t, s);
    assert RequestOk(t, s, s.requests[r]);
    assert Get(s.counters, MemberSem(m)) == ServedBy(t, s, m);
  }

  /** In every state, a queued request can always time out, which refuses it, and is dropped
      if and only if its client is gone; from a member queue it unwinds first, for it holds
      its host slot. */
  lemma WaitEnds(t: Topology, s: System, r: nat, m: nat)
    requires r < |s.requests|
    ensures s.requests[r].phase == HostQueued(m) ==>
              && PhaseAfter(t, s, r, HostTimeout) == Done(Refused)
              && PhaseAfter(t, s, r, HostDrop) == if s.requests[r].gone then Done(Dropped) else HostQueued(m)
    ensures s.requests[r].phase.MemberQueued? && s.requests[r].phase.m == m ==>
              && PhaseAfter(t, s, r, MemberTimeout) == Unwinding(m, Finish(Refused))
              && PhaseAfter(t, s, r, MemberDrop)
                 == if s.requests[r].gone then Unwinding(m, Finish(Dropped)) else s.requests[r].phase
  {
  }

  /** In every reachable state, a request at the top of the pool's loop reads the list as it
      is, unless its client is gone; then it can come to exactly the eligible members or,
      if there is none or the client has left meanwhile, to the pool's first. */
  lemma SelectsEligible(t: Topology, s: System, r: nat, m: nat)
    requires t.Valid() && Reachable(t, s) && r < |s.requests|
    ensures s.requests[r].pool < |s.eligible| == |t.pools| && t.pools[s.requests[r].pool].members != []
    ensures s.requests[r].phase == Selecting ==>
              var q' := Next(t, s, Do(r, Snapshot)).requests[r];
              if s.requests[r].gone then q'.phase == Done(Dropped)
              else q'.phase == Picking && q'.seen == s.eligible[s.requests[r].pool].members
    ensures s.requests[r].phase == Picking ==>
              var list, first := s.eligible[s.requests[r].pool].members, t.pools[s.requests[r].pool].members[0];
              PhaseAfter(t, s, r, Pick(m)) == AtHost(m) <==>
                m in list || ((list == [] || s.requests[r].gone) && m == first)
  {
    ReachableKeeps(t, s);
    assert RequestOk(t, s, s.requests[r]);
    assert t.PoolOk(t.pools[s.requests[r].pool]);
  }

  /** In every state, a new request enters its pool connected and unanswered, and a change
      of a pool's eligible list is there at once, counted, for that pool alone; neither
      touches a slot, a waiter count or another request. */
  lemma WorldMoves(t: Topology, s: System, pool: nat, members: seq<nat>)
    requires pool < |t.pools| && pool < |s.eligible| && forall m :: m in members ==> m < |t.members|
    ensures var s' := Next(t, s, Arrive(pool));
            && |s'.requests| == |s.requests| + 1 && s'.requests[..|s.requests|] == s.requests
            && s'.counters == s.counters && s'.eligible == s.eligible
            && var q := s'.requests[|s.requests|];
               q.pool == pool && q.phase == Selecting && !q.gone && q.outcomes == [] && q.bounces == 0
               && q.arrivedAt == s.eligible[pool].changes
    ensures var s' := Next(t, s, SetEligible(pool, members));
            && s'.requests == s.requests && s'.counters == s.counters && |s'.eligible| == |s.eligible|
            && (forall p :: 0 <= p < |s.eligible| && p != pool ==> s'.eligible[p] == s.eligible[p])
            && s'.eligible[pool].members == members
            && s'.eligible[pool].changes
               == s.eligible[pool].changes + if members == s.eligible[pool].members then 0 else 1
  {
  }

  // ----- When a queued request is handed back -----

  /** In every reachable state, a connected request queued for a member, not yet marked, is
      marked for a hand-back by its re-check if and only if its pool is time-windowed and
      the eligible list is no longer the one its member was chosen from. */
  lemma RecheckIff(t: Topology, s: System, r: nat, m: nat)
    requires t.Valid() && Reachable(t, s) && r < |s.requests|
    requires s.requests[r].phase == MemberQueued(m, false) && !s.requests[r].gone
    ensures s.requests[r].pool < |s.eligible| == |t.pools|
    ensures var p := s.requests[r].pool;
            PhaseAfter(t, s, r, Poll)
            == MemberQueued(m, t.pools[p].windowed && s.eligible[p].members != s.requests[r].seen)
  {
    ReachableKeeps(t, s);
    assert RequestOk(t, s, s.requests[r]);
  }

  /** In every state, a queued request is handed back if and only if it is marked, and then
      unwinds to the top of its pool's loop. */
  lemma HandedBackIff(t: Topology, s: System, r: nat, m: nat, marked: bool)
    requires r < |s.requests| && s.requests[r].phase == MemberQueued(m, marked)
    ensures PhaseAfter(t, s, r, Bounce) == if marked then Unwinding(m, Again) else MemberQueued(m, false)
    ensures marked ==> PhaseAfter(t, Next(t, s, Do(r, Bounce)), r, Unwind) == Selecting
  {
    if marked { BounceSteps(t, s, r); }
  }

  /** In every state, a connected request queued for a member of a time-windowed pool whose
      eligible list has changed since is able, by four steps of its own and whatever the
      member's slots, to choose again, and then chooses from the new list. */
  lemma ChangedListReselects(t: Topology, s: System, r: nat)
    requires r < |s.requests| && s.requests[r].phase.MemberQueued? && !s.requests[r].gone
    requires s.requests[r].pool < |s.eligible| && s.requests[r].pool < |t.pools|
    requires t.pools[s.requests[r].pool].windowed && s.eligible[s.requests[r].pool].members != s.requests[r].seen
    ensures var s1 := Next(t, s, Do(r, Poll));
            var s4 := Next(t, Next(t, Next(t, s1, Do(r, Bounce)), Do(r, Unwind)), Do(r, Snapshot));
            r < |s4.requests| && s4.requests[r].phase == Picking
            && s4.requests[r].seen == s.eligible[s.requests[r].pool].members
  {
    var s1 := Next(t, s, Do(r, Poll));
    assert s1.requests[r] == s.requests[r].(phase := MemberQueued(s.requests[r].phase.m, true));
    assert s1.eligible == s.eligible;
    BounceSteps(t, s1, r);
    var s3 := Next(t, Next(t, s1, Do(r, Bounce)), Do(r, Unwind));
    assert s3.eligible == s.eligible;
    assert s3.requests[r].phase == Selecting && !s3.requests[r].gone;
  }

  /** Across any number of hand-backs a request ends with one outcome at most, and with
      exactly one once it is done; a request at the top of the loop holds no slot, no
      waiter count, and has written nothing. */
  lemma OneOutcome(t: Topology, eligible: seq<seq<nat>>, es: seq<Event>, r: nat)
    requires t.Valid() && StartOk(t, eligible) && r < |Run(t, eligible, es).requests|
    ensures var q := Run(t, eligible, es).requests[r];
            && |q.outcomes| <= 1
            && (q.phase.Done? <==> q.outcomes != [] && !OnHost(q.phase))
            && (q.phase.Done? ==> q.outcomes == [q.phase.outcome])
            && (q.outcomes == [Dropped] ==> q.gone)
            && (q.phase.Selecting? ==> q.outcomes == [] && forall k :: !Holds(t, q.phase, k))
  {
    RunKeeps(t, eligible, es);
    assert RequestOk(t, Run(t, eligible, es), Run(t, eligible, es).requests[r]);
  }

  /** What the client gets from this event: the upstream round trip begins, a 429 is
      written, or the request is given up. */
  function Answer(t: Topology, s: System, e: Event, r: nat): Option<Outcome> {
    if e.Do? && e.r == r && r < |s.requests| && Enabled(t, s, s.requests[r], e.act) then
      match e.act
      case HostTimeout => Some(Refused)
      case MemberTimeout => Some(Refused)
      case HostDrop => Some(Dropped)
      case MemberDrop => Some(Dropped)
      case Snapshot => if s.requests[r].gone then Some(Dropped) else None
      case TryMember => if Next(t, s, e).requests[r].phase.Serving? then Some(Forwarded) else None
      case AcquireMember => Some(Forwarded)
      case _ => None
    else None
  }

  /** How many events of the run give request r this answer. */
  function Answers(t: Topology, eligible: seq<seq<nat>>, es: seq<Event>, r: nat, o: Outcome): nat {
    if es == [] then 0
    else
      var front := es[..|es| - 1];
      Answers(t, eligible, front, r, o) + Unit(Answer(t, Run(t, eligible, front), es[|es| - 1], r) == Some(o))
  }

  predicate Got(q: Request, o: Outcome) {
    |q.outcomes| == 1 && q.outcomes[0] == o
  }

  /** One event answers a request exactly if its record changes that way. */
  lemma AnswerStep(t: Topology, s: System, e: Event, r: nat, o: Outcome)
    requires r < |s.requests| && RequestOk(t, s, s.requests[r])
    ensures r < |Next(t, s, e).requests|
    ensures Unit(Got(Next(t, s, e).requests[r], o))
         == Unit(Got(s.requests[r], o)) + Unit(Answer(t, s, e, r) == Some(o))
  {
  }

  /** A request that has only just arrived has no answer. */
  lemma NewUnanswered(t: Topology, s: System, e: Event, r: nat, o: Outcome)
    requires |s.requests| <= r
    ensures Answer(t, s, e, r) == None
    ensures r < |Next(t, s, e).requests| ==> !Got(Next(t, s, e).requests[r], o)
  {
  }

  lemma {:induction false} AnswersRecorded(
      t: Topology, eligible: seq<seq<nat>>, es: seq<Event>, r: nat, o: Outcome)
    requires t.Valid() && StartOk(t, eligible)
    ensures var s := Run(t, eligible, es);
            Answers(t, eligible, es, r, o) == if r < |s.requests| then Unit(Got(s.requests[r], o)) else 0
  {
    if es != [] {
      var front := es[..|es| - 1];
      AnswersRecorded(t, eligible, front, r, o);
      RunKeeps(t, eligible, front);
      var s := Run(t, eligible, front);
      if r < |s.requests| {
        assert RequestOk(t, s, s.requests[r]);
        AnswerStep(t, s, es[|es| - 1], r, o);
      } else {
        NewUnanswered(t, s, es[|es| - 1], r, o);
      }
    }
  }

  /** Over every run, whatever the number of hand-backs: of all the events that forward a
      request, refuse it or give it up there is at most one, exactly one once its handler
      is on the way out, and it is the outcome the request is done with; only a request
      whose client is gone is given up. */
  lemma AnsweredOnce(t: Topology, eligible: seq<seq<nat>>, es: seq<Event>, r: nat)
    requires t.Valid() && StartOk(t, eligible) && r < |Run(t, eligible, es).requests|
    ensures var q := Run(t, eligible, es).requests[r];
            var forwarded := Answers(t, eligible, es, r, Forwarded);
            var refused := Answers(t, eligible, es, r, Refused);
            var dropped := Answers(t, eligible, es, r, Dropped);
            && forwarded + refused + dropped
               == Unit(q.phase.Serving? || q.phase.Done? || (q.phase.Unwinding? && q.phase.exit != Again))
            && (q.phase.Done? ==> Answers(t, eligible, es, r, q.phase.outcome) == 1)
            && (q.phase.Serving? ==> forwarded == 1)
            && (dropped == 1 ==> q.gone)
  {
    RunKeeps(t, eligible, es);
    assert RequestOk(t, Run(t, eligible, es), Run(t, eligible, es).requests[r]);
    AnswersRecorded(t, eligible, es, r, Forwarded);
    AnswersRecorded(t, eligible, es, r, Refused);
    AnswersRecorded(t, eligible, es, r, Dropped);
  }

  /** The two steps of a hand-back, as the requests' records see them. */
  lemma BounceSteps(t: Topology, s: System, r: nat)
    requires r < |s.requests| && s.requests[r].phase.MemberQueued? && s.requests[r].phase.stale
    ensures Next(t, Next(t, s, Do(r, Bounce)), Do(r, Unwind)).requests
         == s.requests[r := s.requests[r].(phase := Selecting, bounces := s.requests[r].bounces + 1)]
  {
    var q, s1 := s.requests[r], Next(t, s, Do(r, Bounce));
    assert s1.requests[r] == q.(phase := Unwinding(q.phase.m, Again), bounces := q.bounces + 1);
  }

  lemma TwoMore(t: Topology, eligible: seq<seq<nat>>, es: seq<Event>, d: Event, e: Event)
    ensures Run(t, eligible, es + [d] + [e]) == Next(t, Next(t, Run(t, eligible, es), d), e)
  {
    RunSnoc(t, eligible, es, d);
    RunSnoc(t, eligible, es + [d], e);
  }

  /** When r holds nothing, the counters are what the others hold. */
  lemma OthersHold(t: Topology, s: System, rs: seq<Request>, r: nat, q: Request, k: Counter)
    requires r < |rs| && s.requests == rs[r := q] && CountersExact(t, s) && q.phase.Selecting?
    ensures Get(s.counters, k) == Holders(t, rs[..r] + rs[r + 1..], k)
  {
    TotalUpdate(HoldOf(t, k), rs, r, q);
    TotalRemove(HoldOf(t, k), rs, r);
  }

  /** A hand-back in any run leaves no trace but itself: afterwards every semaphore and
      waiter count is what the other requests alone hold, they are as they were, and the
      request has been given no answer. */
  lemma BounceIsClean(t: Topology, eligible: seq<seq<nat>>, es: seq<Event>, r: nat)
    requires t.Valid() && StartOk(t, eligible) && r < |Run(t, eligible, es).requests|
    requires Run(t, eligible, es).requests[r].phase.MemberQueued? && Run(t, eligible, es).requests[r].phase.stale
    ensures var s, es' := Run(t, eligible, es), es + [Do(r, Bounce)] + [Do(r, Unwind)];
            var s' := Run(t, eligible, es');
            && (forall k :: Get(s'.counters, k) == Holders(t, s.requests[..r] + s.requests[r + 1..], k))
            && |s'.requests| == |s.requests| && s'.requests[r].phase.Selecting?
            && (forall i :: 0 <= i < |s.requests| && i != r ==> s'.requests[i] == s.requests[i])
            && (forall o :: Answers(t, eligible, es', r, o) == 0)
  {
    var s, es' := Run(t, eligible, es), es + [Do(r, Bounce)] + [Do(r, Unwind)];
    var s' := Run(t, eligible, es');
    TwoMore(t, eligible, es, Do(r, Bounce), Do(r, Unwind));
    BounceSteps(t, s, r);
    SlotsExact(t, eligible, es');
    forall k ensures Get(s'.counters, k) == Holders(t, s.requests[..r] + s.requests[r + 1..], k) {
      OthersHold(t, s', s.requests, r, s'.requests[r], k);
    }
    forall o ensures Answers(t, eligible, es', r, o) == 0 {
      OneOutcome(t, eligible, es', r);
      AnswersRecorded(t, eligible, es', r, o);
    }
  }

  /** A request is handed back at most as often as its pool's eligible set changed
      during its life, plus once if its client has gone away. */
  lemma BouncesBounded(t: Topology, eligible: seq<seq<nat>>, es: seq<Event>, r: nat)
    requires t.Valid() && StartOk(t, eligible) && r < |Run(t, eligible, es).requests|
    ensures var s := Run(t, eligible, es);
            var q := s.requests[r];
            && q.pool < |s.eligible|
            && q.bounces <= s.eligible[q.pool].changes - q.arrivedAt + (if q.gone then 1 else 0)
  {
    RunKeeps(t, eligible, es);
    assert RequestOk(t, Run(t, eligible, es), Run(t, eligible, es).requests[r]);
  }

  /** A re-check of request r finds its client gone and its eligible set unchanged. */
  predicate IdleRecheck(t: Topology, s: System, e: Event, r: nat) {
    && e == Do(r, Poll) && r < |s.requests| && Enabled(t, s, s.requests[r], Poll)
    && s.eligible[s.requests[r].pool].members == s.requests[r].seen
  }

  /** Does the run hold such a re-check of r? */
  predicate IdleRecheckIn(t: Topology, eligible: seq<seq<nat>>, es: seq<Event>, r: nat) {
    es != [] &&
    (IdleRecheckIn(t, eligible, es[..|es| - 1], r)
     || IdleRecheck(t, Run(t, eligible, es[..|es| - 1]), es[|es| - 1], r))
  }

  /** Every hand-back so far, and the one announced, has a change of its own. */
  ghost predicate Paid(q: Request, e: Eligibility) {
    && q.bounces <= e.changes - q.arrivedAt
    && (q.phase.MemberQueued? && q.phase.stale ==> q.chosenAt < e.changes)
  }

  lemma PaidAct(t: Topology, s: System, q: Request, act: Act)
    requires RequestOk(t, s, q) && Enabled(t, s, q, act) && Paid(q, s.eligible[q.pool])
    requires act == Poll ==> s.eligible[q.pool].members != q.seen
    ensures Moved(t, s, q, act).pool == q.pool && Paid(Moved(t, s, q, act), s.eligible[q.pool])
  {
  }

  lemma PaidStep(t: Topology, s: System, e: Event, r: nat)
    requires EligibleOk(t, s) && r < |s.requests| && RequestOk(t, s, s.requests[r])
    requires Paid(s.requests[r], s.eligible[s.requests[r].pool]) && !IdleRecheck(t, s, e, r)
    ensures var s' := Next(t, s, e);
            && r < |s'.requests| && s'.requests[r].pool < |s'.eligible|
            && Paid(s'.requests[r], s'.eligible[s'.requests[r].pool])
  {
    if e.Do? && e.r == r && Enabled(t, s, s.requests[r], e.act) {
      PaidAct(t, s, s.requests[r], e.act);
    }
  }

  /** A request is handed back at most as often as its pool's eligible set changed during
      its life, client gone or not, unless a re-check of it ran after its client had left
      while the eligible set was still the one its member was chosen from. */
  lemma {:induction false} BouncesPaid(t: Topology, eligible: seq<seq<nat>>, es: seq<Event>, r: nat)
    requires t.Valid() && StartOk(t, eligible) && r < |Run(t, eligible, es).requests|
    requires !IdleRecheckIn(t, eligible, es, r)
    ensures var s := Run(t, eligible, es);
            var q := s.requests[r];
            q.pool < |s.eligible| && Paid(q, s.eligible[q.pool])
  {
    var front := es[..|es| - 1];
    var s := Run(t, eligible, front);
    RunKeeps(t, eligible, front);
    if r < |s.requests| {
      assert RequestOk(t, s, s.requests[r]);
      BouncesPaid(t, eligible, front, r);
      PaidStep(t, s, es[|es| - 1], r);
    }
  }

  // ----- The stack drains -----

  /** Ordinary progress: no timeout, no disconnect, no hand-back. */
  predicate Progress(act: Act) {
    match act
    case Snapshot => true
    case Pick(_) => true
    case TryHost => true
    case AcquireHost => true
    case TryMember => true
    case AcquireMember => true
    case Return => true
    case Unwind => true
    case _ => false
  }

  function Rank(p: Phase): nat {
    match p
    case Unwinding(_, exit) => if exit == Again then 9 else 1
    case Selecting => 8
    case Picking => 7
    case AtHost(_) => 6
    case HostQueued(_) => 5
    case AtMember(_) => 4
    case MemberQueued(_, _) => 3
    case Serving(_) => 2
    case Done(_) => 0
  }

  function RankOf(q: Request): nat { Rank(q.phase) }

  ghost predicate AllDone(s: System) {
    forall r :: 0 <= r < |s.requests| ==> s.requests[r].phase.Done?
  }

  /** Blocked in a queue, or finished. */
  predicate Parked(p: Phase) {
    p.HostQueued? || p.MemberQueued? || p.Done?
  }

  /** The step a request that is not parked can always take. */
  lemma FreeStep(t: Topology, s: System, r: nat) returns (act: Act)
    requires t.Valid() && Inv(t, s) && r < |s.requests| && !Parked(s.requests[r].phase)
    ensures Progress(act) && Enabled(t, s, s.requests[r], act)
  {
    var q := s.requests[r];
    assert RequestOk(t, s, q);
    match q.phase
    case Selecting => act := Snapshot;
    case Picking =>
      var e, p := s.eligible[q.pool].members, t.pools[q.pool].members;
      assert t.PoolOk(t.pools[q.pool]);
      if e == [] {
        assert p[0] < |t.members|;
        act := Pick(p[0]);
      } else {
        assert e[0] in e;
        act := Pick(e[0]);
      }
    case AtHost(_) => act := TryHost;
    case AtMember(_) => act := TryMember;
    case Serving(_) => act := Return;
    case Unwinding(_, _) => act := Unwind;
  }

  /** When everybody is parked, nobody is served, so some semaphore a queued request
      waits for is free. */
  lemma ParkedStep(t: Topology, s: System, r: nat) returns (i: nat, act: Act)
    requires t.Valid() && Inv(t, s) && r < |s.requests| && !s.requests[r].phase.Done?
    requires forall i :: 0 <= i < |s.requests| ==> Parked(s.requests[i].phase)
    ensures i < |s.requests| && Progress(act) && Enabled(t, s, s.requests[i], act)
  {
    var p := s.requests[r].phase;
    assert RequestOk(t, s, s.requests[r]);
    if p.MemberQueued? {
      i, act := r, AcquireMember;
      if !MemberFree(t, s, p.m) {
        var q := FullMemberServes(t, s, p.m);
      }
    } else if HostFree(t, s, p.m) {
      i, act := r, AcquireHost;
    } else {
      var q := FullHostMoves(t, s, p.m);
      i, act := q, AcquireMember;
    }
  }

  lemma CanProgress(t: Topology, s: System) returns (r: nat, act: Act)
    requires t.Valid() && Inv(t, s) && !AllDone(s)
    ensures r < |s.requests| && Progress(act) && Enabled(t, s, s.requests[r], act)
  {
    if i: nat :| i < |s.requests| && !Parked(s.requests[i].phase) {
      r := i;
      act := FreeStep(t, s, i);
    } else {
      var i: nat :| i < |s.requests| && !s.requests[i].phase.Done?;
      r, act := ParkedStep(t, s, i);
    }
  }

  /** Progress lowers the rank, and a connected request gains nothing but a forward. */
  lemma ProgressStep(t: Topology, s: System, q: Request, act: Act)
    requires RequestOk(t, s, q) && Enabled(t, s, q, act) && Progress(act)
    ensures Rank(Moved(t, s, q, act).phase) < Rank(q.phase)
    ensures Served(q, Moved(t, s, q, act))
  {
  }

  ghost predicate Served(q: Request, q': Request) {
    && q'.gone == q.gone
    && (!q.gone ==> q'.outcomes == q.outcomes || (q.outcomes == [] && q'.outcomes == [Forwarded]))
  }

  function Exec(t: Topology, s: System, es: seq<Event>): System
    decreases |es|
  {
    if es == [] then s else Exec(t, Next(t, s, es[0]), es[1..])
  }

  ghost predicate AllProgress(es: seq<Event>) {
    forall i :: 0 <= i < |es| ==> es[i].Do? && Progress(es[i].act)
  }

  ghost predicate AllServed(s: System, s': System) {
    |s'.requests| == |s.requests| &&
    forall r :: 0 <= r < |s.requests| ==> Served(s.requests[r], s'.requests[r])
  }

  /** `es` takes `s` to a state where every request is finished. */
  ghost predicate Drains(t: Topology, s: System, es: seq<Event>) {
    && AllProgress(es) && Inv(t, Exec(t, s, es))
    && AllDone(Exec(t, s, es)) && AllServed(s, Exec(t, s, es))
  }

  lemma DrainCons(t: Topology, s: System, e: Event, rest: seq<Event>)
    requires e.Do? && Progress(e.act)
    requires AllServed(s, Next(t, s, e)) && Drains(t, Next(t, s, e), rest)
    ensures Drains(t, s, [e] + rest)
  {
    var es := [e] + rest;
    assert es[0] == e && es[1..] == rest;
    assert Exec(t, s, es) == Exec(t, Next(t, s, e), rest);
    ServedTwice(s, Next(t, s, e), Exec(t, s, es));
    forall i | 0 <= i < |es| ensures es[i].Do? && Progress(es[i].act) {
      if i > 0 { assert es[i] == rest[i - 1]; }
    }
  }

  /** From any state satisfying the invariant the requests present can all finish by
      ordinary progress alone. */
  lemma {:induction false} Drain(t: Topology, s: System) returns (es: seq<Event>)
    requires t.Valid() && Inv(t, s)
    ensures Drains(t, s, es)
    decreases Total(RankOf, s.requests)
  {
    if AllDone(s) {
      es := [];
      assert Exec(t, s, es) == s;
    } else {
      var r, act := CanProgress(t, s);
      var s1 := DrainStep(t, s, r, act);
      var rest := Drain(t, s1);
      DrainCons(t, s, Do(r, act), rest);
      es := [Do(r, act)] + rest;
    }
  }

  lemma DrainStep(t: Topology, s: System, r: nat, act: Act) returns (s': System)
    requires t.Valid() && Inv(t, s) && r < |s.requests|
    requires Progress(act) && Enabled(t, s, s.requests[r], act)
    ensures s' == Next(t, s, Do(r, act)) && Inv(t, s')
    ensures AllServed(s, s') && Total(RankOf, s'.requests) < Total(RankOf, s.requests)
  {
    var q := s.requests[r];
    assert RequestOk(t, s, q);
    s' := Next(t, s, Do(r, act));
    ProgressStep(t, s, q, act);
    DoKeeps(t, s, r, act);
    TotalUpdate(RankOf, s.requests, r, Moved(t, s, q, act));
  }

  lemma ServedTwice(a: System, b: System, c: System)
    requires AllServed(a, b) && AllServed(b, c)
    ensures AllServed(a, c)
  {
    forall r | 0 <= r < |a.requests| ensures Served(a.requests[r], c.requests[r]) {
      assert Served(a.requests[r], b.requests[r]) && Served(b.requests[r], c.requests[r]);
    }
  }

  /** No reachable state is stuck: without a single timeout, disconnect or hand-back it
      can run to the end, and every client still connected and unanswered is forwarded. */
  lemma EverythingDrains(t: Topology, eligible: seq<seq<nat>>, es: seq<Event>) returns (more: seq<Event>)
    requires t.Valid() && StartOk(t, eligible)
    ensures AllProgress(more)
    ensures var s := Run(t, eligible, es);
            var end := Exec(t, s, more);
            && AllDone(end) && |end.requests| == |s.requests|
            && forall r :: 0 <= r < |s.requests| ==>
                 var q := s.requests[r];
                 !q.gone && q.outcomes == [] ==> end.requests[r].outcomes == [Forwarded]
  {
    RunKeeps(t, eligible, es);
    var s := Run(t, eligible, es);
    more := Drain(t, s);
    var end := Exec(t, s, more);
    forall r | 0 <= r < |s.requests| && !s.requests[r].gone && s.requests[r].outcomes == []
      ensures end.requests[r].outcomes == [Forwarded]
    {
      assert Served(s.requests[r], end.requests[r]) && RequestOk(t, end, end.requests[r]);
    }
  }

  // ----- The extra hand-back -----

  lemma RunSnoc(t: Topology, eligible: seq<seq<nat>>, es: seq<Event>, e: Event)
    ensures Run(t, eligible, es + [e]) == Next(t, Run(t, eligible, es), e)
  {
    assert (es + [e])[..|es|] == es;
  }

  /** One windowed pool with one member of cap 1 on an unlimited host. */
  const ONE_MEMBER: Topology := Topology([0], [Member(0, 1)], [Pool([0], true)])

  /** Its only slot is taken by the first request. */
  lemma OneServed() returns (es: seq<Event>)
    ensures var s := Run(ONE_MEMBER, [[0]], es);
            && |s.requests| == 1 && s.eligible == [Eligibility([0], 0)]
            && Get(s.counters, MemberSem(0)) == 1
  {
    var t, eligible := ONE_MEMBER, [[0]];
    es := [];
    var s := Start(t, eligible);
    assert s.eligible == [Eligibility([0], 0)];
    s, es := Arrived(t, eligible, es, s);
    s, es := Advance(t, eligible, es, s, 0, Snapshot);
    s, es := Advance(t, eligible, es, s, 0, Pick(0));
    s, es := Advance(t, eligible, es, s, 0, TryHost);
    assert MemberFree(t, s, 0);
    s, es := Advance(t, eligible, es, s, 0, TryMember);
  }

  /** A second request comes to the full member. */
  lemma OneServedOneWaiting() returns (es: seq<Event>)
    ensures var s := Run(ONE_MEMBER, [[0]], es);
            && |s.requests| == 2 && s.eligible == [Eligibility([0], 0)]
            && s.requests[1] == Request(0, AtMember(0), false, [0], 0, 0, 0, [])
            && Get(s.counters, MemberSem(0)) == 1
  {
    var t, eligible := ONE_MEMBER, [[0]];
    es := OneServed();
    var s := Run(t, eligible, es);
    s, es := Arrived(t, eligible, es, s);
    s, es := Advance(t, eligible, es, s, 1, Snapshot);
    s, es := Advance(t, eligible, es, s, 1, Pick(0));
    s, es := Advance(t, eligible, es, s, 1, TryHost);
  }

  /** A host with one slot, and one member without a cap. */
  const ONE_SLOT: Topology := Topology([1], [Member(0, 0)], [Pool([0], false)])

  /** The first request has the slot and is on its way to the member. */
  lemma SlotTaken() returns (es: seq<Event>)
    ensures var s := Run(ONE_SLOT, [[0]], es);
            && s.requests == [Request(0, AtMember(0), false, [0], 0, 0, 0, [])]
            && s.eligible == [Eligibility([0], 0)] && Get(s.counters, HostSem(0)) == 1
  {
    var t, eligible := ONE_SLOT, [[0]];
    es := [];
    var s := Start(t, eligible);
    assert s.eligible == [Eligibility([0], 0)];
    s, es := Arrived(t, eligible, es, s);
    s, es := Advance(t, eligible, es, s, 0, Snapshot);
    s, es := Advance(t, eligible, es, s, 0, Pick(0));
    s, es := Advance(t, eligible, es, s, 0, TryHost);
  }

  /** Being between two steps occurs: a request waits on a full host semaphore whose holder
      has its slot but has not come to the member yet, so that nobody is being served. */
  lemma NobodyServed() returns (es: seq<Event>)
    ensures ONE_SLOT.Valid() && StartOk(ONE_SLOT, [[0]])
    ensures var s := Run(ONE_SLOT, [[0]], es);
            && |s.requests| == 2 && s.requests[1].phase == HostQueued(0)
            && !HostFree(ONE_SLOT, s, 0) && !HostServes(ONE_SLOT, s, 0)
  {
    var t, eligible := ONE_SLOT, [[0]];
    es := SlotTaken();
    var s := Run(t, eligible, es);
    s, es := Arrived(t, eligible, es, s);
    s, es := Advance(t, eligible, es, s, 1, Snapshot);
    s, es := Advance(t, eligible, es, s, 1, Pick(0));
    s, es := Advance(t, eligible, es, s, 1, TryHost);
  }

  /** The allowance for a gone client is needed: with no change of the eligible set at
      all, a queued request whose client leaves can be handed back. */
  lemma GoneClientBounces() returns (es: seq<Event>)
    ensures ONE_MEMBER.Valid() && StartOk(ONE_MEMBER, [[0]])
    ensures var s := Run(ONE_MEMBER, [[0]], es);
            && |s.requests| == 2 && s.eligible == [Eligibility([0], 0)]
            && s.requests[1].bounces == 1
  {
    var t, eligible := ONE_MEMBER, [[0]];
    es := OneServedOneWaiting();
    var s := Run(t, eligible, es);
    s, es := Advance(t, eligible, es, s, 1, TryMember);
    s, es := Advance(t, eligible, es, s, 1, Disconnect);
    s, es := Advance(t, eligible, es, s, 1, Poll);
    s, es := Advance(t, eligible, es, s, 1, Bounce);
  }

  lemma Arrived(t: Topology, eligible: seq<seq<nat>>, es: seq<Event>, s: System)
      returns (s': System, es': seq<Event>)
    requires s == Run(t, eligible, es) && |t.pools| > 0 && |s.eligible| > 0
    ensures s' == Run(t, eligible, es')
    ensures s' == s.(requests := s.requests + [Request(0, Selecting, false, [], s.eligible[0].changes, s.eligible[0].changes, 0, [])])
  {
    es' := es + [Arrive(0)];
    s' := Next(t, s, Arrive(0));
    RunSnoc(t, eligible, es, Arrive(0));
  }

  lemma Advance(t: Topology, eligible: seq<seq<nat>>, es: seq<Event>, s: System, r: nat, act: Act)
      returns (s': System, es': seq<Event>)
    requires s == Run(t, eligible, es) && r < |s.requests| && Enabled(t, s, s.requests[r], act)
    ensures s' == Run(t, eligible, es')
    ensures s' == Put(s, r, Moved(t, s, s.requests[r], act), Counted(t, s, s.requests[r], act))
  {
    es' := es + [Do(r, act)];
    s' := Next(t, s, Do(r, act));
    RunSnoc(t, eligible, es, Do(r, act));
  }
}
