/** The cold-start gate with its concurrent requests: the bounded queue, the broadcast
    generations waiters hold, the rate timers, and the reservations. Every move is one
    critical section or one channel operation; any sequence of moves is a run, and a
    move that is not enabled changes nothing. */
module ColdGateQueue {
  import opened GoInts
  import opened Totals
  import opened TokenBucket
  import opened ColdGate
  import opened ColdGateHistory
  import Backpressure

  const QUEUE_CAPACITY: int := 32

  /** A sleeping request: why it was turned away and against which budget, which broadcast
      it listens to, and when its own timer fires. */
  datatype Sleep = Sleep(reason: Verdict, budget: int, generation: nat, since: int, timer: Option<int>)

  datatype Request = Request(
    session: string,
    estimate: nat,
    slot: bool,
    sleep: Option<Sleep>,
    reserved: nat)

  datatype System = System(
    gate: Gate,
    generation: nat,
    budget: int,
    queue: int,
    requests: seq<Request>,
    log: History)

  datatype Move =
    | Arrive(session: string, estimate: nat, at: int)
    | Wake(r: nat, at: int)
    | GiveUp(r: nat)           // the longest wait elapsed or the client went away
    | Leave(r: nat)            // give the queue slot back
    | Release(r: nat)          // first delta, or the handler returned
    | SetBudget(budget: int)   // the backpressure controller moved

  function Start(start: int, budget: int): System {
    System(Initial(start), 0, budget, 0, [], [])
  }

  predicate Woken(s: System, r: nat, at: int)
    requires r < |s.requests| && s.requests[r].sleep.Some?
  {
    var z := s.requests[r].sleep.value;
    z.generation != s.generation || (z.timer.Some? && z.timer.value <= at)
  }

  function Timer(g: Gate, st: Settings, v: Verdict, at: int): Option<int> {
    if v.OverRate? && Wait(g.bucket, st.rate, at) > 0
    then Some(at + Wait(g.bucket, st.rate, at)) else None
  }

  function Sleeping(s: System, st: Settings, g: Gate, v: Verdict, at: int): Option<Sleep> {
    Some(Sleep(v, s.budget, s.generation, at, Timer(g, st, v, at)))
  }

  function TryEvent(s: System, session: string, estimate: nat, at: int): Event {
    Attempt(session, estimate, s.budget, at)
  }

  function Arriving(st: Settings, s: System, session: string, estimate: nat, at: int): System
    requires st.Valid()
  {
    var e := TryEvent(s, session, estimate, at);
    var (g, v) := Decide(st, true, s.gate, e);
    var s' := s.(gate := g, log := s.log + [e]);
    if v.Admitted() then
      s'.(requests := s.requests +
          [Request(session, estimate, false, None, if v.Cold? then estimate else 0)])
    else if s.queue < QUEUE_CAPACITY then
      s'.(queue := s.queue + 1,
          requests := s.requests + [Request(session, estimate, true, Sleeping(s, st, g, v, at), 0)])
    else
      s'.(requests := s.requests + [Request(session, estimate, false, None, 0)])
  }

  function Waking(st: Settings, s: System, r: nat, at: int): System
    requires st.Valid() && r < |s.requests| && s.requests[r].sleep.Some?
  {
    var q := s.requests[r];
    var e := TryEvent(s, q.session, q.estimate, at);
    var (g, v) := Decide(st, true, s.gate, e);
    var q' := if v.Admitted() then q.(sleep := None, reserved := if v.Cold? then q.estimate else 0)
              else q.(sleep := Sleeping(s, st, g, v, at));
    s.(gate := g, log := s.log + [e], requests := s.requests[r := q'])
  }

  function Releasing(s: System, r: nat): System
    requires r < |s.requests|
  {
    var q := s.requests[r];
    s.(gate := Free(s.gate, q.reserved),
       generation := s.generation + 1,
       requests := s.requests[r := q.(reserved := 0)],
       log := s.log + [Freed(q.reserved)])
  }

  function Move1(st: Settings, s: System, m: Move): System
    requires st.Valid()
  {
    match m
    case Arrive(session, estimate, at) => Arriving(st, s, session, estimate, at)
    case Wake(r, at) =>
      if r < |s.requests| && s.requests[r].sleep.Some? && Woken(s, r, at)
      then Waking(st, s, r, at) else s
    case GiveUp(r) =>
      if r < |s.requests| && s.requests[r].sleep.Some?
      then s.(requests := s.requests[r := s.requests[r].(sleep := None)]) else s
    case Leave(r) =>
      if r < |s.requests| && s.requests[r].slot && s.requests[r].sleep.None?
      then s.(queue := s.queue - 1, requests := s.requests[r := s.requests[r].(slot := false)])
      else s
    case Release(r) =>
      if r < |s.requests| && !s.requests[r].slot && s.requests[r].reserved > 0
      then Releasing(s, r) else s
    case SetBudget(budget) => s.(budget := budget)
  }

  function Run(st: Settings, start: int, budget: int, moves: seq<Move>): System
    requires st.Valid()
  {
    if moves == [] then Start(start, budget)
    else Move1(st, Run(st, start, budget, moves[..|moves| - 1]), moves[|moves| - 1])
  }

  /** No backpressure controller: the budget is the one given at construction. */
  predicate FixedBudget(moves: seq<Move>) {
    forall m :: m in moves ==> !m.SetBudget?
  }

  // ----- Totals over the requests -----

  function ReservedOf(q: Request): nat { q.reserved }
  function SlotOf(q: Request): nat { if q.slot then 1 else 0 }
  function HolderOf(q: Request): nat { if q.reserved > 0 then 1 else 0 }

  /** Reservations are never negative, so each is at most the total, and a positive
      total has a holder. */
  lemma {:induction false} ReservedBounds(rs: seq<Request>)
    ensures forall r :: 0 <= r < |rs| ==> rs[r].reserved <= Total(ReservedOf, rs)
    ensures Total(HolderOf, rs) <= Total(ReservedOf, rs)
    ensures 0 <= Total(HolderOf, rs)
    ensures Total(ReservedOf, rs) > 0 ==> exists r :: 0 <= r < |rs| && rs[r].reserved > 0
    ensures Total(HolderOf, rs) == 0 ==> Total(ReservedOf, rs) == 0
    ensures Total(HolderOf, rs) == 1 ==>
              forall r :: 0 <= r < |rs| && rs[r].reserved > 0 ==> rs[r].reserved == Total(ReservedOf, rs)
  {
    if rs != [] {
      ReservedBounds(rs[..|rs| - 1]);
      assert forall r :: 0 <= r < |rs| - 1 ==> rs[r] == rs[..|rs| - 1][r];
    }
  }

  // ----- What every run keeps -----

  /** A sleeper still has something that will wake it. */
  ghost predicate SleepOk(st: Settings, s: System, q: Request) {
    q.sleep.Some? ==>
      var z := q.sleep.value;
      && q.slot && q.reserved == 0
      && z.generation <= s.generation
      && (z.reason.OverBudget? && z.generation == s.generation ==>
            BudgetBlocks(s.gate.inFlight, q.estimate, z.budget))
      && (z.reason.OverBudget? || z.reason.OverRate?)
  }

  ghost predicate TimerOk(st: Settings, q: Request) {
    q.sleep.Some? && q.sleep.value.reason.OverRate? ==>
      var z := q.sleep.value;
      && 0 < st.rate
      && (z.timer.Some? <==> st.rate <= MINUTE)
      && (z.timer.Some? ==> z.since < z.timer.value <= z.since + PerToken(st.rate))
  }

  ghost predicate Inv(st: Settings, start: int, s: System)
    requires st.Valid()
  {
    && s.gate == After(st, true, start, s.log)
    && s.gate.inFlight == Total(ReservedOf, s.requests)
    && s.queue == Total(SlotOf, s.requests) <= QUEUE_CAPACITY
    && (forall r :: 0 <= r < |s.requests| ==> SleepOk(st, s, s.requests[r]))
    && (Ordered(start, s.log) ==>
          forall r :: 0 <= r < |s.requests| ==> TimerOk(st, s.requests[r]))
  }

  /** The verdict of one attempt, and what it does to the count. */
  lemma AttemptEffect(st: Settings, start: int, s: System, e: Event)
    requires st.Valid() && e.Attempt? && s.gate == After(st, true, start, s.log)
    ensures var (g, v) := Decide(st, true, s.gate, e);
            && g.inFlight == s.gate.inFlight + (if v.Cold? then e.estimate else 0)
            && (v.OverBudget? ==> BudgetBlocks(s.gate.inFlight, e.estimate, e.budget))
            && (v.OverRate? ==> 0 < st.rate)
            && (v.OverRate? && Ordered(start, s.log + [e]) ==>
                  if st.rate <= MINUTE then 0 < Wait(g.bucket, st.rate, e.at) <= PerToken(st.rate)
                  else Wait(g.bucket, st.rate, e.at) == 0)
  {
    var (g, v) := Decide(st, true, s.gate, e);
    if v.OverRate? && Ordered(start, s.log + [e]) {
      AfterSnoc(st, true, start, s.log, e);
      BucketLedger(st, true, start, s.log);
      assert Front(s.log + [e]) == s.log;
      assert Refill(s.gate.bucket, st.rate, e.at) == s.gate.bucket;
      ArmedWait(s.gate.bucket, st.rate, e.at);
    }
  }

  /** The other sleepers notice a step only through the generation and the count. */
  ghost predicate Calm(start: int, s: System, s': System) {
    && s'.generation == s.generation
    && s.gate.inFlight <= s'.gate.inFlight
    && (Ordered(start, s'.log) ==> Ordered(start, s.log))
  }

  lemma AddRequest(st: Settings, start: int, s: System, s': System, q: Request)
    requires st.Valid() && Inv(st, start, s) && Calm(start, s, s')
    requires s'.gate == After(st, true, start, s'.log)
    requires s'.requests == s.requests + [q]
    requires s'.gate.inFlight == s.gate.inFlight + q.reserved
    requires s'.queue == s.queue + SlotOf(q) <= QUEUE_CAPACITY
    requires SleepOk(st, s', q) && (Ordered(start, s'.log) ==> TimerOk(st, q))
    ensures Inv(st, start, s')
  {
    TotalAppend(ReservedOf, s.requests, q);
    TotalAppend(SlotOf, s.requests, q);
    forall r | 0 <= r < |s'.requests| ensures SleepOk(st, s', s'.requests[r]) {
      if r < |s.requests| { assert SleepOk(st, s, s.requests[r]); }
    }
  }

  lemma ChangeRequest(st: Settings, start: int, s: System, s': System, r: nat, q: Request)
    requires st.Valid() && Inv(st, start, s) && Calm(start, s, s') && r < |s.requests|
    requires s'.gate == After(st, true, start, s'.log)
    requires s'.requests == s.requests[r := q]
    requires s'.gate.inFlight == s.gate.inFlight + q.reserved - s.requests[r].reserved
    requires s'.queue == s.queue + SlotOf(q) - SlotOf(s.requests[r]) <= QUEUE_CAPACITY
    requires SleepOk(st, s', q) && (Ordered(start, s'.log) ==> TimerOk(st, q))
    ensures Inv(st, start, s')
  {
    TotalUpdate(ReservedOf, s.requests, r, q);
    TotalUpdate(SlotOf, s.requests, r, q);
    forall i | 0 <= i < |s'.requests| ensures SleepOk(st, s', s'.requests[i]) {
      if i != r { assert SleepOk(st, s, s.requests[i]); }
    }
  }

  lemma ArriveKeeps(st: Settings, start: int, s: System, session: string, estimate: nat, at: int)
    requires st.Valid() && Inv(st, start, s)
    ensures Inv(st, start, Arriving(st, s, session, estimate, at))
  {
    var e := TryEvent(s, session, estimate, at);
    var s' := Arriving(st, s, session, estimate, at);
    AfterSnoc(st, true, start, s.log, e);
    AttemptEffect(st, start, s, e);
    AddRequest(st, start, s, s', s'.requests[|s.requests|]);
  }

  lemma WakeKeeps(st: Settings, start: int, s: System, r: nat, at: int)
    requires st.Valid() && Inv(st, start, s)
    requires r < |s.requests| && s.requests[r].sleep.Some?
    ensures Inv(st, start, Waking(st, s, r, at))
  {
    var q := s.requests[r];
    var e := TryEvent(s, q.session, q.estimate, at);
    var s' := Waking(st, s, r, at);
    AfterSnoc(st, true, start, s.log, e);
    AttemptEffect(st, start, s, e);
    assert SleepOk(st, s, q);
    ChangeRequest(st, start, s, s', r, s'.requests[r]);
  }

  lemma ReleaseKeeps(st: Settings, start: int, s: System, r: nat)
    requires st.Valid() && Inv(st, start, s)
    requires r < |s.requests| && s.requests[r].reserved > 0
    ensures Inv(st, start, Releasing(s, r))
  {
    var s' := Releasing(s, r);
    AfterSnoc(st, true, start, s.log, Freed(s.requests[r].reserved));
    ReservedBounds(s.requests);
    TotalUpdate(ReservedOf, s.requests, r, s'.requests[r]);
    TotalUpdate(SlotOf, s.requests, r, s'.requests[r]);
    forall i | 0 <= i < |s.requests| ensures SleepOk(st, s', s'.requests[i]) {
      assert SleepOk(st, s, s.requests[i]);
    }
  }

  lemma MoveKeeps(st: Settings, start: int, s: System, m: Move)
    requires st.Valid() && Inv(st, start, s)
    ensures Inv(st, start, Move1(st, s, m))
  {
    var s' := Move1(st, s, m);
    match m
    case Arrive(session, estimate, at) => ArriveKeeps(st, start, s, session, estimate, at);
    case Wake(r, at) => if s' != s { WakeKeeps(st, start, s, r, at); }
    case Release(r) => if s' != s { ReleaseKeeps(st, start, s, r); }
    case GiveUp(r) => if s' != s { ChangeRequest(st, start, s, s', r, s'.requests[r]); }
    case Leave(r) => if s' != s { ChangeRequest(st, start, s, s', r, s'.requests[r]); }
    case SetBudget(_) =>
      forall r | 0 <= r < |s.requests| ensures SleepOk(st, s', s'.requests[r]) {
        assert SleepOk(st, s, s.requests[r]);
      }
  }

  lemma {:induction false} RunKeeps(st: Settings, start: int, budget: int, moves: seq<Move>)
    requires st.Valid()
    ensures Inv(st, start, Run(st, start, budget, moves))
  {
    if moves != [] {
      RunKeeps(st, start, budget, moves[..|moves| - 1]);
      MoveKeeps(st, start, Run(st, start, budget, moves[..|moves| - 1]), moves[|moves| - 1]);
    }
  }

  // ----- Main results -----

  /** In every reachable state the count is exactly the sum of the outstanding
      reservations, so the clamp on release never cuts anything off, and the queue
      counter is the number of slots held, at most 32. */
  lemma LedgerExact(st: Settings, start: int, budget: int, moves: seq<Move>)
    requires st.Valid()
    ensures var s := Run(st, start, budget, moves);
            && s.gate.inFlight == Total(ReservedOf, s.requests)
            && (forall r :: 0 <= r < |s.requests| ==>
                  Free(s.gate, s.requests[r].reserved).inFlight
                  == s.gate.inFlight - s.requests[r].reserved)
            && s.queue == Total(SlotOf, s.requests) <= QUEUE_CAPACITY
            && s.gate == After(st, true, start, s.log)
  {
    RunKeeps(st, start, budget, moves);
    ReservedBounds(Run(st, start, budget, moves).requests);
  }

  lemma RunSnoc(st: Settings, start: int, budget: int, moves: seq<Move>, m: Move)
    requires st.Valid()
    ensures Run(st, start, budget, moves + [m]) == Move1(st, Run(st, start, budget, moves), m)
  {
    assert (moves + [m])[..|moves|] == moves;
  }

  // ----- What each move does -----

  /** How many requests hold a queue slot. */
  ghost function SlotHolders(s: System): nat {
    |set r | 0 <= r < |s.requests| && s.requests[r].slot|
  }

  lemma {:induction false} HoldersCounted(rs: seq<Request>)
    ensures |set r | 0 <= r < |rs| && rs[r].slot| == Total(SlotOf, rs)
  {
    if rs != [] {
      var n := |rs| - 1;
      HoldersCounted(rs[..n]);
      var all, front := set r | 0 <= r < |rs| && rs[r].slot, set r | 0 <= r < n && rs[..n][r].slot;
      assert all == if rs[n].slot then front + {n} else front;
    }
  }

  /** The request is asleep after an attempt that was turned away: for this reason and
      budget, on the present broadcast, with a timer exactly if the rate blocked it and a
      wait could be computed. */
  ghost predicate AsleepFor(st: Settings, s: System, s': System, q: Request, v: Verdict, at: int) {
    var wait := Wait(s'.gate.bucket, st.rate, at);
    q.sleep == Some(Sleep(v, s.budget, s.generation, at,
                          if v == OverRate && wait > 0 then Some(at + wait) else None))
  }

  /** Only request r differs. */
  ghost predicate OnlyChanges(s: System, s': System, r: nat) {
    |s'.requests| == |s.requests| &&
    forall i :: 0 <= i < |s.requests| && i != r ==> s'.requests[i] == s.requests[i]
  }

  /** A newcomer has made its attempt: let in without a queue slot, asleep with one if
      fewer than 32 requests hold one, or turned away without one if 32 do. */
  ghost predicate Arrived(st: Settings, s: System, s': System, e: Event)
    requires st.Valid() && e.Attempt?
  {
    var (g, v) := Decide(st, true, s.gate, e);
    && s'.gate == g && s'.log == s.log + [e] && s'.generation == s.generation && s'.budget == s.budget
    && |s'.requests| == |s.requests| + 1 && s'.requests[..|s.requests|] == s.requests
    && var q := s'.requests[|s.requests|];
       && q.session == e.session && q.estimate == e.estimate
       && q.reserved == (if v == Cold then e.estimate else 0)
       && (v == Warm || v == Cold ==> !q.slot && q.sleep == None)
       && (v == OverBudget || v == OverRate ==>
             && (q.slot && AsleepFor(st, s, s', q, v, e.at) <==> SlotHolders(s) < 32)
             && (!q.slot && q.sleep == None <==> SlotHolders(s) == 32))
  }

  lemma ArriveStep(st: Settings, s: System, session: string, estimate: nat, at: int)
    requires st.Valid() && s.queue == SlotHolders(s) <= 32
    ensures Arrived(st, s, Move1(st, s, Arrive(session, estimate, at)), Attempt(session, estimate, s.budget, at))
  {
  }

  /** On every run, an arrival gets its attempt. Let in, it takes no queue slot and, if cold,
      holds its estimate. Turned away, it sleeps with a slot if and only if fewer than 32
      requests hold one, and leaves without one if and only if 32 do. */
  lemma ArrivalQueuesIff(
      st: Settings, start: int, budget: int, moves: seq<Move>, session: string, estimate: nat, at: int)
    requires st.Valid()
    ensures var s := Run(st, start, budget, moves);
            Arrived(st, s, Run(st, start, budget, moves + [Arrive(session, estimate, at)]),
                    Attempt(session, estimate, s.budget, at))
  {
    var s := Run(st, start, budget, moves);
    RunKeeps(st, start, budget, moves);
    RunSnoc(st, start, budget, moves, Arrive(session, estimate, at));
    HoldersCounted(s.requests);
    ArriveStep(st, s, session, estimate, at);
  }

  /** Nothing happens before the broadcast is over or the timer has run out. */
  ghost predicate StillAsleep(s: System, z: Sleep, at: int) {
    z.generation == s.generation && (z.timer == None || at < z.timer.value)
  }

  /** The request has made its attempt: let in, or asleep again on the present broadcast. */
  ghost predicate Retried(st: Settings, s: System, s': System, r: nat, at: int)
    requires st.Valid() && r < |s.requests|
  {
    var q := s.requests[r];
    var e := Attempt(q.session, q.estimate, s.budget, at);
    var (g, v) := Decide(st, true, s.gate, e);
    && s'.gate == g && s'.log == s.log + [e] && s'.generation == s.generation
    && s'.budget == s.budget && s'.queue == s.queue && OnlyChanges(s, s', r)
    && var q' := s'.requests[r];
       && q'.slot && q'.session == q.session && q'.estimate == q.estimate
       && q'.reserved == (if v == Cold then q.estimate else 0)
       && (v == Warm || v == Cold ==> q'.sleep == None)
       && (v == OverBudget || v == OverRate ==> AsleepFor(st, s, s', q', v, at))
  }

  lemma WakeStep(st: Settings, s: System, r: nat, at: int)
    requires st.Valid() && r < |s.requests| && s.requests[r].sleep.Some? && SleepOk(st, s, s.requests[r])
    ensures StillAsleep(s, s.requests[r].sleep.value, at) ==> Move1(st, s, Wake(r, at)) == s
    ensures !StillAsleep(s, s.requests[r].sleep.value, at) ==> Retried(st, s, Move1(st, s, Wake(r, at)), r, at)
  {
  }

  /** On every run, a sleeper retries exactly when its broadcast is over or its timer has
      run out: its request then gets the verdict of an attempt at that instant, and it is
      let in or sleeps again on the present broadcast, keeping its queue slot. */
  lemma WokenRetries(st: Settings, start: int, budget: int, moves: seq<Move>, r: nat, at: int)
    requires st.Valid()
    requires r < |Run(st, start, budget, moves).requests| && Run(st, start, budget, moves).requests[r].sleep.Some?
    ensures var s, s' := Run(st, start, budget, moves), Run(st, start, budget, moves + [Wake(r, at)]);
            if StillAsleep(s, s.requests[r].sleep.value, at) then s' == s else Retried(st, s, s', r, at)
  {
    var s := Run(st, start, budget, moves);
    RunKeeps(st, start, budget, moves);
    assert SleepOk(st, s, s.requests[r]);
    RunSnoc(st, start, budget, moves, Wake(r, at));
    WakeStep(st, s, r, at);
  }

  /** On every run, a sleeper that gives up and a request let in after waiting give their
      slot back and touch nothing else. */
  lemma SlotGivenBack(st: Settings, start: int, budget: int, moves: seq<Move>, r: nat)
    requires st.Valid()
    requires r < |Run(st, start, budget, moves).requests| && Run(st, start, budget, moves).requests[r].slot
    ensures var s, s' := Run(st, start, budget, moves), Run(st, start, budget, moves + [GiveUp(r)] + [Leave(r)]);
            && s'.requests == s.requests[r := s.requests[r].(slot := false, sleep := None)]
            && s'.gate == s.gate && s'.log == s.log && s'.generation == s.generation && s'.budget == s.budget
            && SlotHolders(s') == SlotHolders(s) - 1
  {
    var s := Run(st, start, budget, moves);
    RunSnoc(st, start, budget, moves, GiveUp(r));
    RunSnoc(st, start, budget, moves + [GiveUp(r)], Leave(r));
    SlotMoves(st, s, r);
    HoldersCounted(s.requests);
    HoldersCounted(s.requests[r := s.requests[r].(slot := false, sleep := None)]);
    TotalUpdate(SlotOf, s.requests, r, s.requests[r].(slot := false, sleep := None));
  }

  lemma SlotMoves(st: Settings, s: System, r: nat)
    requires st.Valid() && r < |s.requests| && s.requests[r].slot
    ensures var s' := Move1(st, Move1(st, s, GiveUp(r)), Leave(r));
            && s'.requests == s.requests[r := s.requests[r].(slot := false, sleep := None)]
            && s'.gate == s.gate && s'.log == s.log && s'.generation == s.generation && s'.budget == s.budget
  {
    var s1 := Move1(st, s, GiveUp(r));
    assert s1.requests[r] == s.requests[r].(sleep := None);
  }

  /** On every run, a release frees exactly what was reserved and ends the broadcast. */
  lemma ReleaseFrees(st: Settings, start: int, budget: int, moves: seq<Move>, r: nat)
    requires st.Valid()
    requires r < |Run(st, start, budget, moves).requests|
    requires !Run(st, start, budget, moves).requests[r].slot && Run(st, start, budget, moves).requests[r].reserved > 0
    ensures var s, s' := Run(st, start, budget, moves), Run(st, start, budget, moves + [Release(r)]);
            && s'.gate == s.gate.(inFlight := s.gate.inFlight - s.requests[r].reserved)
            && s'.requests == s.requests[r := s.requests[r].(reserved := 0)]
            && s'.generation > s.generation && s'.queue == s.queue && s'.budget == s.budget
  {
    RunKeeps(st, start, budget, moves);
    ReservedBounds(Run(st, start, budget, moves).requests);
    RunSnoc(st, start, budget, moves, Release(r));
  }

  // ----- Every reservation is freed once -----

  /** The estimate an event charges. */
  function ChargeOf(st: Settings, g: Gate, e: Event): int
    requires st.Valid()
  {
    if e.Attempt? && Decide(st, true, g, e).1.Cold? then e.estimate else 0
  }

  /** Everything the log charged, and everything it freed. */
  function Charged(st: Settings, start: int, log: History): int
    requires st.Valid()
  {
    if log == [] then 0
    else
      var e := log[|log| - 1];
      Charged(st, start, Front(log)) + ChargeOf(st, After(st, true, start, Front(log)), e)
  }

  function FreedIn(log: History): int {
    if log == [] then 0
    else FreedIn(Front(log)) + if log[|log| - 1].Freed? then log[|log| - 1].estimate else 0
  }

  /** How many reservations the log made, and how many releases it holds. */
  function Reservations(st: Settings, start: int, log: History): nat
    requires st.Valid()
  {
    if log == [] then 0
    else
      var e := log[|log| - 1];
      Reservations(st, start, Front(log))
      + if ChargeOf(st, After(st, true, start, Front(log)), e) > 0 then 1 else 0
  }

  function Releases(log: History): nat {
    if log == [] then 0 else Releases(Front(log)) + if log[|log| - 1].Freed? then 1 else 0
  }

  /** The books balance. */
  ghost predicate Balanced(st: Settings, start: int, s: System)
    requires st.Valid()
  {
    && Charged(st, start, s.log) == FreedIn(s.log) + s.gate.inFlight
    && Reservations(st, start, s.log) == Releases(s.log) + Total(HolderOf, s.requests)
  }

  /** An attempt adds one record, or changes one that held nothing, to hold its charge. */
  ghost predicate Attempted(st: Settings, s: System, s': System, e: Event, q: Request)
    requires st.Valid()
  {
    && e.Attempt? && e.budget == s.budget && 0 <= e.estimate
    && s'.log == s.log + [e] && s'.gate == Decide(st, true, s.gate, e).0 && s'.budget == s.budget
    && q.reserved == ChargeOf(st, s.gate, e)
    && Total(HolderOf, s'.requests) == Total(HolderOf, s.requests) + HolderOf(q)
  }

  lemma ArriveAttempts(st: Settings, s: System, session: string, estimate: nat, at: int) returns (q: Request)
    requires st.Valid()
    ensures Attempted(st, s, Arriving(st, s, session, estimate, at), TryEvent(s, session, estimate, at), q)
  {
    q := Arriving(st, s, session, estimate, at).requests[|s.requests|];
    TotalAppend(HolderOf, s.requests, q);
  }

  lemma WakeAttempts(st: Settings, s: System, r: nat, at: int) returns (q: Request)
    requires st.Valid() && r < |s.requests| && s.requests[r].sleep.Some? && SleepOk(st, s, s.requests[r])
    ensures Attempted(st, s, Waking(st, s, r, at), TryEvent(s, s.requests[r].session, s.requests[r].estimate, at), q)
  {
    q := Waking(st, s, r, at).requests[r];
    TotalUpdate(HolderOf, s.requests, r, q);
  }

  /** Giving up, leaving the queue and a new budget touch no reservation. */
  lemma OthersHoldStill(st: Settings, s: System, m: Move)
    requires st.Valid() && (m.GiveUp? || m.Leave? || m.SetBudget?)
    ensures var s' := Move1(st, s, m);
            && s'.log == s.log && s'.gate == s.gate && (!m.SetBudget? ==> s'.budget == s.budget)
            && Total(HolderOf, s'.requests) == Total(HolderOf, s.requests)
  {
    var s' := Move1(st, s, m);
    if s' != s && !m.SetBudget? { TotalUpdate(HolderOf, s.requests, m.r, s'.requests[m.r]); }
  }

  lemma AttemptBooks(st: Settings, start: int, s: System, s': System, e: Event, q: Request)
    requires st.Valid() && Inv(st, start, s) && Balanced(st, start, s) && Attempted(st, s, s', e, q)
    ensures Balanced(st, start, s')
  {
    assert Front(s'.log) == s.log;
    AttemptEffect(st, start, s, e);
  }

  lemma ReleaseBooks(st: Settings, start: int, s: System, r: nat)
    requires st.Valid() && Inv(st, start, s) && Balanced(st, start, s)
    requires r < |s.requests| && s.requests[r].reserved > 0
    ensures Balanced(st, start, Releasing(s, r))
  {
    var s' := Releasing(s, r);
    assert Front(s'.log) == s.log;
    ReservedBounds(s.requests);
    TotalUpdate(HolderOf, s.requests, r, s'.requests[r]);
  }

  lemma MoveBooks(st: Settings, start: int, s: System, m: Move)
    requires st.Valid() && Inv(st, start, s) && Balanced(st, start, s)
    ensures Balanced(st, start, Move1(st, s, m))
  {
    var s' := Move1(st, s, m);
    if s' != s {
      match m
      case Arrive(session, estimate, at) =>
        var q := ArriveAttempts(st, s, session, estimate, at);
        AttemptBooks(st, start, s, s', TryEvent(s, session, estimate, at), q);
      case Wake(r, at) =>
        assert SleepOk(st, s, s.requests[r]);
        var q := WakeAttempts(st, s, r, at);
        AttemptBooks(st, start, s, s', TryEvent(s, s.requests[r].session, s.requests[r].estimate, at), q);
      case Release(r) => ReleaseBooks(st, start, s, r);
      case _ => OthersHoldStill(st, s, m);
    }
  }

  /** Over every run: what cold admissions were charged equals what was freed plus what is
      still in flight, and the reservations made equal the releases plus the requests
      still holding one, so that each is freed exactly once or not yet. */
  lemma {:induction false} ReleasedExactlyOnce(st: Settings, start: int, budget: int, moves: seq<Move>)
    requires st.Valid()
    ensures Balanced(st, start, Run(st, start, budget, moves))
  {
    if moves != [] {
      var front := moves[..|moves| - 1];
      ReleasedExactlyOnce(st, start, budget, front);
      RunKeeps(st, start, budget, front);
      MoveBooks(st, start, Run(st, start, budget, front), moves[|moves| - 1]);
    }
  }

  // ----- Over budget -----

  /** Every budget of the run lies between 1 and the ceiling. */
  ghost predicate BudgetsWithin(budget: int, moves: seq<Move>, ceiling: int) {
    && 1 <= budget <= ceiling
    && forall m :: m in moves && m.SetBudget? ==> 1 <= m.budget <= ceiling
  }

  /** The count exceeds the ceiling only while exactly one reservation is outstanding. */
  ghost predicate Within(s: System, ceiling: int) {
    && 1 <= s.budget <= ceiling
    && (ceiling < s.gate.inFlight ==> Total(HolderOf, s.requests) == 1)
  }

  lemma WithinAttempt(st: Settings, start: int, s: System, s': System, ceiling: int, e: Event, q: Request)
    requires st.Valid() && Inv(st, start, s) && Within(s, ceiling) && Attempted(st, s, s', e, q)
    ensures Within(s', ceiling)
  {
    AttemptEffect(st, start, s, e);
    ReservedBounds(s.requests);
  }

  lemma WithinRelease(st: Settings, start: int, s: System, ceiling: int, r: nat)
    requires st.Valid() && Inv(st, start, s) && Within(s, ceiling)
    requires r < |s.requests| && s.requests[r].reserved > 0
    ensures Within(Releasing(s, r), ceiling)
  {
    ReservedBounds(s.requests);
    TotalUpdate(HolderOf, s.requests, r, Releasing(s, r).requests[r]);
  }

  lemma WithinKeeps(st: Settings, start: int, s: System, ceiling: int, m: Move)
    requires st.Valid() && Inv(st, start, s) && Within(s, ceiling)
    requires m.SetBudget? ==> 1 <= m.budget <= ceiling
    ensures Within(Move1(st, s, m), ceiling)
  {
    var s' := Move1(st, s, m);
    if s' != s {
      match m
      case Arrive(session, estimate, at) =>
        var q := ArriveAttempts(st, s, session, estimate, at);
        WithinAttempt(st, start, s, s', ceiling, TryEvent(s, session, estimate, at), q);
      case Wake(r, at) =>
        assert SleepOk(st, s, s.requests[r]);
        var q := WakeAttempts(st, s, r, at);
        WithinAttempt(st, start, s, s', ceiling, TryEvent(s, s.requests[r].session, s.requests[r].estimate, at), q);
      case Release(r) => WithinRelease(st, start, s, ceiling, r);
      case _ => OthersHoldStill(st, s, m);
    }
  }

  /** Over every run whose budgets stay between 1 and a ceiling, whatever they do there,
      the count exceeds the ceiling only while exactly one reservation is outstanding. */
  lemma {:induction false} OneHolderOverCeiling(
      st: Settings, start: int, budget: int, moves: seq<Move>, ceiling: int)
    requires st.Valid() && BudgetsWithin(budget, moves, ceiling)
    ensures Within(Run(st, start, budget, moves), ceiling)
  {
    if moves != [] {
      var front, m := moves[..|moves| - 1], moves[|moves| - 1];
      assert forall x :: x in front ==> x in moves;
      OneHolderOverCeiling(st, start, budget, front, ceiling);
      RunKeeps(st, start, budget, front);
      WithinKeeps(st, start, Run(st, start, budget, front), ceiling, m);
    }
  }

  /** Every budget of the run is one the controller reached on some history. */
  ghost predicate Controlled(c: Backpressure.Controls, moves: seq<Move>)
    requires c.Valid()
  {
    forall m :: m in moves && m.SetBudget? ==> exists h :: m.budget == Backpressure.After(c, h).budget
  }

  /** A gate under its backpressure controller: the count exceeds the configured ceiling
      only while exactly one reservation is outstanding, and is then that one estimate. */
  lemma ControlledRun(st: Settings, start: int, c: Backpressure.Controls, moves: seq<Move>)
    requires st.Valid() && c.Valid() && c.Fits() && Controlled(c, moves)
    ensures var s := Run(st, start, c.ceiling, moves);
            c.ceiling < s.gate.inFlight ==>
              exists r :: 0 <= r < |s.requests| && s.requests[r].reserved == s.gate.inFlight
  {
    Backpressure.BudgetBounds(c);
    forall m | m in moves && m.SetBudget? ensures 1 <= m.budget <= c.ceiling {
      var h :| m.budget == Backpressure.After(c, h).budget;
      Backpressure.AfterBounds(c, h);
    }
    OneHolderOverCeiling(st, start, c.ceiling, moves, c.ceiling);
    RunKeeps(st, start, c.ceiling, moves);
    ReservedBounds(Run(st, start, c.ceiling, moves).requests);
  }

  // ----- What a sleeper would meet -----

  /** A budget-blocked sleeper that no broadcast has reached. */
  predicate Listening(s: System, r: nat) {
    && r < |s.requests| && s.requests[r].sleep.Some?
    && s.requests[r].sleep.value.reason.OverBudget?
    && s.requests[r].sleep.value.generation == s.generation
  }

  /** The verdict the sleeper's request would get now. */
  function VerdictNow(st: Settings, s: System, r: nat, at: int): Verdict
    requires st.Valid() && r < |s.requests|
  {
    Decide(st, true, s.gate, TryEvent(s, s.requests[r].session, s.requests[r].estimate, at)).1
  }

  /** Somebody with the sleeper's id has been admitted less than a window ago. */
  ghost predicate GrownWarm(st: Settings, start: int, s: System, r: nat, at: int)
    requires st.Valid() && r < |s.requests|
  {
    RecentlyAdmitted(Admissions(st, true, start, s.log), s.requests[r].session, at, st.window)
  }

  /** On every run, whatever the budgets: a budget-blocked sleeper no broadcast has reached
      would now be let in as warm if and only if its id has been admitted meanwhile, and
      otherwise still be turned away if and only if the budget is still too small; and it
      is, unless it was raised or switched off since. */
  lemma TurnedAwayIff(st: Settings, start: int, budget: int, moves: seq<Move>, r: nat, at: int)
    requires st.Valid()
    requires var s := Run(st, start, budget, moves);
             Listening(s, r) && Ordered(start, s.log) && Now(start, s.log) <= at
    ensures var s := Run(st, start, budget, moves);
            var q, v := s.requests[r], VerdictNow(st, s, r, at);
            && (v == Warm <==> GrownWarm(st, start, s, r, at))
            && (v == OverBudget <==>
                  !GrownWarm(st, start, s, r, at) && 0 < s.budget < s.gate.inFlight + q.estimate)
            && (0 < s.budget <= q.sleep.value.budget ==> s.budget < s.gate.inFlight + q.estimate)
  {
    var s := Run(st, start, budget, moves);
    var e := TryEvent(s, s.requests[r].session, s.requests[r].estimate, at);
    RunKeeps(st, start, budget, moves);
    assert SleepOk(st, s, s.requests[r]);
    AfterSnoc(st, true, start, s.log, e);
    assert Front(s.log + [e]) == s.log;
    WarmByHistory(st, true, start, s.log + [e]);
  }

  /** With a fixed budget every sleeper was measured against it. */
  ghost predicate FixedInv(s: System, budget: int) {
    && s.budget == budget
    && forall r :: 0 <= r < |s.requests| ==>
         (s.requests[r].sleep.Some? ==> s.requests[r].sleep.value.budget == budget)
  }

  lemma FixedKeeps(st: Settings, s: System, budget: int, m: Move)
    requires st.Valid() && FixedInv(s, budget) && !m.SetBudget?
    ensures FixedInv(Move1(st, s, m), budget)
  {
  }

  lemma {:induction false} FixedMeasures(st: Settings, start: int, budget: int, moves: seq<Move>)
    requires st.Valid() && FixedBudget(moves)
    ensures FixedInv(Run(st, start, budget, moves), budget)
  {
    if moves != [] {
      var front := moves[..|moves| - 1];
      FixedMeasures(st, start, budget, front);
      FixedKeeps(st, Run(st, start, budget, front), budget, moves[|moves| - 1]);
    }
  }

  /** With a fixed budget, over every run: a budget-blocked sleeper no broadcast has reached
      still fails the budget test, so that it would be let in, as warm, if and only if its
      id has been admitted meanwhile; and the count exceeds a positive budget only while
      exactly one reservation is outstanding. */
  lemma FixedBudgetRun(st: Settings, start: int, budget: int, moves: seq<Move>)
    requires st.Valid() && FixedBudget(moves)
    ensures var s := Run(st, start, budget, moves);
            && (forall r: nat :: Listening(s, r) ==> BudgetBlocks(s.gate.inFlight, s.requests[r].estimate, budget))
            && (forall r: nat, at :: Listening(s, r) && Ordered(start, s.log) && Now(start, s.log) <= at ==>
                  VerdictNow(st, s, r, at) == if GrownWarm(st, start, s, r, at) then Warm else OverBudget)
            && (0 < budget ==> Within(s, budget))
  {
    var s := Run(st, start, budget, moves);
    if 0 < budget { OneHolderOverCeiling(st, start, budget, moves, budget); }
    RunKeeps(st, start, budget, moves);
    FixedMeasures(st, start, budget, moves);
    forall r: nat | Listening(s, r) ensures BudgetBlocks(s.gate.inFlight, s.requests[r].estimate, budget) {
      assert SleepOk(st, s, s.requests[r]);
    }
    forall r: nat, at | Listening(s, r) && Ordered(start, s.log) && Now(start, s.log) <= at
      ensures VerdictNow(st, s, r, at) == if GrownWarm(st, start, s, r, at) then Warm else OverBudget
    {
      TurnedAwayIff(st, start, budget, moves, r, at);
    }
  }

  /** A gate without a rate, with 5 of its 6 tokens in flight and "x" asleep for 3 more. */
  ghost predicate FiveOfSix(s: System) {
    && s.gate.inFlight == 5 && s.gate.seen == map[] && s.budget == 6 && s.generation == 0
    && |s.requests| == 2 && s.requests[1].session == "x" && s.requests[1].estimate == 3
    && s.requests[1].sleep == Some(Sleep(OverBudget, 6, 0, 0, None))
    && Ordered(0, s.log) && Now(0, s.log) == 0
  }

  const NO_RATE: Settings := Settings(DEFAULT_WINDOW, 0)

  lemma FiveTaken()
    ensures var s := Move1(NO_RATE, Start(0, 6), Arrive("", 5, 0));
            && s.gate.inFlight == 5 && s.gate.seen == map[] && s.budget == 6 && s.generation == 0
            && s.queue == 0 && |s.requests| == 1 && Ordered(0, s.log) && Now(0, s.log) == 0
  {
    AfterSnoc(NO_RATE, true, 0, [], Attempt("", 5, 6, 0));
  }

  lemma ThreeSleep(s: System)
    requires s.gate.inFlight == 5 && s.gate.seen == map[] && s.budget == 6 && s.generation == 0
    requires s.queue == 0 && |s.requests| == 1 && Ordered(0, s.log) && Now(0, s.log) == 0
    ensures FiveOfSix(Move1(NO_RATE, s, Arrive("x", 3, 0)))
  {
    AfterSnoc(NO_RATE, true, 0, s.log, Attempt("x", 3, 6, 0));
  }

  lemma FiveOfSixRun() returns (moves: seq<Move>)
    ensures FiveOfSix(Run(NO_RATE, 0, 6, moves)) && FixedBudget(moves)
  {
    var a, b := Arrive("", 5, 0), Arrive("x", 3, 0);
    moves := [] + [a] + [b];
    RunSnoc(NO_RATE, 0, 6, [], a);
    RunSnoc(NO_RATE, 0, 6, [] + [a], b);
    FiveTaken();
    ThreeSleep(Run(NO_RATE, 0, 6, [] + [a]));
  }

  /** A small request of the same id is let in, and nothing tells the sleeper, who would
      now be warm. */
  lemma WarmSleeperForgotten() returns (moves: seq<Move>)
    ensures var s := Run(NO_RATE, 0, 6, moves);
            && FixedBudget(moves) && Ordered(0, s.log) && Now(0, s.log) == 0
            && Listening(s, 1) && !Woken(s, 1, 0) && VerdictNow(NO_RATE, s, 1, 0) == Warm
  {
    moves := FiveOfSixRun();
    RunSnoc(NO_RATE, 0, 6, moves, Arrive("x", 1, 0));
    OneFits(Run(NO_RATE, 0, 6, moves));
    moves := moves + [Arrive("x", 1, 0)];
    SeenIsWarm(Run(NO_RATE, 0, 6, moves));
  }

  lemma SeenIsWarm(s: System)
    requires |s.requests| > 1 && s.requests[1].session == "x" && s.gate.seen == map["x" := 0]
    ensures VerdictNow(NO_RATE, s, 1, 0) == Warm
  {
  }

  lemma OneFits(s: System)
    requires FiveOfSix(s)
    ensures var s' := Move1(NO_RATE, s, Arrive("x", 1, 0));
            && s'.gate.seen == map["x" := 0] && s'.budget == 6 && s'.generation == 0 && |s'.requests| == 3
            && s'.requests[1] == s.requests[1] && Ordered(0, s'.log) && Now(0, s'.log) == 0
  {
    AfterSnoc(NO_RATE, true, 0, s.log, Attempt("x", 1, 6, 0));
  }

  /** The controller raises the budget, and nothing tells the sleeper, who would now fit. */
  lemma RaisedBudgetForgotten() returns (moves: seq<Move>)
    ensures var s := Run(NO_RATE, 0, 6, moves);
            && Ordered(0, s.log) && Now(0, s.log) == 0
            && Listening(s, 1) && !Woken(s, 1, 0) && VerdictNow(NO_RATE, s, 1, 0) == Cold
  {
    moves := FiveOfSixRun();
    RunSnoc(NO_RATE, 0, 6, moves, SetBudget(8));
    moves := moves + [SetBudget(8)];
  }

  // ----- Wakeups -----

  /** No lost wakeup, whatever the budget does: an idle gate never leaves a
      budget-blocked sleeper behind; a rate-blocked one owns a timer if and only if the
      rate is at most one token per nanosecond; and every other sleeper is already woken
      or sleeps while some request holds a reservation whose release wakes it. */
  lemma NoLostWakeup(st: Settings, start: int, budget: int, moves: seq<Move>, r: nat, at: int)
    requires st.Valid()
    requires var s := Run(st, start, budget, moves);
             r < |s.requests| && s.requests[r].sleep.Some?
    ensures var s := Run(st, start, budget, moves);
            var z := s.requests[r].sleep.value;
            && (z.reason.OverBudget? && s.gate.inFlight == 0 ==> Woken(s, r, at))
            && (z.reason.OverRate? && Ordered(start, s.log) ==>
                  && 0 < st.rate && (z.timer.Some? <==> st.rate <= MINUTE)
                  && (z.timer.Some? ==> z.since < z.timer.value <= z.since + PerToken(st.rate)))
            && (!Woken(s, r, at) && !z.reason.OverRate? ==>
                  exists q :: 0 <= q < |s.requests| && q != r && s.requests[q].reserved > 0
                              && WakesOnRelease(st, s, q, r, at))
  {
    var s := Run(st, start, budget, moves);
    RunKeeps(st, start, budget, moves);
    assert SleepOk(st, s, s.requests[r]) && (Ordered(start, s.log) ==> TimerOk(st, s.requests[r]));
    assert forall q :: 0 <= q < |s.requests| ==> SleepOk(st, s, s.requests[q]);
    if !Woken(s, r, at) && !s.requests[r].sleep.value.reason.OverRate? {
      ReservedBounds(s.requests);
      var q: nat :| q < |s.requests| && s.requests[q].reserved > 0;
      ReleaseWakes(st, s, q, r, at);
    }
  }

  lemma ReleaseWakes(st: Settings, s: System, q: nat, r: nat, at: int)
    requires st.Valid() && q < |s.requests| && s.requests[q].reserved > 0
    requires r < |s.requests| && s.requests[r].sleep.Some?
    requires SleepOk(st, s, s.requests[q]) && SleepOk(st, s, s.requests[r])
    ensures q != r && WakesOnRelease(st, s, q, r, at)
  {
    var s1 := Move1(st, s, Leave(q));
    assert s1.requests[r] == s.requests[r] && s1.generation == s.generation;
    assert !s1.requests[q].slot && s1.requests[q].reserved > 0;
  }

  /** Above that rate a sleeper really is left alone: the second of two requests in one
      nanosecond is blocked, with no timer and no reservation to wait for. */
  lemma TooFastForTimers(st: Settings) returns (moves: seq<Move>)
    requires st.Valid() && st.rate > MINUTE
    ensures var s := Run(st, 0, 0, moves);
            && Ordered(0, s.log) && |s.requests| == 2 && s.gate.inFlight == 0
            && s.requests[1].sleep == Some(Sleep(OverRate, 0, 0, 0, None))
  {
    var m := Arrive("", 0, 0);
    moves := [m];
    assert [m] == [] + [m];
    RunSnoc(st, 0, 0, [], m);
    FirstTakes(st);
    RunSnoc(st, 0, 0, moves, m);
    SecondSleeps(st, Run(st, 0, 0, moves));
    moves := moves + [m];
  }

  lemma FirstTakes(st: Settings)
    requires st.Valid() && st.rate > MINUTE
    ensures var s := Move1(st, Start(0, 0), Arrive("", 0, 0));
            && s.gate.bucket == Bucket(0, 0) && s.gate.inFlight == 0 && s.budget == 0 && s.queue == 0
            && s.generation == 0 && |s.requests| == 1 && s.log == [Attempt("", 0, 0, 0)] && Ordered(0, s.log)
  {
    var e := Attempt("", 0, 0, 0);
    assert [] + [e] == [e];
    assert Refill(Bucket(1, 0), st.rate, 0) == Bucket(1, 0);
    assert Decide(st, true, Initial(0), e).1 == Cold;
    AfterSnoc(st, true, 0, [], e);
  }

  lemma SecondSleeps(st: Settings, s: System)
    requires st.Valid() && st.rate > MINUTE
    requires s.gate.bucket == Bucket(0, 0) && s.gate.inFlight == 0 && s.budget == 0 && s.queue == 0
    requires s.generation == 0 && |s.requests| == 1 && s.log == [Attempt("", 0, 0, 0)] && Ordered(0, s.log)
    ensures var s' := Move1(st, s, Arrive("", 0, 0));
            && Ordered(0, s'.log) && |s'.requests| == 2 && s'.gate.inFlight == 0
            && s'.requests[1].sleep == Some(Sleep(OverRate, 0, 0, 0, None))
  {
    assert Refill(Bucket(0, 0), st.rate, 0) == Bucket(0, 0);
    ArmedWait(Bucket(0, 0), st.rate, 0);
    AfterSnoc(st, true, 0, s.log, Attempt("", 0, 0, 0));
  }

  /** Releasing q's reservation, once q has left the queue, wakes r. */
  ghost predicate WakesOnRelease(st: Settings, s: System, q: nat, r: nat, at: int)
    requires st.Valid() && q < |s.requests| && r < |s.requests|
  {
    var s' := Move1(st, Move1(st, s, Leave(q)), Release(q));
    r < |s'.requests| && s'.requests[r].sleep.Some? && Woken(s', r, at)
  }
}
