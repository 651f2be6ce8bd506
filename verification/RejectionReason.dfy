/** Attributing every 429: the per-request slot the first refusing gate writes, the chain
    of status recorders the response passes, and the router's one counter. */
module RejectionReason {

  import opened GoInts

  datatype Reason = QueueTimeout | HostQueueTimeout | Throttle | ColdStart | CircuitOpen | Upstream

  /** The reasons a gate may record. */
  type GateReason = r: Reason | r != Upstream witness Throttle

  const TOO_MANY: Code := 429
  const STATUS_OK: Code := 200

  /** A status net/http lets a handler write. */
  type Code = c: int | 100 <= c <= 999 witness 200

  // ----- The course of one request -----

  /** One call on the response writer. */
  datatype Act = Header(code: Code) | Body

  /** What happens below the pool on one selection: a host or member queue timed out, the
      client left, the request was handed back, or the proxy wrote a response and either
      returned or aborted by panicking. */
  datatype Try = Refused(gate: GateReason) | Gone | HandedBack | Proxied(acts: seq<Act>, aborts: bool)

  /** What happens to a request: a gate refuses it, its client leaves while a gate holds
      it, a gate admits it (watching the status through a recorder of its own or not), or
      it reaches the pool, which selects until a try is not handed back or the client has
      gone. */
  datatype Course =
    | Stopped(gate: GateReason)
    | Left
    | Admitted(watched: bool, inner: Course)
    | Pool(tries: seq<Try>)

  // ----- The mutable pieces -----

  class RejectionSlot {
    var reason: Option<GateReason>

    constructor ()
      ensures reason == None
    {
      reason := None;
    }

    /** First writer wins. */
    method Record(r: GateReason)
      modifies this
      ensures reason == if old(reason).Some? then old(reason) else Some(r)
    {
      if reason.Some? {
        return;
      }
      reason := Some(r);
    }

    function ReasonOf(): Reason
      reads this
    {
      if reason.Some? then reason.value else Upstream
    }
  }

  datatype Recorder = Recorder(status: int, wroteHeader: bool)

  const BLANK: Recorder := Recorder(0, false)

  /** What a recorder holds after one more header: the first one stays. */
  function Headed(r: Recorder, code: Code): Recorder {
    if r.wroteHeader then r else Recorder(code, true)
  }

  /** The nested recorders, the router's first, and the headers that reached the client's
      connection. */
  class ResponseChain {
    var recorders: seq<Recorder>
    var sent: seq<Code>

    /** All recorders agree, and exactly the header they recorded went out. */
    ghost predicate Valid()
      reads this
    {
      && |recorders| > 0
      && (forall i :: 0 <= i < |recorders| ==> recorders[i] == recorders[0])
      && (recorders[0].wroteHeader ==> 100 <= recorders[0].status <= 999)
      && (!recorders[0].wroteHeader ==> recorders[0] == BLANK)
      && sent == if recorders[0].wroteHeader then [recorders[0].status] else []
    }

    constructor ()
      ensures Valid() && recorders == [BLANK]
    {
      recorders, sent := [BLANK], [];
    }

    /** Pass a header inwards out: each recorder keeps and forwards only its first. */
    method WriteHeader(code: Code)
      requires Valid()
      modifies this
      ensures Valid() && |recorders| == |old(recorders)| && recorders[0] == Headed(old(recorders[0]), code)
    {
      var i := |recorders|;
      while i > 0 && !recorders[i - 1].wroteHeader
        invariant 0 <= i <= |recorders| == |old(recorders)| && sent == old(sent)
        invariant forall j :: 0 <= j < i ==> recorders[j] == old(recorders[0])
        invariant forall j :: i <= j < |recorders| ==> recorders[j] == Recorder(code, true)
        invariant i < |recorders| ==> !old(recorders[0]).wroteHeader
      {
        i := i - 1;
        recorders := recorders[i := Recorder(code, true)];
      }
      if i == 0 {
        sent := sent + [code];
      }
    }

    /** A body write: an implicit 200 unless a header went first. */
    method Write()
      requires Valid()
      modifies this
      ensures Valid() && |recorders| == |old(recorders)| && recorders[0] == Headed(old(recorders[0]), STATUS_OK)
    {
      if !recorders[|recorders| - 1].wroteHeader {
        WriteHeader(STATUS_OK);
      }
    }

    method WriteRateLimited(slot: RejectionSlot, reason: GateReason)
      requires Valid()
      modifies this, slot
      ensures Valid() && |recorders| == |old(recorders)|
      ensures recorders[0] == Headed(old(recorders[0]), TOO_MANY)
      ensures slot.reason == if old(slot.reason).Some? then old(slot.reason) else Some(reason)
    {
      slot.Record(reason);
      WriteHeader(TOO_MANY);
      Write();
    }

    /** The proxy's calls, one after the other. */
    method Relay(acts: seq<Act>)
      requires Valid()
      modifies this
      ensures Valid() && |recorders| == |old(recorders)|
      ensures recorders[0] == Relayed(old(recorders[0]), acts)
    {
      for i := 0 to |acts|
        invariant Valid() && |recorders| == |old(recorders)|
        invariant recorders[0] == Relayed(old(recorders[0]), acts[..i])
      {
        assert acts[..i + 1][..i] == acts[..i];
        match acts[i]
        case Header(code) => WriteHeader(code);
        case Body => Write();
      }
      assert acts[..|acts|] == acts;
    }

    /** One selection below the pool. */
    method ServeTry(t: Try, slot: RejectionSlot) returns (bounced: bool, aborted: bool)
      requires Valid() && recorders[0] == BLANK && slot.reason == None
      modifies this, slot
      ensures Valid() && |recorders| == |old(recorders)|
      ensures bounced == t.HandedBack? && aborted == (t.Proxied? && t.aborts)
      ensures recorders[0] == TryRecord(t)
      ensures slot.reason == if t.Refused? then Some(t.gate) else None
    {
      bounced, aborted := false, false;
      match t
      case Refused(gate) => WriteRateLimited(slot, gate);
      case Gone =>
      case HandedBack => bounced := true;
      case Proxied(acts, aborts) =>
        Relay(acts);
        aborted := aborts;
    }

    /** The whole stack. `seen` lists the status each watching gate observed. */
    method Serve(c: Course, slot: RejectionSlot) returns (seen: seq<int>, aborted: bool)
      requires Valid() && recorders[0] == BLANK && slot.reason == None
      modifies this, slot
      ensures Valid() && |recorders| == |old(recorders)|
      ensures aborted == Aborts(c)
      ensures recorders[0] == RecordOf(c)
      ensures slot.reason == RefusedBy(c)
      ensures forall i :: 0 <= i < |seen| ==> seen[i] == recorders[0].status
      decreases c
    {
      seen, aborted := [], false;
      match c
      case Stopped(gate) => WriteRateLimited(slot, gate);
      case Left =>
      case Admitted(watched, inner) =>
        if watched {
          recorders := recorders + [BLANK];
          seen, aborted := Serve(inner, slot);
          if !aborted {
            seen := seen + [recorders[|recorders| - 1].status];
          }
          recorders := recorders[..|recorders| - 1];
        } else {
          seen, aborted := Serve(inner, slot);
        }
      case Pool(tries) =>
        var bounced, i := true, 0;
        while bounced && i < |tries|
          invariant 0 <= i <= |tries|
          invariant Valid() && |recorders| == |old(recorders)|
          invariant bounced ==> recorders[0] == BLANK && slot.reason == None && !aborted
          invariant bounced ==> LastTry(tries) == LastTry(tries[i..])
          invariant !bounced ==>
                      && recorders[0] == TryRecord(LastTry(tries))
                      && aborted == (LastTry(tries).Proxied? && LastTry(tries).aborts)
                      && slot.reason == if LastTry(tries).Refused? then Some(LastTry(tries).gate) else None
        {
          assert tries[i..][0] == tries[i] && tries[i..][1..] == tries[i + 1..];
          bounced, aborted := ServeTry(tries[i], slot);
          i := i + 1;
        }
    }
  }

  // ----- What a course amounts to -----

  ghost function Relayed(r: Recorder, acts: seq<Act>): Recorder {
    if acts == [] then r
    else
      var last := acts[|acts| - 1];
      Headed(Relayed(r, acts[..|acts| - 1]), if last.Header? then last.code else STATUS_OK)
  }

  /** The try that ended the selection loop; a request handed back every time has lost its
      client. */
  ghost function LastTry(tries: seq<Try>): Try {
    if tries == [] then Gone else if tries[0].HandedBack? then LastTry(tries[1..]) else tries[0]
  }

  /** The pool's loop ends with the first try that is not handed back. */
  lemma {:induction false} LoopEnds(tries: seq<Try>, i: nat)
    requires i <= |tries| && forall j :: 0 <= j < i ==> tries[j] == HandedBack
    requires i < |tries| ==> tries[i] != HandedBack
    ensures LastTry(tries) == if i < |tries| then tries[i] else Gone
  {
    if i > 0 {
      LoopEnds(tries[1..], i - 1);
    }
  }

  /** Where the course ends, seen as a try. */
  ghost function End(c: Course): Try {
    match c
    case Stopped(gate) => Refused(gate)
    case Left => Gone
    case Admitted(_, inner) => End(inner)
    case Pool(tries) => LastTry(tries)
  }

  ghost function TryRecord(t: Try): Recorder {
    match t
    case Refused(_) => Recorder(TOO_MANY, true)
    case Proxied(acts, _) => Relayed(BLANK, acts)
    case _ => BLANK
  }

  ghost function RecordOf(c: Course): Recorder {
    TryRecord(End(c))
  }

  ghost predicate Aborts(c: Course) {
    End(c).Proxied? && End(c).aborts
  }

  ghost function RefusedBy(c: Course): Option<GateReason> {
    if End(c).Refused? then Some(End(c).gate) else None
  }

  // ----- The router -----

  predicate Informational(code: Code) {
    100 <= code < 200 && code != 101
  }

  /** The status the client's connection settles on: the first header that is not
      informational, or net/http's implicit 200. */
  function ClientStatus(sent: seq<Code>): Code {
    if sent == [] then STATUS_OK
    else if Informational(sent[0]) then ClientStatus(sent[1..])
    else sent[0]
  }

  type Counters = map<(string, Reason), nat>

  function CountOf(m: Counters, provider: string, r: Reason): nat {
    if (provider, r) in m then m[(provider, r)] else 0
  }

  function Bump(m: Counters, provider: string, r: Reason): Counters {
    m[(provider, r) := CountOf(m, provider, r) + 1]
  }

  class Router {
    var rejected: Counters

    constructor ()
      ensures rejected == map[]
    {
      rejected := map[];
    }

    /** Serve one request with a slot and recorder of its own and count its refusal; a
        panic unwinds past the counting. */
    method Dispatch(provider: string, c: Course) returns (sent: seq<Code>)
      modifies this
      ensures sent == SentBy(c)
      ensures rejected == Observed(old(rejected), provider, c)
    {
      var slot := new RejectionSlot();
      var chain := new ResponseChain();
      var _, aborted := chain.Serve(c, slot);
      RecordFromEnd(c);
      sent := chain.sent;
      if aborted {
        return;
      }
      var status := chain.recorders[0].status;
      if status == 0 {
        status := STATUS_OK;
      }
      if status == TOO_MANY {
        rejected := Bump(rejected, provider, slot.ReasonOf());
      }
    }
  }

  /** The headers that reach the client's connection. */
  ghost function SentBy(c: Course): seq<Code> {
    var t := End(c);
    if t.Refused? then [TOO_MANY]
    else if t.Proxied? && t.acts != [] then [FirstCode(t.acts)]
    else []
  }

  /** The first call on the writer decides the status. */
  ghost function FirstCode(acts: seq<Act>): Code
    requires acts != []
  {
    if acts[0].Header? then acts[0].code else STATUS_OK
  }

  /** The reason a course is counted under, by where it ends. */
  ghost function Cause(c: Course): Option<Reason> {
    match End(c)
    case Refused(gate) => Some(gate)
    case Proxied(acts, aborts) =>
      if !aborts && acts != [] && FirstCode(acts) == TOO_MANY then Some(Upstream) else None
    case _ => None
  }

  ghost function Observed(m: Counters, provider: string, c: Course): Counters {
    if Cause(c).Some? then Bump(m, provider, Cause(c).value) else m
  }

  lemma {:induction false} FirstCallDecides(acts: seq<Act>)
    requires acts != []
    ensures Relayed(BLANK, acts) == Recorder(FirstCode(acts), true)
  {
    if |acts| > 1 {
      FirstCallDecides(acts[..|acts| - 1]);
    }
  }

  lemma RecordFromEnd(c: Course)
    ensures RecordOf(c) == if SentBy(c) == [] then BLANK else Recorder(SentBy(c)[0], true)
  {
    var t := End(c);
    if t.Proxied? && t.acts != [] {
      FirstCallDecides(t.acts);
    }
  }

  ghost predicate Answered429(c: Course) {
    ClientStatus(SentBy(c)) == TOO_MANY
  }

  /** Which requests are counted and under what: a gate's reason exactly when that gate
      refused, `Upstream` exactly when the client got a 429 no gate wrote; everything the
      client sees as 429 is counted unless the proxy aborted. */
  lemma CauseExact(c: Course)
    ensures Cause(c).Some? <==> Answered429(c) && !Aborts(c)
    ensures forall g: GateReason :: Cause(c) == Some(g) <==> RefusedBy(c) == Some(g)
    ensures Cause(c) == Some(Upstream) <==> Answered429(c) && !Aborts(c) && RefusedBy(c) == None
  {
    match End(c)
    case Refused(g) => OneHeader(TOO_MANY);
    case Gone =>
    case HandedBack =>
    case Proxied(acts, aborts) => if acts != [] { OneHeader(FirstCode(acts)); }
  }

  lemma OneHeader(code: Code)
    ensures ClientStatus([code]) == if Informational(code) then STATUS_OK else code
  {
    assert [code][1..] == [];
    assert ClientStatus([]) == STATUS_OK;
  }

  /** The status net/http would settle on if every call of the proxy reached it. */
  ghost function Codes(acts: seq<Act>): seq<Code> {
    seq(|acts|, i requires 0 <= i < |acts| => if acts[i].Header? then acts[i].code else STATUS_OK)
  }

  /** An upstream's answer passes unchanged exactly when it does not open with an
      informational header, or settles on 200 anyway: the recorders keep the first header
      and drop the rest. */
  lemma UpstreamUnchangedIff(c: Course)
    requires End(c).Proxied? && End(c).acts != []
    ensures ClientStatus(SentBy(c)) == ClientStatus(Codes(End(c).acts)) <==>
            !Informational(FirstCode(End(c).acts)) || ClientStatus(Codes(End(c).acts)) == STATUS_OK
  {
    assert SentBy(c)[1..] == [];
    assert Codes(End(c).acts)[0] == FirstCode(End(c).acts);
  }

  /** Early hints before a 429: the client gets 200 and nothing is counted. */
  lemma EarlyHintsHide429(provider: string, m: Counters)
    ensures var c := Pool([Proxied([Header(103), Header(429)], false)]);
            ClientStatus(SentBy(c)) == 200 && Observed(m, provider, c) == m
  {
    var acts := [Header(103), Header(429)];
    var c := Pool([Proxied(acts, false)]);
    assert End(c) == Proxied(acts, false);
    assert SentBy(c) == [103] && SentBy(c)[1..] == [];
  }

  // ----- Runs -----

  datatype Request = Request(provider: string, course: Course)

  /** The counters after the requests of a run, in the order they were observed. */
  ghost function After(run: seq<Request>): Counters {
    if run == [] then map[]
    else
      var last := run[|run| - 1];
      Observed(After(run[..|run| - 1]), last.provider, last.course)
  }

  /** The requests of a provider with a property. */
  ghost function Tally(run: seq<Request>, provider: string, test: Course -> bool): nat {
    if run == [] then 0
    else
      var last := run[|run| - 1];
      Tally(run[..|run| - 1], provider, test) + if last.provider == provider && test(last.course) then 1 else 0
  }

  ghost function AllReasons(m: Counters, provider: string): nat {
    CountOf(m, provider, QueueTimeout) + CountOf(m, provider, HostQueueTimeout) + CountOf(m, provider, Throttle)
    + CountOf(m, provider, ColdStart) + CountOf(m, provider, CircuitOpen) + CountOf(m, provider, Upstream)
  }

  /** Over every run each reason's counter is the number of requests with that cause. */
  lemma {:induction false} CountsExact(run: seq<Request>, provider: string, r: Reason)
    ensures CountOf(After(run), provider, r) == Tally(run, provider, c => Cause(c) == Some(r))
  {
    if run != [] {
      CountsExact(run[..|run| - 1], provider, r);
    }
  }

  lemma BumpAddsOne(m: Counters, p: string, r: Reason, provider: string)
    ensures AllReasons(Bump(m, p, r), provider) == AllReasons(m, provider) + if p == provider then 1 else 0
  {
    var m' := Bump(m, p, r);
    assert forall q :: q != r || p != provider ==> CountOf(m', provider, q) == CountOf(m, provider, q);
  }

  /** Over every run the counters sum to the requests answered 429, less those whose proxy
      aborted after writing it. */
  lemma {:induction false} RejectionsAddUp(run: seq<Request>, provider: string)
    ensures AllReasons(After(run), provider) + Tally(run, provider, c => Answered429(c) && Aborts(c))
         == Tally(run, provider, c => Answered429(c))
  {
    if run != [] {
      RejectionsAddUp(run[..|run| - 1], provider);
      var last := run[|run| - 1];
      CauseExact(last.course);
      if Cause(last.course).Some? {
        BumpAddsOne(After(run[..|run| - 1]), last.provider, Cause(last.course).value, provider);
      }
    }
  }

  lemma {:induction false} TallyZero(run: seq<Request>, provider: string, test: Course -> bool)
    ensures Tally(run, provider, test) == 0 <==>
            forall k :: 0 <= k < |run| && run[k].provider == provider ==> !test(run[k].course)
  {
    if run != [] {
      var n := |run| - 1;
      TallyZero(run[..n], provider, test);
      assert forall k :: 0 <= k < n ==> run[..n][k] == run[k];
    }
  }

  /** The sum is exact if and only if no 429 of the provider was aborted. */
  lemma AddUpIff(run: seq<Request>, provider: string)
    ensures AllReasons(After(run), provider) == Tally(run, provider, c => Answered429(c)) <==>
            forall k :: 0 <= k < |run| && run[k].provider == provider ==>
              !(Answered429(run[k].course) && Aborts(run[k].course))
  {
    RejectionsAddUp(run, provider);
    TallyZero(run, provider, c => Answered429(c) && Aborts(c));
  }

  /** A 429 whose proxy aborts while copying the body reaches the client and no counter. */
  lemma AbortedIsNotCounted(provider: string)
    ensures var run := [Request(provider, Pool([Proxied([Header(429)], true)]))];
            AllReasons(After(run), provider) == 0 && Tally(run, provider, c => Answered429(c)) == 1
  {
    var c := Pool([Proxied([Header(429)], true)]);
    var run := [Request(provider, c)];
    assert End(c) == Proxied([Header(429)], true);
    assert SentBy(c) == [429];
    OneHeader(429);
    assert run[..0] == [];
    assert After(run) == Observed(After([]), provider, c) == map[];
  }
}
