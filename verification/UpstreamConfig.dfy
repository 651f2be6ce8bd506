/** The configuration steps that turn providers into weighted upstream pools: the legacy
    single upstream becomes a one-entry pool, absent weights become 1, and malformed
    providers are refused. Afterwards every pool is a ring with positive weights. */
module UpstreamConfig {
  import opened GoInts
  import opened Selection

  /** Windows and weekday sets are opaque here; only their presence matters. */
  datatype Upstream = Upstream(
    url: string,
    token: string,
    weight: int,
    maxConcurrent: int,
    maxWait: int,
    window: Option<string>,
    days: Option<string>)

  datatype Provider = Provider(
    upstream: string,
    upstreams: seq<Upstream>,
    token: string,
    maxConcurrent: int,
    maxWait: int,
    window: Option<string>,
    days: Option<string>)

  datatype Error = BothForms | ProviderWindow | ProviderDays | MissingUrl | NegativeWeight

  /** Why normalization refuses a provider, in the order the checks are made. */
  function FormError(p: Provider): Option<Error> {
    if p.upstream != "" && p.upstreams != [] then Some(BothForms)
    else if p.window.Some? && p.upstreams != [] then Some(ProviderWindow)
    else if p.days.Some? && p.upstreams != [] then Some(ProviderDays)
    else None
  }

  function Legacy(p: Provider): Upstream {
    Upstream(p.upstream, p.token, 1, p.maxConcurrent, p.maxWait, p.window, p.days)
  }

  function DefaultWeight(u: Upstream): Upstream {
    if u.weight == 0 then u.(weight := 1) else u
  }

  function DefaultWeights(us: seq<Upstream>): (r: seq<Upstream>)
    ensures |r| == |us| && forall i :: 0 <= i < |us| ==> r[i] == DefaultWeight(us[i])
  {
    seq(|us|, i requires 0 <= i < |us| => DefaultWeight(us[i]))
  }

  function Normalized(p: Provider): Provider {
    p.(upstreams := DefaultWeights(if p.upstreams == [] then [Legacy(p)] else p.upstreams))
  }

  /** The pool of a provider, normalized or not. */
  function UpstreamList(p: Provider): seq<Upstream> {
    if p.upstreams != [] then p.upstreams else [Legacy(p)]
  }

  /** The first entry the validation loop refuses. */
  function EntryError(us: seq<Upstream>): Option<Error> {
    if us == [] then None
    else if us[0].url == "" then Some(MissingUrl)
    else if us[0].weight < 0 then Some(NegativeWeight)
    else EntryError(us[1..])
  }

  class Config {
    var providers: map<string, Provider>

    constructor (providers: map<string, Provider>)
      ensures this.providers == providers
    {
      this.providers := providers;
    }

    /** Walks the providers in whatever order the map yields them and stops at the first
        refused one, leaving those before it already rewritten. */
    method NormalizeUpstreams() returns (error: Option<Error>)
      modifies this
      ensures providers.Keys == old(providers).Keys
      ensures forall n :: n in old(providers) ==>
                || providers[n] == old(providers)[n]
                || (FormError(old(providers)[n]) == None && providers[n] == Normalized(old(providers)[n]))
      ensures error == None ==> forall n :: n in old(providers) ==>
                FormError(old(providers)[n]) == None && providers[n] == Normalized(old(providers)[n])
      ensures error.Some? ==> exists n :: n in old(providers) && FormError(old(providers)[n]) == error
    {
      var names := providers.Keys;
      while names != {}
        invariant names <= old(providers).Keys == providers.Keys
        invariant forall n :: n in old(providers) && n in names ==> providers[n] == old(providers)[n]
        invariant forall n :: n in old(providers) && n !in names ==>
                    FormError(old(providers)[n]) == None && providers[n] == Normalized(old(providers)[n])
        decreases names
      {
        var name :| name in names;
        var p := providers[name];
        if p.upstream != "" && |p.upstreams| > 0 {
          return Some(BothForms);
        }
        if p.window.Some? && |p.upstreams| > 0 {
          return Some(ProviderWindow);
        }
        if p.days.Some? && |p.upstreams| > 0 {
          return Some(ProviderDays);
        }
        var us := p.upstreams;
        if |us| == 0 {
          us := [Legacy(p)];
        }
        ghost var was := us;
        for i := 0 to |us|
          invariant |us| == |was|
          invariant forall k :: 0 <= k < i ==> us[k] == DefaultWeight(was[k])
          invariant forall k :: i <= k < |us| ==> us[k] == was[k]
        {
          if us[i].weight == 0 {
            us := us[i := us[i].(weight := 1)];
          }
        }
        assert us == DefaultWeights(was);
        providers := providers[name := p.(upstreams := us)];
        names := names - {name};
      }
      return None;
    }
  }

  /** Accepted: it normalizes and its entries pass the loop. */
  predicate Accepted(p: Provider) {
    FormError(p) == None && EntryError(Normalized(p).upstreams) == None
  }

  lemma {:induction false} EntriesOk(us: seq<Upstream>)
    requires EntryError(us) == None
    ensures forall i :: 0 <= i < |us| ==> us[i].url != "" && us[i].weight >= 0
  {
    if us != [] {
      EntriesOk(us[1..]);
      assert forall i :: 1 <= i < |us| ==> us[i] == us[1..][i - 1];
    }
  }

  /** The pool as it was written: the listed upstreams, or one made of the provider's own
      fields with weight 1. */
  ghost predicate IsWritten(p: Provider, us: seq<Upstream>) {
    if p.upstreams != [] then us == p.upstreams
    else
      && |us| == 1
      && us[0].url == p.upstream && us[0].token == p.token && us[0].weight == 1
      && us[0].maxConcurrent == p.maxConcurrent && us[0].maxWait == p.maxWait
      && us[0].window == p.window && us[0].days == p.days
  }

  /** The same upstream with a weight of 0 read as 1. */
  ghost predicate Weighted(u: Upstream, w: Upstream) {
    && w.weight == (if u.weight == 0 then 1 else u.weight)
    && w.url == u.url && w.token == u.token && w.maxConcurrent == u.maxConcurrent
    && w.maxWait == u.maxWait && w.window == u.window && w.days == u.days
  }

  lemma {:induction false} EntriesIff(us: seq<Upstream>)
    ensures EntryError(us) == None <==> forall i :: 0 <= i < |us| ==> us[i].url != "" && us[i].weight >= 0
  {
    if us != [] {
      EntriesIff(us[1..]);
      assert forall i :: 1 <= i < |us| ==> us[i] == us[1..][i - 1];
    }
  }

  /** Exactly which providers are accepted, and what becomes of them: one form of the two,
      windows and days on the entries of a list, an address for every entry and no negative
      weight; then the pool as written with every 0 weight read as 1, and nothing else of
      the provider changed. */
  lemma AcceptedIff(p: Provider)
    ensures IsWritten(p, UpstreamList(p))
    ensures Accepted(p) <==>
              && (p.upstreams == [] || (p.upstream == "" && p.window == None && p.days == None))
              && forall i :: 0 <= i < |UpstreamList(p)| ==>
                   UpstreamList(p)[i].url != "" && UpstreamList(p)[i].weight >= 0
    ensures Normalized(p) == p.(upstreams := Normalized(p).upstreams)
    ensures |Normalized(p).upstreams| == |UpstreamList(p)|
    ensures forall i :: 0 <= i < |UpstreamList(p)| ==> Weighted(UpstreamList(p)[i], Normalized(p).upstreams[i])
  {
    var us, list := Normalized(p).upstreams, UpstreamList(p);
    EntriesIff(us);
    assert forall i :: 0 <= i < |us| ==> us[i] == DefaultWeight(list[i]);
  }

  /** Why a provider is refused before its entries are looked at, in the order of the checks. */
  lemma RefusedExactly(p: Provider)
    ensures FormError(p) == Some(BothForms) <==> p.upstreams != [] && p.upstream != ""
    ensures FormError(p) == Some(ProviderWindow) <==> p.upstreams != [] && p.upstream == "" && p.window != None
    ensures FormError(p) == Some(ProviderDays) <==>
              p.upstreams != [] && p.upstream == "" && p.window == None && p.days != None
  {
  }

  function Weights(us: seq<Upstream>): (w: seq<int>)
    ensures |w| == |us| && forall i :: 0 <= i < |us| ==> w[i] == us[i].weight
  {
    seq(|us|, i requires 0 <= i < |us| => us[i].weight)
  }

  /** What validation promises the selection code: a nonempty pool, equal to the one
      any reader sees, whose weights are the configured ones with 0 read as 1 and all
      positive. */
  lemma AcceptedPool(p: Provider)
    requires Accepted(p)
    ensures var us := Normalized(p).upstreams;
            && us != [] && UpstreamList(Normalized(p)) == us
            && |us| == |UpstreamList(p)|
            && forall i :: 0 <= i < |us| ==>
                 && 1 <= us[i].weight && us[i].url != ""
                 && us[i] == DefaultWeight(UpstreamList(p)[i])
  {
    EntriesOk(Normalized(p).upstreams);
  }

  lemma AcceptedWeights(p: Provider, eligible: seq<bool>)
    requires Accepted(p) && |eligible| == |Normalized(p).upstreams|
    ensures RingOk(Weights(Normalized(p).upstreams), EligibleBelow(eligible, |eligible|))
  {
    AcceptedPool(p);
    EligibleExactly(eligible, |eligible|);
  }

  /** For every accepted provider, every nonempty eligible set and every hash: the ring
      gives each eligible member exactly its weight's share if and only if the eligible
      weights fit 64 bits, and even when they do not the scan never falls through. */
  lemma AcceptedRing(p: Provider, eligible: seq<bool>, weights: seq<int>, idx: seq<nat>, hash: int)
    requires Accepted(p) && |eligible| == |Normalized(p).upstreams|
    requires weights == Weights(Normalized(p).upstreams) && idx == EligibleBelow(eligible, |eligible|) != []
    ensures RingOk(weights, idx)
    ensures RingExact(weights, idx) <==> RingSum(weights, idx, |idx|) < TWO_64
    ensures var total := WrapU64(RingSum(weights, idx, |idx|));
            total > 0 ==>
              WrapU64(RingSum(weights, idx, RingPick(weights, idx, hash % total) + 1)) > hash % total
  {
    AcceptedWeights(p, eligible);
    RingExactIff(weights, idx);
    FallbackUnreachable(weights, idx, hash);
  }

  /** Normalizing is not repeatable on the legacy form: a provider already normalized is
      accepted again exactly when it carries no single upstream, window or days of its
      own. */
  lemma NormalizeAgainIff(p: Provider)
    ensures FormError(Normalized(p)) == None <==> p.upstream == "" && p.window.None? && p.days.None?
    ensures FormError(Normalized(p)) == None ==> Normalized(Normalized(p)) == Normalized(p)
  {
    var us := Normalized(p).upstreams;
    assert DefaultWeights(us) == us;
  }

  /** A provider in the single-upstream form is accepted once and refused the next time. */
  lemma NormalizeTwiceRefused(p: Provider)
    requires p.upstream != "" && p.upstreams == []
    ensures FormError(p) == None && FormError(Normalized(p)) == Some(BothForms)
  {
  }
}
