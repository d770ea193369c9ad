/** How many requests `enforce_rate` can let through in a window of time, across
    refusals, bans and every other client's traffic (src/server.rs). */
module RateWindows {
  import opened Machine
  import opened Text
  import opened RateLimiter
  import opened RateTraces
  import Queue

  /** The buckets of a limiter that runs under `cfg`. */
  ghost predicate AllSane(cfg: RateLimitConfig, buckets: map<RateKey, Bucket>) {
    forall k :: k in buckets ==>
      Sane(buckets[k]) && buckets[k].burst == cfg.burst as real && buckets[k].rate == RateFor(cfg, k.name) as real
  }

  /** What key `k` could still grant at `now`. */
  ghost function Potential(cfg: RateLimitConfig, buckets: map<RateKey, Bucket>, k: RateKey, now: real): real {
    if k in buckets then Avail(buckets[k], now) else cfg.burst as real
  }

  function One(ok: bool): real {
    if ok then 1.0 else 0.0
  }

  lemma PotentialBounds(cfg: RateLimitConfig, buckets: map<RateKey, Bucket>, k: RateKey, t: real, t': real)
    requires AllSane(cfg, buckets)
    ensures 0.0 <= Potential(cfg, buckets, k, t) <= cfg.burst as real
    ensures Potential(cfg, buckets, k, t') <= Potential(cfg, buckets, k, t) + Gain(RateFor(cfg, k.name) as real, t, t')
  {
    hide Avail, Gain, RateFor;
    GainGrows(RateFor(cfg, k.name) as real, t, t, t');
    if k in buckets {
      AvailGrows(buckets[k], t, t');
      AvailIs(buckets[k], t);
    }
  }

  /** A charge on `key` is paid from its potential and touches no other bucket. */
  lemma ChargePays(cfg: RateLimitConfig, buckets: map<RateKey, Bucket>, key: RateKey, now: real)
    requires AllSane(cfg, buckets)
    ensures var (after, ok) := ChargeAt(cfg, buckets, key, now);
            && AllSane(cfg, after)
            && Potential(cfg, after, key, now) + One(ok) <= Potential(cfg, buckets, key, now)
            && forall k :: k != key ==>
                 Potential(cfg, after, k, now) == Potential(cfg, buckets, k, now) &&
                 (k in after <==> k in buckets) && (k in buckets ==> after[k] == buckets[k])
  {
    hide Touch, Avail, RateFor;
    var b := BucketOf(buckets, key, RateFor(cfg, key.name) as real, cfg.burst as real, now);
    FreshAvail(RateFor(cfg, key.name) as real, cfg.burst as real, now);
    TouchSpends(b, now, cfg.banSeconds as real);
  }

  lemma FreshAvail(rate: real, burst: real, now: real)
    requires 0.0 <= rate && 0.0 <= burst
    ensures Sane(Fresh(rate, burst, now)) && Avail(Fresh(rate, burst, now), now) == burst
  {
  }

  // ---- traces ----

  /** One turn at the limiter's lock: a single bucket is charged. */
  datatype Charge = Charge(key: RateKey, at: real)

  /** The clock does not run backwards from one turn at the lock to the next. */
  ghost predicate Chronological(cs: seq<Charge>) {
    forall i, j :: 0 <= i <= j < |cs| ==> cs[i].at <= cs[j].at
  }

  /** The buckets after `cs`, from an empty limiter. */
  ghost function Replay(cfg: RateLimitConfig, cs: seq<Charge>): map<RateKey, Bucket> {
    if cs == [] then map[] else ChargeAt(cfg, Replay(cfg, cs[..|cs| - 1]), cs[|cs| - 1].key, cs[|cs| - 1].at).0
  }

  ghost predicate Passed(cfg: RateLimitConfig, cs: seq<Charge>, i: nat)
    requires i < |cs|
  {
    ChargeAt(cfg, Replay(cfg, cs[..i]), cs[i].key, cs[i].at).1
  }

  lemma ReplayStep(cfg: RateLimitConfig, cs: seq<Charge>, i: nat)
    requires i < |cs|
    ensures Replay(cfg, cs[..i + 1]) == ChargeAt(cfg, Replay(cfg, cs[..i]), cs[i].key, cs[i].at).0
    ensures Replay(cfg, cs[..0]) == map[]
  {
    assert cs[..i + 1][..i] == cs[..i];
  }

  /** A request that nobody overtakes is two charges in a row. */
  lemma EnforceIsTwoCharges(cfg: RateLimitConfig, cs: seq<Charge>, req: Request)
    ensures var all := cs + [Charge(RateKey(req.ip, Global), req.atGlobal), Charge(RateKey(req.ip, Of(req.endpoint)), req.atEndpoint)];
            Enforce(cfg, Replay(cfg, cs), req) == (Replay(cfg, all), Passed(cfg, all, |cs|) && Passed(cfg, all, |cs| + 1))
  {
    hide ChargeAt, Replay;
    var all := cs + [Charge(RateKey(req.ip, Global), req.atGlobal), Charge(RateKey(req.ip, Of(req.endpoint)), req.atEndpoint)];
    assert all[..|cs|] == cs && all[..|cs| + 2] == all;
    ReplayStep(cfg, all, |cs|);
    ReplayStep(cfg, all, |cs| + 1);
  }

  /** A charge leaves every other bucket as it was. */
  lemma OthersUntouched(cfg: RateLimitConfig, cs: seq<Charge>, i: nat, k: RateKey)
    requires i < |cs| && k != cs[i].key
    ensures k in Replay(cfg, cs[..i + 1]) <==> k in Replay(cfg, cs[..i])
    ensures k in Replay(cfg, cs[..i]) ==> Replay(cfg, cs[..i + 1])[k] == Replay(cfg, cs[..i])[k]
  {
    hide Touch, BucketOf, RateFor;
    ReplayStep(cfg, cs, i);
  }

  /** 0 <= tokens <= burst in every bucket, at every moment of every trace, whatever the
      clock readings. */
  lemma {:induction false} ReplaySane(cfg: RateLimitConfig, cs: seq<Charge>, i: nat)
    requires i <= |cs|
    ensures AllSane(cfg, Replay(cfg, cs[..i]))
  {
    hide ChargeAt, AllSane, Replay;
    if i == 0 {
      NothingCharged(cfg, cs);
    } else {
      ReplaySane(cfg, cs, i - 1);
      ReplayStep(cfg, cs, i - 1);
      ChargePays(cfg, Replay(cfg, cs[..i - 1]), cs[i - 1].key, cs[i - 1].at);
    }
  }

  lemma NothingCharged(cfg: RateLimitConfig, cs: seq<Charge>)
    ensures AllSane(cfg, Replay(cfg, cs[..0]))
  {
  }

  // ---- windows ----

  /** The charges on `k` that pass, among those at positions `lo` to `hi`. */
  ghost function PassedOn(cfg: RateLimitConfig, cs: seq<Charge>, k: RateKey, lo: nat, hi: nat): set<nat>
    requires hi <= |cs|
  {
    set i: nat | lo <= i < hi && cs[i].key == k && Passed(cfg, cs, i)
  }

  lemma PassedOnStep(cfg: RateLimitConfig, cs: seq<Charge>, k: RateKey, lo: nat, i: nat)
    requires lo <= i < |cs|
    ensures PassedOn(cfg, cs, k, lo, lo) == {}
    ensures |PassedOn(cfg, cs, k, lo, i + 1)| ==
            |PassedOn(cfg, cs, k, lo, i)| + if cs[i].key == k && Passed(cfg, cs, i) then 1 else 0
  {
    hide Passed;
    var before, after := PassedOn(cfg, cs, k, lo, i), PassedOn(cfg, cs, k, lo, i + 1);
    assert after == if cs[i].key == k && Passed(cfg, cs, i) then before + {i} else before;
  }

  /** One charge's share of the accounting for bucket `k`. */
  lemma TurnPays(cfg: RateLimitConfig, cs: seq<Charge>, k: RateKey, i: nat)
    requires i < |cs|
    ensures Potential(cfg, Replay(cfg, cs[..i + 1]), k, cs[i].at) + One(cs[i].key == k && Passed(cfg, cs, i)) <=
            Potential(cfg, Replay(cfg, cs[..i]), k, cs[i].at)
  {
    hide ChargeAt, AllSane, Potential, Replay;
    ReplaySane(cfg, cs, i);
    ReplayStep(cfg, cs, i);
    ChargePays(cfg, Replay(cfg, cs[..i]), cs[i].key, cs[i].at);
  }

  /** How far the clock moves forward, in all, from turn `lo` to turn `i`. */
  ghost function Climb(cs: seq<Charge>, lo: nat, i: nat): real
    requires lo <= i < |cs|
  {
    if i == lo then 0.0 else Climb(cs, lo, i - 1) + Elapsed(cs[i - 1].at, cs[i].at)
  }

  lemma {:induction false} ClimbIsElapsed(cs: seq<Charge>, lo: nat, i: nat)
    requires Chronological(cs) && lo <= i < |cs|
    ensures Climb(cs, lo, i) == cs[i].at - cs[lo].at
  {
    if i > lo { ClimbIsElapsed(cs, lo, i - 1); }
  }

  lemma {:induction false} WindowPays(cfg: RateLimitConfig, cs: seq<Charge>, k: RateKey, lo: nat, i: nat)
    requires lo <= i < |cs|
    ensures Potential(cfg, Replay(cfg, cs[..i + 1]), k, cs[i].at) + |PassedOn(cfg, cs, k, lo, i + 1)| as real <=
            cfg.burst as real + Earned(RateFor(cfg, k.name) as real, 0.0, Climb(cs, lo, i))
  {
    hide Passed, AllSane, Potential, RateFor, Replay, Earned, PassedOn, Elapsed;
    var rate := RateFor(cfg, k.name) as real;
    ReplaySane(cfg, cs, i);
    TurnPays(cfg, cs, k, i);
    PassedOnStep(cfg, cs, k, lo, i);
    if i == lo {
      PotentialBounds(cfg, Replay(cfg, cs[..i]), k, cs[i].at, cs[i].at);
      EarnedSign(rate, 0.0, 0.0);
    } else {
      WindowPays(cfg, cs, k, lo, i - 1);
      PotentialBounds(cfg, Replay(cfg, cs[..i]), k, cs[i - 1].at, cs[i].at);
      EarnedAdds(rate, 0.0, Climb(cs, lo, i - 1), Climb(cs, lo, i));
      EarnedShift(rate, Climb(cs, lo, i - 1), Climb(cs, lo, i));
    }
  }

  /** On any trace whatever one bucket lets through at most burst + rate * climb, where
      the climb is the elapsed time if the clock never runs backwards. */
  lemma BucketBound(cfg: RateLimitConfig, cs: seq<Charge>, k: RateKey, lo: nat, hi: nat)
    requires lo < hi <= |cs|
    ensures |PassedOn(cfg, cs, k, lo, hi)| as real <=
            cfg.burst as real + Earned(RateFor(cfg, k.name) as real, 0.0, Climb(cs, lo, hi - 1))
    ensures Chronological(cs) ==> Climb(cs, lo, hi - 1) == cs[hi - 1].at - cs[lo].at
  {
    hide Passed, AllSane, Potential, RateFor, Replay, PassedOn, Earned, Climb;
    WindowPays(cfg, cs, k, lo, hi - 1);
    ReplaySane(cfg, cs, hi);
    PotentialBounds(cfg, Replay(cfg, cs[..hi]), k, cs[hi - 1].at, cs[hi - 1].at);
    if Chronological(cs) { ClimbIsElapsed(cs, lo, hi - 1); }
  }

  /** The first turn that is not before `t`. */
  lemma {:induction false} Boundary(cs: seq<Charge>, t: real, n: nat) returns (lo: nat)
    requires Chronological(cs) && n <= |cs| && forall i :: 0 <= i < n ==> cs[i].at < t
    ensures lo <= |cs| && (forall i :: 0 <= i < lo ==> cs[i].at < t) && forall i :: lo <= i < |cs| ==> t <= cs[i].at
    decreases |cs| - n
  {
    if n < |cs| && cs[n].at < t {
      lo := Boundary(cs, t, n + 1);
    } else {
      lo := n;
      assert forall i :: n <= i < |cs| ==> cs[n].at <= cs[i].at;
    }
  }

  /** The last of some turns. */
  lemma {:induction false} LastTurn(ps: set<nat>) returns (last: nat)
    requires ps != {}
    ensures last in ps && forall i :: i in ps ==> i <= last
    decreases |ps|
  {
    var i :| i in ps;
    last := i;
    assert forall j :: j in ps ==> j == i || j in ps - {i};
    if ps - {i} != {} {
      var other := LastTurn(ps - {i});
      last := if other > i then other else i;
    }
  }

  lemma MoreEarned(rate: real, from: real, a: real, b: real, to: real)
    requires 0.0 <= rate && from <= a <= b <= to
    ensures Earned(rate, a, b) <= Earned(rate, from, to)
  {
    hide Earned;
    EarnedAdds(rate, from, a, b);
    EarnedAdds(rate, from, b, to);
    EarnedSign(rate, from, a);
    EarnedSign(rate, b, to);
  }

  /** Between any two moments one bucket lets through at most burst + rate * elapsed. */
  lemma BucketBetween(cfg: RateLimitConfig, cs: seq<Charge>, k: RateKey, ps: set<nat>, from: real, to: real)
    requires Chronological(cs) && from <= to
    requires forall i :: i in ps ==> i < |cs| && cs[i].key == k && Passed(cfg, cs, i) && from <= cs[i].at <= to
    ensures |ps| as real <= cfg.burst as real + Earned(RateFor(cfg, k.name) as real, from, to)
  {
    hide Passed, RateFor, Earned, Climb;
    var rate := RateFor(cfg, k.name) as real;
    EarnedSign(rate, from, to);
    if ps != {} {
      var lo := Boundary(cs, from, 0);
      var last := LastTurn(ps);
      assert ps <= PassedOn(cfg, cs, k, lo, last + 1);
      Queue.SubsetSize(ps, PassedOn(cfg, cs, k, lo, last + 1));
      BucketBound(cfg, cs, k, lo, last + 1);
      EarnedShift(rate, cs[lo].at, cs[last].at);
      MoreEarned(rate, from, cs[lo].at, cs[last].at, to);
    }
  }

  // ---- requests ----

  /** A request is two turns at the lock, first for its address and then for its
      endpoint, with any number of other requests' turns before, between and after. */
  datatype Visit = Visit(global: nat, endpoint: nat)

  ghost predicate VisitOf(cs: seq<Charge>, v: Visit, ip: Text, endpoint: Endpoint) {
    && v.global < v.endpoint < |cs|
    && cs[v.global].key == RateKey(ip, Global) && cs[v.endpoint].key == RateKey(ip, Of(endpoint))
  }

  ghost predicate Accepted(cfg: RateLimitConfig, cs: seq<Charge>, v: Visit)
    requires v.global < |cs| && v.endpoint < |cs|
  {
    Passed(cfg, cs, v.global) && Passed(cfg, cs, v.endpoint)
  }

  /** No turn belongs to two requests. */
  ghost predicate Apart(vs: set<Visit>) {
    forall u, v :: u in vs && v in vs && u != v ==> u.global != v.global && u.endpoint != v.endpoint
  }

  /** Accepted requests of `ip` whose two turns both fall between two moments. */
  ghost predicate AcceptedBetween(cfg: RateLimitConfig, cs: seq<Charge>, vs: set<Visit>, ip: Text, from: real, to: real) {
    && Apart(vs)
    && forall v :: v in vs ==>
         && (exists endpoint :: VisitOf(cs, v, ip, endpoint))
         && Accepted(cfg, cs, v) && from <= cs[v.global].at && cs[v.endpoint].at <= to
  }

  lemma {:induction false} ImageSize(vs: set<Visit>, f: Visit -> nat, image: set<nat>)
    requires forall u, v :: u in vs && v in vs && u != v ==> f(u) != f(v)
    requires forall v :: v in vs ==> f(v) in image
    ensures |vs| <= |image|
    decreases |vs|
  {
    if vs != {} {
      var v :| v in vs;
      ImageSize(vs - {v}, f, image - {f(v)});
    }
  }

  lemma EarnedIs(rate: real, from: real, to: real)
    ensures Earned(rate, from, to) == rate * (to - from)
  {
  }

  lemma AddressTurns(cfg: RateLimitConfig, cs: seq<Charge>, vs: set<Visit>, ip: Text, from: real, to: real)
    requires Chronological(cs) && from <= to && AcceptedBetween(cfg, cs, vs, ip, from, to)
    ensures |vs| as real <= cfg.burst as real + Earned(cfg.perIpRps as real, from, to)
  {
    hide Passed, Earned;
    var turns := set v | v in vs :: v.global;
    ImageSize(vs, (v: Visit) => v.global, turns);
    BucketBetween(cfg, cs, RateKey(ip, Global), turns, from, to);
  }

  lemma EndpointTurns(cfg: RateLimitConfig, cs: seq<Charge>, vs: set<Visit>, ip: Text, endpoint: Endpoint, from: real, to: real)
    requires Chronological(cs) && from <= to && AcceptedBetween(cfg, cs, vs, ip, from, to)
    requires forall v :: v in vs ==> VisitOf(cs, v, ip, endpoint)
    ensures |vs| as real <= cfg.burst as real + Earned(RateFor(cfg, Of(endpoint)) as real, from, to)
  {
    hide Passed, RateFor, Earned;
    var turns := set v | v in vs :: v.endpoint;
    ImageSize(vs, (v: Visit) => v.endpoint, turns);
    forall v | v in vs ensures from <= cs[v.endpoint].at {
      assert cs[v.global].at <= cs[v.endpoint].at;
    }
    BucketBetween(cfg, cs, RateKey(ip, Of(endpoint)), turns, from, to);
  }

  /** On any trace, between any two moments, however requests overlap and whoever else
      is refused or banned: what is accepted from one address is at most
      burst + perIpRps * elapsed ... */
  lemma AddressBound(cfg: RateLimitConfig, cs: seq<Charge>, vs: set<Visit>, ip: Text, from: real, to: real)
    requires Chronological(cs) && from <= to && AcceptedBetween(cfg, cs, vs, ip, from, to)
    ensures |vs| as real <= cfg.burst as real + cfg.perIpRps as real * (to - from)
  {
    hide Passed, Earned, AcceptedBetween, Chronological;
    AddressTurns(cfg, cs, vs, ip, from, to);
    EarnedIs(cfg.perIpRps as real, from, to);
  }

  lemma SmallerBound(cfg: RateLimitConfig, cs: seq<Charge>, vs: set<Visit>, ip: Text, endpoint: Endpoint, from: real, to: real)
    requires Chronological(cs) && from <= to && AcceptedBetween(cfg, cs, vs, ip, from, to)
    requires forall v :: v in vs ==> VisitOf(cs, v, ip, endpoint)
    ensures |vs| as real <= cfg.burst as real + Min(cfg.perIpRps, RateFor(cfg, Of(endpoint))) as real * (to - from)
  {
    hide Passed, Earned, RateFor, AcceptedBetween, Chronological, VisitOf;
    AddressTurns(cfg, cs, vs, ip, from, to);
    EndpointTurns(cfg, cs, vs, ip, endpoint, from, to);
    EarnedIs(Min(cfg.perIpRps, RateFor(cfg, Of(endpoint))) as real, from, to);
  }

  /** ... and what is accepted from it for one endpoint is at most
      burst + min(perIpRps, r) * elapsed, r being the rate configured for it. */
  lemma WindowBound(cfg: RateLimitConfig, cs: seq<Charge>, vs: set<Visit>, ip: Text, endpoint: Endpoint, from: real, to: real)
    requires Chronological(cs) && from <= to && AcceptedBetween(cfg, cs, vs, ip, from, to)
    requires forall v :: v in vs ==> VisitOf(cs, v, ip, endpoint)
    ensures endpoint == Push ==> |vs| as real <= cfg.burst as real + Min(cfg.perIpRps, cfg.pushRps) as real * (to - from)
    ensures endpoint == Pull ==> |vs| as real <= cfg.burst as real + Min(cfg.perIpRps, cfg.pullRps) as real * (to - from)
    ensures endpoint == Ack ==> |vs| as real <= cfg.burst as real + Min(cfg.perIpRps, cfg.ackRps) as real * (to - from)
  {
    hide Passed, AcceptedBetween, Chronological, VisitOf, Min;
    SmallerBound(cfg, cs, vs, ip, endpoint, from, to);
  }

  // ---- one bucket of many ----

  /** The times of the charges on `k`. */
  ghost function TimesOn(cs: seq<Charge>, k: RateKey): seq<real> {
    if cs == [] then []
    else TimesOn(cs[..|cs| - 1], k) + if cs[|cs| - 1].key == k then [cs[|cs| - 1].at] else []
  }

  ghost function FreshFor(cfg: RateLimitConfig, k: RateKey, at: real): Bucket {
    Fresh(RateFor(cfg, k.name) as real, cfg.burst as real, at)
  }

  /** In a trace over many buckets each one lives through its own charges alone. */
  lemma {:induction false} Projection(cfg: RateLimitConfig, cs: seq<Charge>, k: RateKey)
    ensures var ts, buckets := TimesOn(cs, k), Replay(cfg, cs);
            && (k in buckets <==> ts != [])
            && (k in buckets ==> buckets[k] == Run(FreshFor(cfg, k, ts[0]), ts, cfg.banSeconds as real))
  {
    hide Touch, RateFor;
    if cs != [] {
      var init, last := cs[..|cs| - 1], cs[|cs| - 1];
      Projection(cfg, init, k);
      var before, ts := TimesOn(init, k), TimesOn(cs, k);
      assert Replay(cfg, cs) == ChargeAt(cfg, Replay(cfg, init), last.key, last.at).0;
      if last.key == k {
        assert ts[..|before|] == before && ts[|before|] == last.at && ts[..|before| + 1] == ts;
        RunStep(FreshFor(cfg, k, ts[0]), ts, cfg.banSeconds as real, |before|);
        assert before != [] ==> ts[0] == before[0];
      } else {
        assert ts == before;
      }
    }
  }

  lemma TimesStep(cs: seq<Charge>, i: nat, k: RateKey)
    requires i < |cs|
    ensures TimesOn(cs[..i + 1], k) == TimesOn(cs[..i], k) + if cs[i].key == k then [cs[i].at] else []
  {
    assert cs[..i + 1][..i] == cs[..i];
  }

  /** And decides each of them by itself. */
  lemma Decision(cfg: RateLimitConfig, cs: seq<Charge>, i: nat)
    requires i < |cs|
    ensures var k := cs[i].key; var n, ts := |TimesOn(cs[..i], k)|, TimesOn(cs[..i + 1], k);
            && |ts| == n + 1 && ts[n] == cs[i].at
            && (Passed(cfg, cs, i) <==> AllowedAt(FreshFor(cfg, k, ts[0]), ts, cfg.banSeconds as real, n))
  {
    hide Touch, RateFor, TimesOn, Replay;
    var k := cs[i].key;
    var n, ts := |TimesOn(cs[..i], k)|, TimesOn(cs[..i + 1], k);
    TimesStep(cs, i, k);
    assert ts[..n] == TimesOn(cs[..i], k);
    Projection(cfg, cs[..i], k);
  }

  lemma {:induction false} TimesRise(cs: seq<Charge>, i: nat, k: RateKey)
    requires Chronological(cs) && i <= |cs|
    ensures Rising(TimesOn(cs[..i], k)) && forall t, j :: t in TimesOn(cs[..i], k) && i <= j < |cs| ==> t <= cs[j].at
  {
    if i > 0 {
      TimesRise(cs, i - 1, k);
      TimesStep(cs, i - 1, k);
      var ts := TimesOn(cs[..i - 1], k);
      assert forall j :: 0 <= j < |ts| ==> ts[j] in ts;
    } else {
      assert cs[..0] == [];
    }
  }

  lemma NoTimes(k: RateKey)
    ensures TimesOn([], k) == []
  {
  }

  lemma {:induction false} GrantedSoFar(cfg: RateLimitConfig, cs: seq<Charge>, i: nat, k: RateKey)
    requires i <= |cs| && forall j :: 0 <= j < i && cs[j].key == k ==> Passed(cfg, cs, j)
    ensures var ts := TimesOn(cs[..i], k);
            ts != [] ==> Granted(FreshFor(cfg, k, ts[0]), ts, cfg.banSeconds as real, |ts|)
  {
    hide Passed, FreshFor, AllowedAt, TimesOn;
    assert cs[..0] == [] && TimesOn([], k) == [] by { NoTimes(k); }
    if i > 0 {
      GrantedSoFar(cfg, cs, i - 1, k);
      TimesStep(cs, i - 1, k);
      var before, ts := TimesOn(cs[..i - 1], k), TimesOn(cs[..i], k);
      if cs[i - 1].key != k {
        assert ts == before;
      } else {
        Decision(cfg, cs, i - 1);
        assert before != [] ==> ts[0] == before[0];
        GrantedBefore(FreshFor(cfg, k, ts[0]), before, ts, cfg.banSeconds as real);
      }
    }
  }

  lemma FirstRefusalAt(cfg: RateLimitConfig, cs: seq<Charge>, i: nat)
    requires Chronological(cs) && i < |cs|
    requires forall j :: 0 <= j < i && cs[j].key == cs[i].key ==> Passed(cfg, cs, j)
    ensures var k := cs[i].key; var ts := TimesOn(cs[..i + 1], k);
            && ts != []
            && (Passed(cfg, cs, i) <==> Conforms(cfg.burst as real, RateFor(cfg, k.name) as real, ts, |ts| - 1))
  {
    hide Passed, Touch, AllowedAt, RateFor, Conforms, TimesOn;
    var k := cs[i].key;
    var before, ts := TimesOn(cs[..i], k), TimesOn(cs[..i + 1], k);
    GrantedSoFar(cfg, cs, i, k);
    TimesStep(cs, i, k);
    TimesRise(cs, i + 1, k);
    Decision(cfg, cs, i);
    GrantedBefore(FreshFor(cfg, k, ts[0]), before, ts, cfg.banSeconds as real);
    FirstRefusal(RateFor(cfg, k.name) as real, cfg.burst as real, ts, cfg.banSeconds as real, |before|);
  }

  /** Whatever else the limiter is asked, up to the first refusal on a key a charge on it
      passes exactly when no window of that key's charges that ends there holds too many,
      at the rate configured for it. */
  lemma FirstRefusalOn(cfg: RateLimitConfig, cs: seq<Charge>, i: nat)
    requires Chronological(cs) && i < |cs|
    requires forall j :: 0 <= j < i && cs[j].key == cs[i].key ==> Passed(cfg, cs, j)
    ensures var name, ts, burst := cs[i].key.name, TimesOn(cs[..i + 1], cs[i].key), cfg.burst as real;
            && ts != []
            && (name == Global ==> (Passed(cfg, cs, i) <==> Conforms(burst, cfg.perIpRps as real, ts, |ts| - 1)))
            && (name == Of(Push) ==> (Passed(cfg, cs, i) <==> Conforms(burst, cfg.pushRps as real, ts, |ts| - 1)))
            && (name == Of(Pull) ==> (Passed(cfg, cs, i) <==> Conforms(burst, cfg.pullRps as real, ts, |ts| - 1)))
            && (name == Of(Ack) ==> (Passed(cfg, cs, i) <==> Conforms(burst, cfg.ackRps as real, ts, |ts| - 1)))
  {
    hide Passed, Conforms, TimesOn, Chronological;
    FirstRefusalAt(cfg, cs, i);
  }

  // ---- the closed form, whatever is refused or banned ----

  /** Which turns were granted on `k`. */
  ghost function GrantsOn(cfg: RateLimitConfig, cs: seq<Charge>, k: RateKey): (g: seq<bool>)
    ensures |g| == |cs| && forall j :: 0 <= j < |cs| ==> g[j] == (cs[j].key == k && Passed(cfg, cs, j))
  {
    seq(|cs|, j requires 0 <= j < |cs| => cs[j].key == k && Passed(cfg, cs, j))
  }

  function TimesOf(cs: seq<Charge>): (ts: seq<real>)
    ensures |ts| == |cs| && forall j :: 0 <= j < |cs| ==> ts[j] == cs[j].at
  {
    seq(|cs|, j requires 0 <= j < |cs| => cs[j].at)
  }

  lemma {:induction false} GrantsArePassed(cfg: RateLimitConfig, cs: seq<Charge>, k: RateKey, i: nat, j: nat)
    requires i <= j <= |cs|
    ensures Grants(GrantsOn(cfg, cs, k), i, j) == |PassedOn(cfg, cs, k, i, j)|
    decreases j
  {
    hide Passed, PassedOn;
    if i < j {
      GrantsArePassed(cfg, cs, k, i, j - 1);
      PassedOnStep(cfg, cs, k, i, j - 1);
    } else {
      NonePassed(cfg, cs, k, i);
    }
  }

  lemma NonePassed(cfg: RateLimitConfig, cs: seq<Charge>, k: RateKey, i: nat)
    requires i <= |cs|
    ensures PassedOn(cfg, cs, k, i, i) == {}
  {
  }

  /** The buckets' clocks are not ahead of `now`. */
  ghost predicate ClocksBehind(buckets: map<RateKey, Bucket>, now: real) {
    forall k :: k in buckets ==> buckets[k].last <= now
  }

  /** One turn's effect on what `k` can grant at the next. */
  lemma TurnThenWait(cfg: RateLimitConfig, buckets: map<RateKey, Bucket>, key: RateKey, now: real, k: RateKey, t': real)
    requires AllSane(cfg, buckets) && ClocksBehind(buckets, now) && now <= t'
    ensures var (after, ok) := ChargeAt(cfg, buckets, key, now);
            && ClocksBehind(after, now)
            && Potential(cfg, after, k, t') ==
               RMin(Potential(cfg, buckets, k, now) - One(key == k && ok) + Earned(RateFor(cfg, k.name) as real, now, t'), cfg.burst as real)
  {
    hide Touch, Avail, RateFor, Earned;
    var rate, burst := RateFor(cfg, key.name) as real, cfg.burst as real;
    var b := BucketOf(buckets, key, rate, burst, now);
    FreshAvail(rate, burst, now);
    TouchThenWait(b, now, cfg.banSeconds as real, t');
    EarnedSign(RateFor(cfg, k.name) as real, now, t');
    if k != key && k in buckets { WaitOnly(buckets[k], now, t'); }
  }

  lemma WaitOnly(b: Bucket, now: real, t': real)
    requires Sane(b) && b.last <= now <= t'
    ensures Avail(b, t') == RMin(Avail(b, now) + Earned(b.rate, now, t'), b.burst)
  {
    hide Avail, Earned, Gain;
    AvailIs(b, now);
    AvailIs(b, t');
    EarnedAdds(b.rate, b.last, now, t');
    EarnedSign(b.rate, now, t');
  }

  lemma {:induction false} EnvelopeOn(cfg: RateLimitConfig, cs: seq<Charge>, k: RateKey, i: nat)
    requires Chronological(cs) && i < |cs|
    ensures var buckets, ts, g := Replay(cfg, cs[..i]), TimesOf(cs), GrantsOn(cfg, cs, k);
            var avail, rate := Potential(cfg, buckets, k, cs[i].at), RateFor(cfg, k.name) as real;
            && AllSane(cfg, buckets) && ClocksBehind(buckets, cs[i].at)
            && BelowLines(cfg.burst as real, rate, ts, g, i, avail) && OnALine(cfg.burst as real, rate, ts, g, i, avail)
  {
    hide ChargeAt, AllSane, Potential, RateFor, BelowLines, OnALine, RMin, Earned, Replay;
    var rate, burst, ts, g := RateFor(cfg, k.name) as real, cfg.burst as real, TimesOf(cs), GrantsOn(cfg, cs, k);
    ReplaySane(cfg, cs, i);
    if i == 0 {
      ReplayStep(cfg, cs, 0);
      UntouchedPotential(cfg, k, cs[0].at);
      EnvelopeStart(rate, burst, ts, g);
    } else {
      EnvelopeOn(cfg, cs, k, i - 1);
      ReplayStep(cfg, cs, i - 1);
      TurnThenWait(cfg, Replay(cfg, cs[..i - 1]), cs[i - 1].key, cs[i - 1].at, k, cs[i].at);
      EnvelopeStep(rate, burst, ts, g, i - 1, Potential(cfg, Replay(cfg, cs[..i - 1]), k, cs[i - 1].at),
                   Potential(cfg, Replay(cfg, cs[..i]), k, cs[i].at));
    }
  }

  lemma UntouchedPotential(cfg: RateLimitConfig, k: RateKey, now: real)
    ensures Potential(cfg, map[], k, now) == cfg.burst as real && ClocksBehind(map[], now)
  {
  }

  /** No window of `k`'s charges from an earlier turn up to turn `i` is used up at `rate`. */
  ghost predicate RoomOn(cfg: RateLimitConfig, cs: seq<Charge>, k: RateKey, i: nat, rate: u32)
    requires i < |cs|
  {
    forall m :: 0 <= m <= i ==>
      (1 + |PassedOn(cfg, cs, k, m, i)|) as real <= cfg.burst as real + rate as real * (cs[i].at - cs[m].at)
  }

  lemma RoomSame(cfg: RateLimitConfig, cs: seq<Charge>, k: RateKey, i: nat, rate: u32)
    requires i < |cs|
    ensures RoomOn(cfg, cs, k, i, rate) <==> RoomAt(cfg.burst as real, rate as real, TimesOf(cs), GrantsOn(cfg, cs, k), i)
  {
    hide PassedOn, Passed, Grants;
    var ts, g := TimesOf(cs), GrantsOn(cfg, cs, k);
    forall m | 0 <= m <= i ensures Grants(g, m, i) == |PassedOn(cfg, cs, k, m, i)| && ts[m] == cs[m].at {
      GrantsArePassed(cfg, cs, k, m, i);
    }
  }

  lemma PassedMeansToken(cfg: RateLimitConfig, cs: seq<Charge>, i: nat)
    requires i < |cs| && AllSane(cfg, Replay(cfg, cs[..i])) && !BannedAt(cfg, cs, i)
    ensures Passed(cfg, cs, i) <==> 1.0 <= Potential(cfg, Replay(cfg, cs[..i]), cs[i].key, cs[i].at)
  {
    hide Avail, RateFor, Replay;
    var k := cs[i].key;
    FreshAvail(RateFor(cfg, k.name) as real, cfg.burst as real, cs[i].at);
  }

  ghost predicate BannedAt(cfg: RateLimitConfig, cs: seq<Charge>, i: nat)
    requires i < |cs|
  {
    var k, buckets := cs[i].key, Replay(cfg, cs[..i]);
    k in buckets && Banned(buckets[k], cs[i].at)
  }

  lemma PassedAt(cfg: RateLimitConfig, cs: seq<Charge>, i: nat)
    requires Chronological(cs) && i < |cs| && !BannedAt(cfg, cs, i)
    ensures Passed(cfg, cs, i) <==> RoomOn(cfg, cs, cs[i].key, i, RateFor(cfg, cs[i].key.name))
  {
    hide ChargeAt, AllSane, Potential, RateFor, BelowLines, OnALine, Replay, RoomAt, RoomOn, BannedAt;
    var k := cs[i].key;
    var rate, avail := RateFor(cfg, k.name), Potential(cfg, Replay(cfg, cs[..i]), k, cs[i].at);
    EnvelopeOn(cfg, cs, k, i);
    RoomIsToken(cfg.burst as real, rate as real, TimesOf(cs), GrantsOn(cfg, cs, k), i, avail);
    RoomSame(cfg, cs, k, i, rate);
    PassedMeansToken(cfg, cs, i);
  }

  /** Through any refusals and bans, on this key and all others: outside a ban a charge
      passes exactly when no window of its key's charges is used up at the rate
      configured for it; during one it never does. */
  lemma PassedExactly(cfg: RateLimitConfig, cs: seq<Charge>, i: nat)
    requires Chronological(cs) && i < |cs|
    ensures BannedAt(cfg, cs, i) ==> !Passed(cfg, cs, i)
    ensures var k := cs[i].key;
            !BannedAt(cfg, cs, i) ==>
              && (k.name == Global ==> (Passed(cfg, cs, i) <==> RoomOn(cfg, cs, k, i, cfg.perIpRps)))
              && (k.name == Of(Push) ==> (Passed(cfg, cs, i) <==> RoomOn(cfg, cs, k, i, cfg.pushRps)))
              && (k.name == Of(Pull) ==> (Passed(cfg, cs, i) <==> RoomOn(cfg, cs, k, i, cfg.pullRps)))
              && (k.name == Of(Ack) ==> (Passed(cfg, cs, i) <==> RoomOn(cfg, cs, k, i, cfg.ackRps)))
  {
    hide Avail, Replay, RoomOn, Chronological;
    if !BannedAt(cfg, cs, i) { PassedAt(cfg, cs, i); }
  }

  lemma GrantedBefore(b: Bucket, before: seq<real>, ts: seq<real>, ban: real)
    requires before <= ts && (before != [] ==> Granted(b, before, ban, |before|))
    ensures Granted(b, ts, ban, |before|)
  {
    hide Touch, Run;
    forall j | 0 <= j < |before| ensures AllowedAt(b, ts, ban, j) {
      assert AllowedAt(b, before, ban, j) && ts[..j] == before[..j] && ts[j] == before[j];
    }
  }

  /** The charge `i` is refused and sets a ban. */
  ghost predicate SetsBan(cfg: RateLimitConfig, cs: seq<Charge>, i: nat)
    requires i < |cs|
  {
    var k, buckets := cs[i].key, Replay(cfg, cs[..i]);
    !Passed(cfg, cs, i) && (k in buckets ==> !Banned(buckets[k], cs[i].at))
  }

  /** Until its end the ban stands, whatever happens on this bucket or any other. */
  lemma {:induction false} BanStands(cfg: RateLimitConfig, cs: seq<Charge>, i: nat, j: nat)
    requires i < j <= |cs| && SetsBan(cfg, cs, i)
    requires var k, ban := cs[i].key, cfg.banSeconds as real;
             forall m :: i < m < j && cs[m].key == k ==> cs[m].at < cs[i].at + ban
    ensures var k := cs[i].key; var before, after := Replay(cfg, cs[..i + 1]), Replay(cfg, cs[..j]);
            && k in before && k in after && after[k] == before[k]
            && before[k].banUntil == Some(cs[i].at + cfg.banSeconds as real)
  {
    hide Avail, RateFor, RMin;
    ReplayStep(cfg, cs, i);
    if j > i + 1 {
      BanStands(cfg, cs, i, j - 1);
      ReplayStep(cfg, cs, j - 1);
    }
  }

  /** After a refusal that sets a ban every charge on the same bucket before its end is
      refused, and the first one at or after its end passes, when a ban is long enough
      to earn a token. */
  lemma BanOn(cfg: RateLimitConfig, cs: seq<Charge>, i: nat, j: nat)
    requires i < j < |cs| && SetsBan(cfg, cs, i) && cs[j].key == cs[i].key
    requires var k, ban := cs[i].key, cfg.banSeconds as real;
             forall m :: i < m < j && cs[m].key == k ==> cs[m].at < cs[i].at + ban
    ensures cs[j].at < cs[i].at + cfg.banSeconds as real ==> !Passed(cfg, cs, j)
    ensures cs[i].at + cfg.banSeconds as real <= cs[j].at && cfg.burst >= 1 && RateFor(cfg, cs[i].key.name) * cfg.banSeconds >= 1 ==>
              Passed(cfg, cs, j)
  {
    hide Replay, RateFor, Avail;
    BanStands(cfg, cs, i, j);
    var k, ban := cs[i].key, cfg.banSeconds as real;
    if cs[i].at + ban <= cs[j].at && cfg.burst >= 1 && RateFor(cfg, k.name) * cfg.banSeconds >= 1 {
      ReplaySane(cfg, cs, i);
      ReplayStep(cfg, cs, i);
      var rate := RateFor(cfg, k.name) as real;
      FreshAvail(rate, cfg.burst as real, cs[i].at);
      var b := BucketOf(Replay(cfg, cs[..i]), k, rate, cfg.burst as real, cs[i].at);
      EarnsToken(b, cs[i].at, ban, cs[j].at);
    }
  }
}
