/** The token buckets in front of the store (src/server.rs). Tokens and clock
    readings are exact reals. */
module RateLimiter {
  import opened Machine
  import opened Text

  datatype Endpoint = Push | Pull | Ack

  datatype Label = Global | Of(endpoint: Endpoint)

  datatype RateKey = RateKey(ip: Text, name: Label)

  datatype Bucket = Bucket(tokens: real, last: real, burst: real, rate: real, banUntil: Option<real>)

  datatype RateLimitConfig = RateLimitConfig(
    enabled: bool, perIpRps: u32, burst: u32, banSeconds: u64, pushRps: u32, pullRps: u32, ackRps: u32)

  function RMin(a: real, b: real): (r: real)
    ensures r <= a && r <= b && (r == a || r == b)
  {
    if a <= b then a else b
  }

  function Fresh(rate: real, burst: real, now: real): Bucket {
    Bucket(burst, now, burst, rate, None)
  }

  /** `saturating_duration_since`. */
  function Elapsed(last: real, now: real): real {
    if now <= last then 0.0 else now - last
  }

  /** Tokens in the bucket at `now`, before any are taken. */
  function Avail(b: Bucket, now: real): real {
    RMin(b.tokens + Elapsed(b.last, now) * b.rate, b.burst)
  }

  predicate Banned(b: Bucket, now: real) {
    b.banUntil.Some? && b.banUntil.value > now
  }

  /** One call on an existing bucket. */
  function Touch(b: Bucket, now: real, ban: real): (Bucket, bool) {
    var avail := Avail(b, now);
    if Banned(b, now) then (b, false)
    else if avail >= 1.0 then (Bucket(avail - 1.0, now, b.burst, b.rate, None), true)
    else (Bucket(avail, now, b.burst, b.rate, Some(now + ban)), false)
  }

  function BucketOf(buckets: map<RateKey, Bucket>, key: RateKey, rate: real, burst: real, now: real): Bucket {
    if key in buckets then buckets[key] else Fresh(rate, burst, now)
  }

  function RateFor(cfg: RateLimitConfig, name: Label): u32 {
    match name
    case Global => cfg.perIpRps
    case Of(Push) => cfg.pushRps
    case Of(Pull) => cfg.pullRps
    case Of(Ack) => cfg.ackRps
  }

  class RateLimiter {
    const enabled: bool
    const banSeconds: u64
    var buckets: map<RateKey, Bucket>

    constructor (enabled: bool, banSeconds: u64)
      ensures this.enabled == enabled && this.banSeconds == banSeconds && buckets == map[]
    {
      this.enabled, this.banSeconds := enabled, banSeconds;
      buckets := map[];
    }

    /** Exactly one bucket is written, and the decision is that bucket's. */
    method Allow(ip: Text, name: Label, rate: real, burst: real, now: real) returns (ok: bool)
      modifies this`buckets
      ensures !enabled ==> ok && buckets == old(buckets)
      ensures enabled ==>
                var key := RateKey(ip, name);
                (buckets, ok) == AllowStep(old(buckets), key, rate, burst, now, banSeconds as real)
    {
      if !enabled {
        return true;
      }
      var key := RateKey(ip, name);
      if key !in buckets {
        buckets := buckets[key := Bucket(burst, now, burst, rate, None)];
      }
      var entry := buckets[key];
      if entry.banUntil.Some? {
        if entry.banUntil.value > now {
          assert buckets[key := entry] == buckets == old(buckets);
          return false;
        }
        entry := entry.(banUntil := None);
      }
      var elapsed := Elapsed(entry.last, now);
      entry := entry.(tokens := RMin(entry.tokens + elapsed * entry.rate, entry.burst));
      entry := entry.(last := now);
      if entry.tokens >= 1.0 {
        entry := entry.(tokens := entry.tokens - 1.0);
        ok := true;
      } else {
        entry := entry.(banUntil := Some(now + banSeconds as real));
        ok := false;
      }
      buckets := buckets[key := entry];
      assert buckets == old(buckets)[key := entry];
    }

    /** A request passes when both its buckets let it; both are charged either way. */
    method EnforceRate(cfg: RateLimitConfig, req: Request) returns (res: Result<()>)
      requires cfg.enabled == enabled && cfg.banSeconds == banSeconds
      modifies this`buckets
      ensures !enabled ==> res == Ok(()) && buckets == old(buckets)
      ensures enabled ==> (buckets, res.Ok?) == Enforce(cfg, old(buckets), req) && (res.Err? ==> res.error == RateLimited)
    {
      if !enabled {
        return Ok(());
      }
      var burst := cfg.burst as real;
      var globalOk := Allow(req.ip, Global, cfg.perIpRps as real, burst, req.atGlobal);
      var endpointRps := RateFor(cfg, Of(req.endpoint));
      var endpointOk := Allow(req.ip, Of(req.endpoint), endpointRps as real, burst, req.atEndpoint);
      if globalOk && endpointOk {
        return Ok(());
      }
      return Err(RateLimited);
    }
  }

  function AllowStep(buckets: map<RateKey, Bucket>, key: RateKey, rate: real, burst: real, now: real, ban: real):
    (map<RateKey, Bucket>, bool)
  {
    var t := Touch(BucketOf(buckets, key, rate, burst, now), now, ban);
    (buckets[key := t.0], t.1)
  }

  /** One HTTP request: the limiter reads the clock once for each bucket. Only the
      single `Allow` is atomic; `RateWindows` lets requests overlap. */
  datatype Request = Request(ip: Text, endpoint: Endpoint, atGlobal: real, atEndpoint: real)

  function ChargeAt(cfg: RateLimitConfig, buckets: map<RateKey, Bucket>, key: RateKey, now: real):
    (map<RateKey, Bucket>, bool)
  {
    AllowStep(buckets, key, RateFor(cfg, key.name) as real, cfg.burst as real, now, cfg.banSeconds as real)
  }

  function Enforce(cfg: RateLimitConfig, buckets: map<RateKey, Bucket>, req: Request): (map<RateKey, Bucket>, bool) {
    var g := ChargeAt(cfg, buckets, RateKey(req.ip, Global), req.atGlobal);
    var e := ChargeAt(cfg, g.0, RateKey(req.ip, Of(req.endpoint)), req.atEndpoint);
    (e.0, g.1 && e.1)
  }
}
