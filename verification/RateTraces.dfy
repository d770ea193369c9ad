/** What the token buckets guarantee over whole request traces. */
module RateTraces {
  import opened Machine
  import opened RateLimiter

  // ---- one bucket ----

  ghost predicate Sane(b: Bucket) {
    0.0 <= b.tokens <= b.burst && 0.0 <= b.rate
  }

  /** The tokens earned at `rate` from one moment to another. */
  ghost function Earned(rate: real, from: real, to: real): real {
    rate * (to - from)
  }

  /** What the bucket reckons between two clock readings, which may be out of order. */
  ghost function Gain(rate: real, from: real, to: real): real {
    Earned(rate, 0.0, Elapsed(from, to))
  }

  lemma EarnedAdds(rate: real, a: real, b: real, c: real)
    ensures Earned(rate, a, b) + Earned(rate, b, c) == Earned(rate, a, c)
  {
  }

  lemma EarnedSign(rate: real, a: real, b: real)
    requires 0.0 <= rate && a <= b
    ensures 0.0 <= Earned(rate, a, b) && Earned(rate, a, a) == 0.0
  {
  }

  lemma EarnedShift(rate: real, from: real, to: real)
    ensures Earned(rate, 0.0, to - from) == Earned(rate, from, to)
  {
  }

  lemma AvailIs(b: Bucket, now: real)
    ensures Avail(b, now) == RMin(b.tokens + Gain(b.rate, b.last, now), b.burst)
    ensures b.last <= now ==> Gain(b.rate, b.last, now) == Earned(b.rate, b.last, now)
  {
    EarnedShift(b.rate, b.last, now);
  }

  lemma GainGrows(rate: real, last: real, t: real, t': real)
    requires 0.0 <= rate
    ensures 0.0 <= Gain(rate, last, t') <= Gain(rate, last, t) + Gain(rate, t, t') && 0.0 <= Gain(rate, last, t)
    ensures Gain(rate, t, t) == 0.0
  {
    hide Earned;
    var a, b, c := Elapsed(last, t), Elapsed(t, t'), Elapsed(last, t');
    EarnedSign(rate, 0.0, a);
    EarnedSign(rate, 0.0, c);
    EarnedSign(rate, c, a + b);
    EarnedAdds(rate, 0.0, c, a + b);
    EarnedAdds(rate, 0.0, a, a + b);
    EarnedShift(rate, a, a + b);
  }

  /** Waiting refills at most `rate` tokens a second, as the clock readings have it. */
  lemma AvailGrows(b: Bucket, t: real, t': real)
    requires Sane(b)
    ensures 0.0 <= Avail(b, t) && 0.0 <= Avail(b, t') <= Avail(b, t) + Gain(b.rate, t, t')
    ensures Avail(b, b.last) == b.tokens
  {
    hide Avail, Gain, Earned;
    AvailIs(b, t);
    AvailIs(b, t');
    AvailIs(b, b.last);
    GainGrows(b.rate, b.last, t, t');
    GainGrows(b.rate, t, t, t');
    GainGrows(b.rate, b.last, b.last, t);
  }

  /** A call spends what it grants, and keeps 0 <= tokens <= burst. */
  lemma TouchSpends(b: Bucket, now: real, ban: real)
    requires Sane(b)
    ensures var (b', ok) := Touch(b, now, ban);
            && Sane(b') && b'.burst == b.burst && b'.rate == b.rate
            && Avail(b', now) + (if ok then 1.0 else 0.0) <= Avail(b, now)
            && (ok ==> b'.last == now && b'.banUntil == None && b'.tokens == Avail(b', now) == Avail(b, now) - 1.0)
  {
    hide Avail, Gain;
    var b' := Touch(b, now, ban).0;
    AvailIs(b, now);
    AvailGrows(b, now, now);
    if Sane(b') { AvailGrows(b', now, now); }
  }

  /** Whether the call was granted, refused or made during a ban: what is left when the
      next one comes. */
  lemma TouchThenWait(b: Bucket, now: real, ban: real, t': real)
    requires Sane(b) && b.last <= now <= t'
    ensures var (b', ok) := Touch(b, now, ban);
            && Sane(b') && b'.burst == b.burst && b'.rate == b.rate && b'.last <= now
            && Avail(b', t') == RMin(Avail(b, now) - (if ok then 1.0 else 0.0) + Earned(b.rate, now, t'), b.burst)
  {
    hide Avail, Earned, Gain;
    TouchSpends(b, now, ban);
    var b' := Touch(b, now, ban).0;
    AvailIs(b, now);
    AvailIs(b', t');
    EarnedAdds(b.rate, b.last, now, t');
    EarnedSign(b.rate, now, t');
  }

  ghost predicate Rising(ts: seq<real>) {
    forall i, j :: 0 <= i <= j < |ts| ==> ts[i] <= ts[j]
  }

  /** The bucket after calls at `ts`. */
  ghost function Run(b: Bucket, ts: seq<real>, ban: real): Bucket {
    if ts == [] then b else Touch(Run(b, ts[..|ts| - 1], ban), ts[|ts| - 1], ban).0
  }

  ghost predicate AllowedAt(b: Bucket, ts: seq<real>, ban: real, j: nat)
    requires j < |ts|
  {
    Touch(Run(b, ts[..j], ban), ts[j], ban).1
  }

  lemma RunStep(b: Bucket, ts: seq<real>, ban: real, j: nat)
    requires j < |ts|
    ensures Run(b, ts[..j + 1], ban) == Touch(Run(b, ts[..j], ban), ts[j], ban).0
  {
    assert ts[..j + 1][..j] == ts[..j];
  }

  // ---- the closed form ----

  /** How many of the turns `i` to `j - 1` were granted. */
  ghost function Grants(g: seq<bool>, i: nat, j: nat): nat
    requires i <= j <= |g|
  {
    if i == j then 0 else Grants(g, i, j - 1) + if g[j - 1] then 1 else 0
  }

  /** The line that turn `i` puts on the tokens available to turn `j`. */
  ghost function Line(burst: real, rate: real, ts: seq<real>, g: seq<bool>, i: nat, j: nat): real
    requires i <= j < |ts| && j <= |g|
  {
    burst + Earned(rate, ts[i], ts[j]) - Grants(g, i, j) as real
  }

  lemma LineStep(burst: real, rate: real, ts: seq<real>, g: seq<bool>, i: nat, j: nat)
    requires i <= j < |ts| - 1 && j < |g|
    ensures Line(burst, rate, ts, g, i, j + 1) ==
            Line(burst, rate, ts, g, i, j) - (if g[j] then 1.0 else 0.0) + Earned(rate, ts[j], ts[j + 1])
  {
    hide Earned;
    EarnedAdds(rate, ts[i], ts[j], ts[j + 1]);
  }

  ghost predicate BelowLines(burst: real, rate: real, ts: seq<real>, g: seq<bool>, j: nat, avail: real)
    requires j < |ts| && j <= |g|
  {
    forall i :: 0 <= i <= j ==> avail <= Line(burst, rate, ts, g, i, j)
  }

  ghost predicate OnALine(burst: real, rate: real, ts: seq<real>, g: seq<bool>, j: nat, avail: real)
    requires j < |ts| && j <= |g|
  {
    exists i :: 0 <= i <= j && avail == Line(burst, rate, ts, g, i, j)
  }

  lemma EnvelopeStart(rate: real, burst: real, ts: seq<real>, g: seq<bool>)
    requires 0.0 <= rate && 0 < |ts|
    ensures BelowLines(burst, rate, ts, g, 0, burst) && OnALine(burst, rate, ts, g, 0, burst)
  {
    hide Earned;
    EarnedSign(rate, ts[0], ts[0]);
    assert Line(burst, rate, ts, g, 0, 0) == burst;
  }

  /** Refill, cap and take keep the tokens on the lower envelope of the lines. */
  lemma EnvelopeStep(rate: real, burst: real, ts: seq<real>, g: seq<bool>, k: nat, avail: real, avail': real)
    requires 0.0 <= rate && k + 1 < |ts| && k < |g|
    requires avail' == RMin(avail - (if g[k] then 1.0 else 0.0) + Earned(rate, ts[k], ts[k + 1]), burst)
    requires BelowLines(burst, rate, ts, g, k, avail) && OnALine(burst, rate, ts, g, k, avail)
    ensures BelowLines(burst, rate, ts, g, k + 1, avail') && OnALine(burst, rate, ts, g, k + 1, avail')
  {
    hide Earned;
    var j := k + 1;
    EarnedSign(rate, ts[j], ts[j]);
    assert Line(burst, rate, ts, g, j, j) == burst;
    forall i | 0 <= i <= j ensures avail' <= Line(burst, rate, ts, g, i, j) {
      if i <= k { LineStep(burst, rate, ts, g, i, k); }
    }
    var i :| 0 <= i <= k && avail == Line(burst, rate, ts, g, i, k);
    LineStep(burst, rate, ts, g, i, k);
  }

  /** Turn `j` finds a token unless some window that ends at it is used up. */
  ghost predicate RoomAt(burst: real, rate: real, ts: seq<real>, g: seq<bool>, j: nat)
    requires j < |ts| && j <= |g|
  {
    forall i :: 0 <= i <= j ==> (1 + Grants(g, i, j)) as real <= burst + rate * (ts[j] - ts[i])
  }

  lemma RoomIsToken(burst: real, rate: real, ts: seq<real>, g: seq<bool>, j: nat, avail: real)
    requires j < |ts| && j <= |g|
    requires BelowLines(burst, rate, ts, g, j, avail) && OnALine(burst, rate, ts, g, j, avail)
    ensures 1.0 <= avail <==> RoomAt(burst, rate, ts, g, j)
  {
    forall i | 0 <= i <= j
      ensures (1 + Grants(g, i, j)) as real <= burst + rate * (ts[j] - ts[i]) <==> 1.0 <= Line(burst, rate, ts, g, i, j)
    {
      assert (1 + Grants(g, i, j)) as real == 1.0 + Grants(g, i, j) as real;
    }
    var i :| 0 <= i <= j && avail == Line(burst, rate, ts, g, i, j);
  }

  /** The decisions on calls at `ts`. */
  ghost function Decisions(b: Bucket, ts: seq<real>, ban: real): (g: seq<bool>)
    ensures |g| == |ts| && forall j :: 0 <= j < |ts| ==> g[j] == AllowedAt(b, ts, ban, j)
  {
    seq(|ts|, j requires 0 <= j < |ts| => AllowedAt(b, ts, ban, j))
  }

  /** Through refusals and bans, the bucket holds the lower envelope. */
  lemma {:induction false} Envelope(rate: real, burst: real, ts: seq<real>, ban: real, j: nat)
    requires 0.0 <= rate && 0.0 <= burst && Rising(ts) && j < |ts|
    ensures var b0 := Fresh(rate, burst, ts[0]); var b, g := Run(b0, ts[..j], ban), Decisions(b0, ts, ban);
            && Sane(b) && b.last <= ts[j] && b.burst == burst && b.rate == rate
            && BelowLines(burst, rate, ts, g, j, Avail(b, ts[j])) && OnALine(burst, rate, ts, g, j, Avail(b, ts[j]))
  {
    hide Touch, Avail, BelowLines, OnALine, RMin, Earned;
    var b0 := Fresh(rate, burst, ts[0]);
    var g := Decisions(b0, ts, ban);
    if j == 0 {
      assert ts[..0] == [];
      AvailGrows(b0, ts[0], ts[0]);
      EnvelopeStart(rate, burst, ts, g);
    } else {
      var k := j - 1;
      Envelope(rate, burst, ts, ban, k);
      RunStep(b0, ts, ban, k);
      var b, b' := Run(b0, ts[..k], ban), Run(b0, ts[..j], ban);
      TouchThenWait(b, ts[k], ban, ts[j]);
      EnvelopeStep(rate, burst, ts, g, k, Avail(b, ts[k]), Avail(b', ts[j]));
    }
  }

  /** Outside a ban a call is granted exactly when no window that ends at it is used up. */
  lemma GrantedOutsideBans(rate: real, burst: real, ts: seq<real>, ban: real, j: nat)
    requires 0.0 <= rate && 0.0 <= burst && Rising(ts) && j < |ts|
    requires !Banned(Run(Fresh(rate, burst, ts[0]), ts[..j], ban), ts[j])
    ensures var b0 := Fresh(rate, burst, ts[0]);
            AllowedAt(b0, ts, ban, j) <==> RoomAt(burst, rate, ts, Decisions(b0, ts, ban), j)
  {
    hide Avail, BelowLines, OnALine, RoomAt, Run;
    Envelope(rate, burst, ts, ban, j);
    var b0 := Fresh(rate, burst, ts[0]);
    RoomIsToken(burst, rate, ts, Decisions(b0, ts, ban), j, Avail(Run(b0, ts[..j], ban), ts[j]));
  }

  /** A call that finds the bucket empty outside a ban, and so starts one. */
  ghost predicate StartsBan(b: Bucket, ts: seq<real>, ban: real, i: nat)
    requires i < |ts|
  {
    !Banned(Run(b, ts[..i], ban), ts[i]) && !AllowedAt(b, ts, ban, i)
  }

  lemma BanStep(b: Bucket, ts: seq<real>, ban: real, i: nat)
    requires i < |ts|
    ensures var before, after := Run(b, ts[..i], ban).banUntil, Run(b, ts[..i + 1], ban).banUntil;
            && (StartsBan(b, ts, ban, i) ==> after == Some(ts[i] + ban))
            && (!StartsBan(b, ts, ban, i) ==> after == None || after == before)
            && (before.Some? && before.value > ts[i] ==> after == before)
  {
    hide Avail, Run;
    RunStep(b, ts, ban, i);
  }

  lemma {:induction false} BanFrom(b: Bucket, ts: seq<real>, ban: real, j: nat)
    requires b.banUntil == None && Rising(ts) && j <= |ts|
    ensures var until := Run(b, ts[..j], ban).banUntil;
            && (until.Some? ==> exists i :: 0 <= i < j && StartsBan(b, ts, ban, i) && until.value == ts[i] + ban)
            && (j < |ts| ==> forall i :: 0 <= i < j && StartsBan(b, ts, ban, i) && ts[j] < ts[i] + ban ==> until == Some(ts[i] + ban))
  {
    hide StartsBan, Touch;
    if j == 0 {
      assert ts[..0] == [];
    } else {
      BanFrom(b, ts, ban, j - 1);
      BanStep(b, ts, ban, j - 1);
      if j < |ts| { assert ts[j - 1] <= ts[j]; }
    }
  }

  /** A ban is in force exactly when some earlier call has started one that lasts so long. */
  lemma BannedExactly(b: Bucket, ts: seq<real>, ban: real, j: nat)
    requires b.banUntil == None && Rising(ts) && j < |ts|
    ensures Banned(Run(b, ts[..j], ban), ts[j]) <==> exists i :: 0 <= i < j && StartsBan(b, ts, ban, i) && ts[j] < ts[i] + ban
  {
    hide Touch, Run, StartsBan;
    BanFrom(b, ts, ban, j);
  }

  // ---- until the first refusal ----

  ghost predicate Granted(b: Bucket, ts: seq<real>, ban: real, j: nat)
    requires j <= |ts|
  {
    forall k :: 0 <= k < j ==> AllowedAt(b, ts, ban, k)
  }

  /** Request `j` conforms: no window ending at it holds too many requests. */
  ghost predicate Conforms(burst: real, rate: real, ts: seq<real>, j: nat)
    requires j < |ts|
  {
    forall i :: 0 <= i <= j ==> (j - i + 1) as real <= burst + rate * (ts[j] - ts[i])
  }

  lemma {:induction false} AllGrants(g: seq<bool>, i: nat, j: nat)
    requires i <= j <= |g| && forall k :: i <= k < j ==> g[k]
    ensures Grants(g, i, j) == j - i
  {
    if i < j { AllGrants(g, i, j - 1); }
  }

  lemma GrantedNoBan(b: Bucket, ts: seq<real>, ban: real, j: nat)
    requires j <= |ts| && Granted(b, ts, ban, j) && b.banUntil == None
    ensures Run(b, ts[..j], ban).banUntil == None
  {
    hide Avail;
    if j > 0 {
      assert AllowedAt(b, ts, ban, j - 1);
      RunStep(b, ts, ban, j - 1);
    }
  }

  /** Up to the first refusal, a request is allowed exactly when it conforms. */
  lemma FirstRefusal(rate: real, burst: real, ts: seq<real>, ban: real, j: nat)
    requires 0.0 <= rate && 0.0 <= burst && Rising(ts) && j < |ts|
    requires Granted(Fresh(rate, burst, ts[0]), ts, ban, j)
    ensures AllowedAt(Fresh(rate, burst, ts[0]), ts, ban, j) <==> Conforms(burst, rate, ts, j)
  {
    hide Touch, Run;
    var b0 := Fresh(rate, burst, ts[0]);
    assert ts[..0] == [];
    GrantedNoBan(b0, ts, ban, j);
    GrantedOutsideBans(rate, burst, ts, ban, j);
    forall i | 0 <= i <= j ensures Grants(Decisions(b0, ts, ban), i, j) == j - i { AllGrants(Decisions(b0, ts, ban), i, j); }
  }

  /** A whole trace is granted exactly when every one of its requests conforms. */
  lemma {:induction false} GrantedExactly(rate: real, burst: real, ts: seq<real>, ban: real, n: nat)
    requires 0.0 <= rate && 0.0 <= burst && Rising(ts) && 0 < |ts| && n <= |ts|
    ensures Granted(Fresh(rate, burst, ts[0]), ts, ban, n) <==> forall j :: 0 <= j < n ==> Conforms(burst, rate, ts, j)
  {
    if n > 0 {
      GrantedExactly(rate, burst, ts, ban, n - 1);
      if Granted(Fresh(rate, burst, ts[0]), ts, ban, n - 1) { FirstRefusal(rate, burst, ts, ban, n - 1); }
    }
  }

  // ---- bans ----

  /** After a refusal at `t` that sets a ban, every call before its end is refused
      and leaves the bucket, and so the ban, as it is. */
  lemma {:induction false} BanHolds(b: Bucket, t: real, ban: real, ts: seq<real>)
    requires !Banned(b, t) && !Touch(b, t, ban).1
    requires forall i :: 0 <= i < |ts| ==> ts[i] < t + ban
    ensures Run(Touch(b, t, ban).0, ts, ban) == Touch(b, t, ban).0
    ensures forall j :: 0 <= j < |ts| ==> !AllowedAt(Touch(b, t, ban).0, ts, ban, j)
  {
    if ts != [] {
      var init := ts[..|ts| - 1];
      BanHolds(b, t, ban, init);
      forall j | 0 <= j < |ts| ensures !AllowedAt(Touch(b, t, ban).0, ts, ban, j) {
        BanHolds(b, t, ban, ts[..j]);
      }
    }
  }

  /** The first call at or after the end of the ban is allowed, when a ban lasts long
      enough to earn a token. */
  lemma BanEnds(b: Bucket, t: real, ban: real, ts: seq<real>, t': real)
    requires Sane(b) && !Banned(b, t) && !Touch(b, t, ban).1
    requires 1.0 <= b.burst && 0.0 <= ban && 1.0 <= b.rate * ban
    requires (forall i :: 0 <= i < |ts| ==> ts[i] < t + ban) && t + ban <= t'
    ensures Touch(Run(Touch(b, t, ban).0, ts, ban), t', ban).1
  {
    BanHolds(b, t, ban, ts);
    EarnsToken(b, t, ban, t');
  }

  lemma EarnsToken(b: Bucket, t: real, ban: real, t': real)
    requires Sane(b) && !Banned(b, t) && !Touch(b, t, ban).1
    requires 1.0 <= b.burst && 0.0 <= ban && 1.0 <= b.rate * ban && t + ban <= t'
    ensures Touch(Touch(b, t, ban).0, t', ban).1
  {
    hide Avail, Earned, Gain;
    var b' := Touch(b, t, ban).0;
    TouchSpends(b, t, ban);
    AvailIs(b', t');
    EarnedAdds(b.rate, t, t + ban, t');
    EarnedSign(b.rate, t + ban, t');
    BanEarns(b.rate, t, ban);
  }

  lemma BanEarns(rate: real, t: real, ban: real)
    ensures Earned(rate, t, t + ban) == rate * ban
  {
  }
}
