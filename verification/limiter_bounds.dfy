/** What the limiter promises over whole runs. */
module LimiterBounds {
  import opened TokenBucket

  // ----- the admission bound over a window -----

  /** The tokens one address could hold at `t` if it had always been refilled at rate `r`. */
  function Potential(m: Buckets, burst: int, ip: string, t: real, r: real): (p: real)
    ensures p <= burst as real
  {
    if ip in m then Min(burst as real, m[ip].tokens + Credit(m[ip].lastRefill, t, r)) else burst as real
  }

  /** The address's own calls come at no larger rate. */
  predicate RatesAtMost(es: seq<Event>, ip: string, r: real) {
    forall e :: e in es && e.Call? && e.ip == ip ==> FillRate(e.rpm) <= r
  }

  /** An idle period past the limit refills a whole bucket at any rate that is fast enough. */
  lemma IdleRefills(a: real, b: real, r: real, rate: real, burst: int)
    requires b - a > 600.0 && 600.0 * r >= burst as real >= 0.0 && 0.0 <= r <= rate
    ensures Credit(a, b, rate) >= burst as real
  {
    CreditMono(0.0, 600.0, r, a, b, rate);
  }

  predicate SweepFree(es: seq<Event>) {
    forall e :: e in es ==> e.Call?
  }

  lemma PotentialNonNegative(m: Buckets, burst: int, ip: string, t: real, r: real)
    requires burst >= 1 && Sound(m, burst, t) && 0.0 <= r
    ensures 0.0 <= Potential(m, burst, ip, t, r)
  {
    if ip in m {
      CreditMono(t, t, 0.0, m[ip].lastRefill, t, r);
    }
  }

  lemma PotentialGrows(m: Buckets, burst: int, ip: string, t: real, u: real, r: real)
    requires 0.0 <= r && t <= u
    ensures Potential(m, burst, ip, u, r) <= Potential(m, burst, ip, t, r) + Credit(t, u, r)
  {
    CreditMono(t, t, 0.0, t, u, r);
    if ip in m {
      CreditSplits(m[ip].lastRefill, t, u, r);
    }
  }

  function Paid(m: Buckets, burst: int, e: Event, ip: string): nat {
    if e.Call? && e.ip == ip && Admits(m, e.time, ip, e.rpm, burst) then 1 else 0
  }

  /** Each event pays for what it admits out of the potential. */
  lemma PotentialPays(m: Buckets, burst: int, ip: string, e: Event, r: real)
    requires burst >= 1 && Sound(m, burst, e.time) && (e.Call? || 600.0 * r >= burst as real)
    requires e.Call? && e.ip == ip ==> FillRate(e.rpm) <= r
    ensures Potential(Next(m, burst, e), burst, ip, e.time, r)
         <= Potential(m, burst, ip, e.time, r)
            - Paid(m, burst, e, ip) as real
  {
    if e.Call? && e.ip == ip {
      if ip in m {
        CreditMono(m[ip].lastRefill, e.time, FillRate(e.rpm), m[ip].lastRefill, e.time, r);
      }
      assert Credit(e.time, e.time, r) == 0.0;
    } else if e.Sweep? && ip in m && Stale(m[ip], e.time) {
      IdleRefills(m[ip].lastRefill, e.time, r, r, burst);
    }
  }

  lemma {:induction false} AdmittedWithinPotential(m: Buckets, burst: int, es: seq<Event>, ip: string, start: real,
                                                   r: real)
    requires burst >= 1 && Sound(m, burst, start) && Ordered(es, start)
    requires RatesAtMost(es, ip, r) && 0.0 <= r && (SweepFree(es) || 600.0 * r >= burst as real)
    ensures Admitted(m, burst, es, ip) as real
         <= Potential(m, burst, ip, start, r) + Credit(start, EndTime(es, start), r)
    decreases |es|
  {
    if es == [] {
      PotentialNonNegative(m, burst, ip, start, r);
      assert EndTime(es, start) == start && Credit(start, start, r) == 0.0;
      assert Admitted(m, burst, es, ip) == 0;
    } else {
      var e, rest, m' := es[0], es[1..], Next(m, burst, es[0]);
      assert EndTime(rest, e.time) == EndTime(es, start);
      PotentialGrows(m, burst, ip, start, e.time, r);
      PotentialPays(m, burst, ip, e, r);
      SoundNext(m, burst, e, start);
      AdmittedWithinPotential(m', burst, rest, ip, e.time, r);
      CreditSplits(start, e.time, EndTime(es, start), r);
    }
  }

  lemma WindowOf(burst: int, es: seq<Event>, start: real, i: nat, j: nat)
    requires burst >= 1 && Ordered(es, start) && i < j <= |es|
    ensures Sound(After(map[], burst, es[..i]), burst, es[i].time)
    ensures Ordered(es[i..j], es[i].time) && EndTime(es[i..j], es[i].time) == es[j - 1].time
  {
    OrderedSplit(es, start, i);
    SoundAfter(map[], burst, es[..i], start);
    OrderedSplit(es[i..], EndTime(es[..i], start), j - i);
    var w := es[i..j];
    assert es[i..][..j - i] == w;
    assert w[0] == es[i] && w[|w| - 1] == es[j - 1];
  }

  /** Between event i and event j - 1 of any run, one address is admitted at most
      `burst` plus the refill of that window at the largest rate of its calls. */
  lemma WindowBound(burst: int, es: seq<Event>, start: real, i: nat, j: nat, ip: string, r: real)
    requires burst >= 1 && Ordered(es, start) && i < j <= |es|
    requires RatesAtMost(es, ip, r) && 0.0 <= r && (SweepFree(es) || 600.0 * r >= burst as real)
    ensures Admitted(After(map[], burst, es[..i]), burst, es[i..j], ip) as real
         <= burst as real + Credit(es[i].time, es[j - 1].time, r)
  {
    WindowOf(burst, es, start, i, j);
    assert forall e :: e in es[i..j] ==> e in es;
    AdmittedWithinPotential(After(map[], burst, es[..i]), burst, es[i..j], ip, es[i].time, r);
  }

  // ----- sweeping is invisible -----

  predicate RatesAtLeast(es: seq<Event>, r: real) {
    forall e :: e in es && e.Call? ==> FillRate(e.rpm) >= r
  }

  /** A bucket only the keeping limiter still has refills to full before its next use. */
  predicate Simulates(m: Buckets, k: Buckets, now: real) {
    && m.Keys <= k.Keys
    && (forall ip :: ip in m ==> m[ip] == k[ip])
    && (forall ip :: ip in k && ip !in m ==> Stale(k[ip], now))
  }

  lemma SimulationStep(m: Buckets, k: Buckets, burst: int, e: Event, now: real, r: real)
    requires burst >= 1 && Sound(k, burst, now) && Simulates(m, k, now) && now <= e.time
    requires e.Call? ==> FillRate(e.rpm) >= r
    requires 600.0 * r >= burst as real
    ensures Simulates(Next(m, burst, e), NextKeeping(k, burst, e), e.time)
    ensures e.Call? ==> AnswerTo(m, e.time, e.ip, e.rpm, burst) == AnswerTo(k, e.time, e.ip, e.rpm, burst)
  {
    if e.Call? && e.ip in k && e.ip !in m {
      IdleRefills(k[e.ip].lastRefill, e.time, r, FillRate(e.rpm), burst);
    }
  }

  lemma SoundNextKeeping(m: Buckets, burst: int, e: Event, now: real)
    requires burst >= 1 && Sound(m, burst, now) && now <= e.time
    ensures Sound(NextKeeping(m, burst, e), burst, e.time)
  {
    if e.Call? {
      SoundNext(m, burst, e, now);
    }
  }

  lemma {:induction false} SweepingInvisible(m: Buckets, k: Buckets, burst: int, es: seq<Event>, ip: string,
                                             start: real, r: real)
    requires burst >= 1 && Sound(k, burst, start) && Simulates(m, k, start) && Ordered(es, start)
    requires RatesAtLeast(es, r) && 600.0 * r >= burst as real
    ensures AnswersFor(m, burst, es, ip) == AnswersForKeeping(k, burst, es, ip)
    decreases |es|
  {
    if es != [] {
      SimulationStep(m, k, burst, es[0], start, r);
      SoundNextKeeping(k, burst, es[0], start);
      SweepingInvisible(Next(m, burst, es[0]), NextKeeping(k, burst, es[0]), burst, es[1..], ip, es[0].time, r);
    }
  }

  // ----- the two conditions are exact -----

  /** The two rates a deployment uses, and its burst. */
  datatype Limits = Limits(rpm: Rate, heartbeatRpm: Rate, burst: int) {
    function Faster(): Rate {
      if rpm <= heartbeatRpm then heartbeatRpm else rpm
    }

    function Slower(): Rate {
      if rpm <= heartbeatRpm then rpm else heartbeatRpm
    }
  }

  /** A run of a deployment: time moves forward and every call uses one of the two rates. */
  predicate RunOf(c: Limits, es: seq<Event>) {
    && Ordered(es, 0.0)
    && forall e :: e in es && e.Call? ==> e.rpm == c.rpm || e.rpm == c.heartbeatRpm
  }

  ghost predicate WindowSafe(c: Limits) {
    forall es: seq<Event>, i: nat, j: nat, ip: string :: RunOf(c, es) && i < j <= |es| ==>
      Admitted(After(map[], c.burst, es[..i]), c.burst, es[i..j], ip) as real
        <= c.burst as real + Credit(es[i].time, es[j - 1].time, FillRate(c.Faster()))
  }

  ghost predicate SweepSafe(c: Limits) {
    forall es: seq<Event>, ip: string :: RunOf(c, es) ==>
      AnswersFor(map[], c.burst, es, ip) == AnswersForKeeping(map[], c.burst, es, ip)
  }

  /** n calls of one address at one instant. */
  function Volley(n: nat, t: real, rpm: Rate): (es: seq<Event>)
    ensures |es| == n && forall e :: e in es ==> e == Call(t, "", rpm)
  {
    if n == 0 then [] else [Call(t, "", rpm)] + Volley(n - 1, t, rpm)
  }

  lemma {:induction false} VolleyAppend(n: nat, t: real, rpm: Rate, es: seq<Event>, start: real)
    requires start <= t && Ordered(es, t)
    ensures Ordered(Volley(n, t, rpm) + es, start)
    decreases n
  {
    if n == 0 {
      assert Volley(n, t, rpm) + es == es;
    } else {
      VolleyAppend(n - 1, t, rpm, es, t);
      assert (Volley(n, t, rpm) + es)[1..] == Volley(n - 1, t, rpm) + es;
    }
  }

  /** The first call of a volley takes one token. */
  lemma VolleyTakesOne(m: Buckets, burst: int, n: nat, t: real, rpm: Rate, es: seq<Event>)
    requires 1 <= n <= burst && Available(m, t, "", rpm, burst) == n as real
    ensures
      var all, rest := Volley(n, t, rpm) + es, Volley(n - 1, t, rpm) + es;
      var m' := m["" := Bucket(n as real - 1.0, t)];
      && Admitted(m, burst, all, "") == 1 + Admitted(m', burst, rest, "")
      && After(m, burst, all) == After(m', burst, rest)
      && Available(m', t, "", rpm, burst) == (n - 1) as real
  {
    var all := Volley(n, t, rpm) + es;
    assert all[0] == Call(t, "", rpm) && all[1..] == Volley(n - 1, t, rpm) + es;
    assert Next(m, burst, all[0]) == m["" := Bucket(n as real - 1.0, t)];
    assert Credit(t, t, FillRate(rpm)) == 0.0;
  }

  /** A bucket with n tokens admits exactly a volley of n, then is empty. */
  lemma {:induction false} VolleyDrains(m: Buckets, burst: int, n: nat, t: real, rpm: Rate, es: seq<Event>)
    requires 1 <= n <= burst && Available(m, t, "", rpm, burst) == n as real
    ensures Admitted(m, burst, Volley(n, t, rpm) + es, "")
         == n + Admitted(m["" := Bucket(0.0, t)], burst, es, "")
    ensures After(m, burst, Volley(n, t, rpm) + es) == After(m["" := Bucket(0.0, t)], burst, es)
    decreases n
  {
    var m' := m["" := Bucket(n as real - 1.0, t)];
    VolleyTakesOne(m, burst, n, t, rpm, es);
    if n == 1 {
      assert Volley(n - 1, t, rpm) + es == es;
    } else {
      VolleyDrains(m', burst, n - 1, t, rpm, es);
      assert m'["" := Bucket(0.0, t)] == m["" := Bucket(0.0, t)];
    }
  }

  /** Empty the bucket, wait until it is swept, empty it again. */
  function Refill(burst: nat, t: real, rpm: Rate): seq<Event> {
    Volley(burst, 0.0, rpm) + ([Sweep(t)] + (Volley(burst, t, rpm) + []))
  }

  lemma RefillIsRun(c: Limits, t: real, rpm: Rate)
    requires c.burst >= 1 && (rpm == c.rpm || rpm == c.heartbeatRpm) && t >= 0.0
    ensures RunOf(c, Refill(c.burst, t, rpm)) && |Refill(c.burst, t, rpm)| == 2 * c.burst + 1
    ensures Refill(c.burst, t, rpm)[0].time == 0.0 && Refill(c.burst, t, rpm)[2 * c.burst].time == t
  {
    var v, w := Volley(c.burst, 0.0, rpm), Volley(c.burst, t, rpm);
    VolleyAppend(c.burst, t, rpm, [], t);
    VolleyAppend(c.burst, 0.0, rpm, [Sweep(t)] + (w + []), 0.0);
    assert v[0] in v && w[c.burst - 1] in w;
    assert Refill(c.burst, t, rpm)[2 * c.burst] == w[c.burst - 1];
  }

  lemma RefillAdmitsTwice(burst: nat, t: real, rpm: Rate)
    requires burst >= 1 && t > 600.0
    ensures Admitted(map[], burst, Refill(burst, t, rpm), "") == 2 * burst
  {
    var rest := [Sweep(t)] + (Volley(burst, t, rpm) + []);
    VolleyDrains(map[], burst, burst, 0.0, rpm, rest);
    var m: Buckets := map[]["" := Bucket(0.0, 0.0)];
    assert rest[0] == Sweep(t) && rest[1..] == Volley(burst, t, rpm) + [];
    assert Next(m, burst, rest[0]) == map[];
    VolleyDrains(map[], burst, burst, t, rpm, []);
  }

  /** When a full idle period does not refill the bucket, some instant after it does not either. */
  lemma LateInstant(rpm: Rate, burst: int) returns (t: real)
    requires 10 * rpm < burst
    ensures t > 600.0 && Credit(0.0, t, FillRate(rpm)) < burst as real
  {
    var rate := FillRate(rpm);
    t := 600.0 + 1.0 / (2.0 * rate);
    assert t * rate == 600.0 * rate + 0.5;
  }

  /** The window bound holds on every run exactly when the idle limit refills the bucket at
      the faster rate. */
  lemma WindowSafeIff(c: Limits)
    requires c.burst >= 1
    ensures WindowSafe(c) <==> 10 * c.Faster() >= c.burst
  {
    var r := FillRate(c.Faster());
    if 10 * c.Faster() >= c.burst {
      forall es: seq<Event>, i: nat, j: nat, ip: string | RunOf(c, es) && i < j <= |es|
        ensures Admitted(After(map[], c.burst, es[..i]), c.burst, es[i..j], ip) as real
             <= c.burst as real + Credit(es[i].time, es[j - 1].time, r)
      {
        WindowBound(c.burst, es, 0.0, i, j, ip, r);
      }
    } else {
      var t := LateInstant(c.Faster(), c.burst);
      var es := Refill(c.burst, t, c.Faster());
      RefillIsRun(c, t, c.Faster());
      RefillAdmitsTwice(c.burst, t, c.Faster());
      assert es[..0] == [] && es[0..|es|] == es;
      assert Admitted(After(map[], c.burst, es[..0]), c.burst, es[0..|es|], "") == 2 * c.burst;
      assert Credit(es[0].time, es[|es| - 1].time, r) < c.burst as real;
    }
  }

  function AllowedIn(s: seq<Answer>): nat {
    if s == [] then 0 else (if s[0].allowed then 1 else 0) + AllowedIn(s[1..])
  }

  lemma {:induction false} AdmittedCountsAnswers(m: Buckets, burst: int, es: seq<Event>, ip: string)
    ensures AllowedIn(AnswersFor(m, burst, es, ip)) == Admitted(m, burst, es, ip)
    decreases |es|
  {
    if es != [] {
      AdmittedCountsAnswers(Next(m, burst, es[0]), burst, es[1..], ip);
      var rest := AnswersFor(Next(m, burst, es[0]), burst, es[1..], ip);
      assert forall a: Answer :: ([a] + rest)[1..] == rest;
      assert [] + rest == rest;
    }
  }

  /** The keeping limiter runs like a sweeping one on the events without the sweeps. */
  function WithoutSweeps(es: seq<Event>): (r: seq<Event>)
    ensures SweepFree(r) && forall e :: e in r ==> e in es
  {
    if es == [] then [] else (if es[0].Sweep? then [] else [es[0]]) + WithoutSweeps(es[1..])
  }

  lemma {:induction false} KeepingIsNeverSweeping(m: Buckets, burst: int, es: seq<Event>, ip: string)
    ensures AnswersForKeeping(m, burst, es, ip) == AnswersFor(m, burst, WithoutSweeps(es), ip)
    decreases |es|
  {
    if es != [] {
      var w := WithoutSweeps(es[1..]);
      KeepingIsNeverSweeping(NextKeeping(m, burst, es[0]), burst, es[1..], ip);
      if es[0].Sweep? {
        assert WithoutSweeps(es) == w;
      } else {
        assert WithoutSweeps(es)[1..] == w;
      }
    }
  }

  lemma VolleysWithoutSweep(burst: nat, t: real, rpm: Rate)
    requires t >= 0.0
    ensures WithoutSweeps(Refill(burst, t, rpm)) == Volley(burst, 0.0, rpm) + (Volley(burst, t, rpm) + [])
  {
    var rest := [Sweep(t)] + (Volley(burst, t, rpm) + []);
    CallsSurvive(burst, 0.0, rpm, rest);
    CallsSurvive(burst, t, rpm, []);
    assert rest[1..] == Volley(burst, t, rpm) + [];
    assert WithoutSweeps([]) == [];
    assert WithoutSweeps(rest) == WithoutSweeps(Volley(burst, t, rpm) + []);
  }

  lemma {:induction false} CallsSurvive(n: nat, t: real, rpm: Rate, es: seq<Event>)
    ensures WithoutSweeps(Volley(n, t, rpm) + es) == Volley(n, t, rpm) + WithoutSweeps(es)
    decreases n
  {
    var all := Volley(n, t, rpm) + es;
    if n == 0 {
      assert all == es;
    } else {
      assert all[1..] == Volley(n - 1, t, rpm) + es;
      CallsSurvive(n - 1, t, rpm, es);
    }
  }

  /** Sweeping changes no answer on any run exactly when the idle limit refills the bucket at
      the slower rate. */
  lemma SweepSafeIff(c: Limits)
    requires c.burst >= 1
    ensures SweepSafe(c) <==> 10 * c.Slower() >= c.burst
  {
    if 10 * c.Slower() >= c.burst {
      forall es: seq<Event>, ip: string | RunOf(c, es)
        ensures AnswersFor(map[], c.burst, es, ip) == AnswersForKeeping(map[], c.burst, es, ip)
      {
        SweepingInvisible(map[], map[], c.burst, es, ip, 0.0, FillRate(c.Slower()));
      }
    } else {
      SweepVisible(c, c.Slower());
    }
  }

  lemma SweepVisible(c: Limits, rpm: Rate)
    requires c.burst >= 1 && (rpm == c.rpm || rpm == c.heartbeatRpm) && 10 * rpm < c.burst
    ensures !SweepSafe(c)
  {
    var t := LateInstant(rpm, c.burst);
    var es := Refill(c.burst, t, rpm);
    RefillIsRun(c, t, rpm);
    RefillAdmitsTwice(c.burst, t, rpm);
    AdmittedCountsAnswers(map[], c.burst, es, "");
    KeepingIsNeverSweeping(map[], c.burst, es, "");
    AdmittedCountsAnswers(map[], c.burst, WithoutSweeps(es), "");
    KeptRefillAdmitsLess(c.burst, t, rpm);
  }

  lemma KeptRefillAdmitsLess(burst: nat, t: real, rpm: Rate)
    requires burst >= 1 && t >= 0.0 && Credit(0.0, t, FillRate(rpm)) < burst as real
    ensures Admitted(map[], burst, WithoutSweeps(Refill(burst, t, rpm)), "") < 2 * burst
  {
    var calls := Volley(burst, 0.0, rpm) + (Volley(burst, t, rpm) + []);
    VolleysWithoutSweep(burst, t, rpm);
    VolleyAppend(burst, t, rpm, [], 0.0);
    VolleyAppend(burst, t, rpm, [], t);
    VolleyAppend(burst, 0.0, rpm, Volley(burst, t, rpm) + [], 0.0);
    assert calls[|calls| - 1] in Volley(burst, t, rpm);
    AdmittedWithinPotential(map[], burst, calls, "", 0.0, FillRate(rpm));
  }
}
