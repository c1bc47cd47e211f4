/** The limiter behind the middleware: which rate a request is metered at, in requests per minute. */
module LimiterRoutes {
  import opened TokenBucket
  import opened LimiterBounds
  import opened RateLimiter

  /** A request as the middleware sees it, or a pass of the cleanup loop. */
  datatype Traffic =
    | Request(time: real, isPut: bool, path: string, ip: string)
    | Pass(time: real)

  /** What one of them does to the limiter. */
  function Lift(c: Limits, publicPaths: seq<string>, x: Traffic): seq<Event> {
    match x
    case Request(time, isPut, path, ip) =>
      if Exempt(path, publicPaths) then [] else [Call(time, ip, ChosenRate(isPut, path, c.rpm, c.heartbeatRpm))]
    case Pass(time) => [Sweep(time)]
  }

  function Lifted(c: Limits, publicPaths: seq<string>, xs: seq<Traffic>): seq<Event> {
    if xs == [] then [] else Lift(c, publicPaths, xs[0]) + Lifted(c, publicPaths, xs[1..])
  }

  /** How many requests of one address the limiter admits in a window that follows `before`. */
  function Passed(c: Limits, publicPaths: seq<string>, before: seq<Traffic>, window: seq<Traffic>, ip: string): nat {
    Admitted(After(map[], c.burst, Lifted(c, publicPaths, before)), c.burst, Lifted(c, publicPaths, window), ip)
  }

  predicate Timely(xs: seq<Traffic>, start: real) {
    xs == [] || (start <= xs[0].time && Timely(xs[1..], xs[0].time))
  }

  function LastTime(xs: seq<Traffic>, start: real): real {
    if xs == [] then start else xs[|xs| - 1].time
  }

  // ----- lifting keeps the order of time -----

  lemma {:induction false} OrderedFrom(es: seq<Event>, a: real, b: real)
    requires Ordered(es, b) && a <= b
    ensures Ordered(es, a)
  {
  }

  lemma LiftShape(c: Limits, publicPaths: seq<string>, x: Traffic)
    ensures |Lift(c, publicPaths, x)| <= 1
    ensures Lift(c, publicPaths, x) != [] ==> Lift(c, publicPaths, x)[0].time == x.time
  {
  }

  lemma OrderedCons(es: seq<Event>, rest: seq<Event>, start: real, t: real, last: real)
    requires |es| <= 1 && (es != [] ==> es[0].time == t) && start <= t
    requires Ordered(rest, t) && t <= EndTime(rest, t) <= last
    ensures Ordered(es + rest, start) && start <= EndTime(es + rest, start) <= last
  {
    if es == [] {
      assert es + rest == rest;
      OrderedFrom(rest, start, t);
    } else {
      assert (es + rest)[1..] == rest;
    }
  }

  lemma {:induction false} LiftedOrdered(c: Limits, publicPaths: seq<string>, xs: seq<Traffic>, start: real)
    requires Timely(xs, start)
    ensures Ordered(Lifted(c, publicPaths, xs), start)
    ensures start <= EndTime(Lifted(c, publicPaths, xs), start) <= LastTime(xs, start)
    decreases |xs|
  {
    if xs != [] {
      LiftedOrdered(c, publicPaths, xs[1..], xs[0].time);
      LiftShape(c, publicPaths, xs[0]);
      assert LastTime(xs, start) == LastTime(xs[1..], xs[0].time);
      OrderedCons(Lift(c, publicPaths, xs[0]), Lifted(c, publicPaths, xs[1..]), start, xs[0].time, LastTime(xs, start));
    }
  }

  // ----- the bound at the request's own rate -----

  /** What the address sends in the window is metered at no more than this rate. */
  predicate MeteredAtMost(c: Limits, window: seq<Traffic>, ip: string, rpm: Rate) {
    forall x :: x in window && x.Request? && x.ip == ip ==> ChosenRate(x.isPut, x.path, c.rpm, c.heartbeatRpm) <= rpm
  }

  lemma {:induction false} LiftedRates(c: Limits, publicPaths: seq<string>, xs: seq<Traffic>, ip: string, rpm: Rate)
    requires MeteredAtMost(c, xs, ip, rpm)
    ensures RatesAtMost(Lifted(c, publicPaths, xs), ip, FillRate(rpm))
    decreases |xs|
  {
    if xs != [] {
      assert xs[0] in xs && forall x :: x in xs[1..] ==> x in xs;
      LiftedRates(c, publicPaths, xs[1..], ip, rpm);
    }
  }

  lemma SoundBefore(c: Limits, publicPaths: seq<string>, before: seq<Traffic>, start: real, now: real)
    requires c.burst >= 1 && Timely(before, start) && LastTime(before, start) <= now
    ensures Sound(After(map[], c.burst, Lifted(c, publicPaths, before)), c.burst, now)
  {
    LiftedOrdered(c, publicPaths, before, start);
    SoundAfter(map[], c.burst, Lifted(c, publicPaths, before), start);
  }

  lemma TenMinutes(rpm: Rate, burst: int)
    requires 10 * rpm >= burst
    ensures 0.0 <= FillRate(rpm) && 600.0 * FillRate(rpm) >= burst as real
  {
  }

  lemma PerMinute(passed: real, burst: real, rpm: Rate, first: real, last: real)
    requires passed <= burst + Credit(first, last, FillRate(rpm))
    ensures passed <= burst + rpm as real / 60.0 * (last - first)
  {
  }

  lemma BoundedFrom(m: Buckets, burst: int, es: seq<Event>, first: real, last: real, ip: string, r: real)
    requires burst >= 1 && Sound(m, burst, first) && Ordered(es, first) && first <= EndTime(es, first) <= last
    requires RatesAtMost(es, ip, r) && 0.0 <= r && 600.0 * r >= burst as real
    ensures Admitted(m, burst, es, ip) as real <= burst as real + Credit(first, last, r)
  {
    AdmittedWithinPotential(m, burst, es, ip, first, r);
    CreditMono(first, EndTime(es, first), r, first, last, r);
  }

  lemma WindowAtRate(c: Limits, publicPaths: seq<string>, before: seq<Traffic>, window: seq<Traffic>, start: real,
                     ip: string, rpm: Rate, first: real, last: real)
    requires c.burst >= 1 && Timely(before, start) && window != [] && Timely(window, LastTime(before, start))
    requires MeteredAtMost(c, window, ip, rpm) && 10 * rpm >= c.burst
    requires first == window[0].time && last == window[|window| - 1].time
    ensures Passed(c, publicPaths, before, window, ip) as real <= c.burst as real + Credit(first, last, FillRate(rpm))
  {
    assert Timely(window, first);
    SoundBefore(c, publicPaths, before, start, first);
    LiftedOrdered(c, publicPaths, window, first);
    LiftedRates(c, publicPaths, window, ip, rpm);
    TenMinutes(rpm, c.burst);
    BoundedFrom(After(map[], c.burst, Lifted(c, publicPaths, before)), c.burst, Lifted(c, publicPaths, window),
                first, last, ip, FillRate(rpm));
  }

  lemma MeteredNormally(c: Limits, window: seq<Traffic>, ip: string)
    requires forall x :: x in window && x.Request? && x.ip == ip ==> !(x.isPut && "/relays/" <= x.path)
    ensures MeteredAtMost(c, window, ip, c.rpm)
  {
  }

  lemma MeteredAsHeartbeats(c: Limits, window: seq<Traffic>, ip: string)
    requires forall x :: x in window && x.Request? && x.ip == ip ==> x.isPut && "/relays/" <= x.path
    ensures MeteredAtMost(c, window, ip, c.heartbeatRpm)
  {
  }

  lemma WindowPerMinute(c: Limits, publicPaths: seq<string>, before: seq<Traffic>, window: seq<Traffic>, start: real,
                        ip: string, rpm: Rate, first: real, last: real, passed: nat)
    requires c.burst >= 1 && Timely(before, start) && window != [] && Timely(window, LastTime(before, start))
    requires MeteredAtMost(c, window, ip, rpm) && 10 * rpm >= c.burst
    requires first == window[0].time && last == window[|window| - 1].time
    requires passed == Passed(c, publicPaths, before, window, ip)
    ensures passed as real <= c.burst as real + rpm as real / 60.0 * (last - first)
  {
    WindowAtRate(c, publicPaths, before, window, start, ip, rpm, first, last);
    PerMinute(passed as real, c.burst as real, rpm, first, last);
  }

  /** An address that sends no PUT below /relays/ in a window is admitted at most the burst plus what
      the normal rate per minute refills in it, whatever others send. */
  lemma NormalBound(c: Limits, publicPaths: seq<string>, before: seq<Traffic>, window: seq<Traffic>, start: real,
                    ip: string, first: real, last: real, rpm: Rate, passed: nat)
    requires c.burst >= 1 && Timely(before, start) && window != [] && Timely(window, LastTime(before, start))
    requires first == window[0].time && last == window[|window| - 1].time
    requires passed == Passed(c, publicPaths, before, window, ip)
    requires forall x :: x in window && x.Request? && x.ip == ip ==> !(x.isPut && "/relays/" <= x.path)
    requires rpm == c.rpm && 10 * rpm >= c.burst
    ensures passed as real <= c.burst as real + rpm as real / 60.0 * (last - first)
  {
    MeteredNormally(c, window, ip);
    WindowPerMinute(c, publicPaths, before, window, start, ip, rpm, first, last, passed);
  }

  /** And one that sends only such PUTs, the heartbeats, at most the burst plus what the heartbeat
      rate refills. */
  lemma HeartbeatBound(c: Limits, publicPaths: seq<string>, before: seq<Traffic>, window: seq<Traffic>, start: real,
                       ip: string, first: real, last: real, rpm: Rate, passed: nat)
    requires c.burst >= 1 && Timely(before, start) && window != [] && Timely(window, LastTime(before, start))
    requires first == window[0].time && last == window[|window| - 1].time
    requires passed == Passed(c, publicPaths, before, window, ip)
    requires forall x :: x in window && x.Request? && x.ip == ip ==> x.isPut && "/relays/" <= x.path
    requires rpm == c.heartbeatRpm && 10 * rpm >= c.burst
    ensures passed as real <= c.burst as real + rpm as real / 60.0 * (last - first)
  {
    MeteredAsHeartbeats(c, window, ip);
    WindowPerMinute(c, publicPaths, before, window, start, ip, rpm, first, last, passed);
  }

  // ----- the bounds are attained -----

  /** n equal requests at one instant, then the given traffic. */
  function Repeated(n: nat, x: Traffic, xs: seq<Traffic>): (r: seq<Traffic>)
    ensures |r| == n + |xs| && (forall i :: 0 <= i < n ==> r[i] == x) && r[n..] == xs
  {
    if n == 0 then xs else [x] + Repeated(n - 1, x, xs)
  }

  lemma {:induction false} RepeatedTimely(n: nat, x: Traffic, xs: seq<Traffic>, start: real)
    requires start <= x.time && Timely(xs, x.time)
    ensures Timely(Repeated(n, x, xs), start)
  {
    if n == 0 {
      TimelyFrom(xs, start, x.time);
    } else {
      RepeatedTimely(n - 1, x, xs, x.time);
      assert Repeated(n, x, xs)[1..] == Repeated(n - 1, x, xs);
    }
  }

  lemma TimelyFrom(xs: seq<Traffic>, a: real, b: real)
    requires Timely(xs, b) && a <= b
    ensures Timely(xs, a)
  {
  }

  lemma {:induction false} RepeatedLifts(c: Limits, publicPaths: seq<string>, n: nat, x: Traffic, xs: seq<Traffic>,
                                         rpm: Rate)
    requires x.Request? && x.ip == "" && Lift(c, publicPaths, x) == [Call(x.time, "", rpm)]
    ensures Lifted(c, publicPaths, Repeated(n, x, xs)) == Volley(n, x.time, rpm) + Lifted(c, publicPaths, xs)
    decreases n
  {
    if n == 0 {
      assert Volley(n, x.time, rpm) == [];
      assert [] + Lifted(c, publicPaths, xs) == Lifted(c, publicPaths, xs);
    } else {
      RepeatedLifts(c, publicPaths, n - 1, x, xs, rpm);
      assert Repeated(n, x, xs)[1..] == Repeated(n - 1, x, xs);
    }
  }

  /** A burst at once and one request as soon as a token is back are all admitted. */
  lemma BurstAndOne(burst: nat, t: real, rpm: Rate)
    requires burst >= 1 && t * FillRate(rpm) == 1.0
    ensures Admitted(map[], burst, Volley(burst, 0.0, rpm) + [Call(t, "", rpm)], "") == burst + 1
  {
    var last := [Call(t, "", rpm)];
    VolleyDrains(map[], burst, burst, 0.0, rpm, last);
    var m: Buckets := map[]["" := Bucket(0.0, 0.0)];
    assert Credit(0.0, t, FillRate(rpm)) == 1.0;
    assert last[1..] == [];
    assert Admitted(Next(m, burst, last[0]), burst, last[1..], "") == 0;
  }

  /** The traffic consists of such requests of one address, and the limiter admits them all: the
      burst plus exactly what this rate refills in their time. */
  predicate Attains(c: Limits, publicPaths: seq<string>, xs: seq<Traffic>, isPut: bool, path: string, rpm: Rate) {
    && Timely(xs, 0.0) && |xs| > 0 && (forall i :: 0 <= i < |xs| ==> xs[i] == Request(xs[i].time, isPut, path, ""))
    && Passed(c, publicPaths, [], xs, "") == |xs| && xs[|xs| - 1].time > xs[0].time
    && |xs| as real == c.burst as real + rpm as real / 60.0 * (xs[|xs| - 1].time - xs[0].time)
  }

  /** When the first token is back. */
  lemma TokenTime(rpm: Rate) returns (t: real)
    ensures t > 0.0 && t * FillRate(rpm) == 1.0 && rpm as real / 60.0 * (t - 0.0) == 1.0
  {
    t := 60.0 / rpm as real;
  }

  lemma LiftsToVolley(c: Limits, publicPaths: seq<string>, x: Traffic, y: Traffic, rpm: Rate)
    requires x.Request? && y == x.(time := y.time) && x.ip == "" && c.burst >= 1
    requires !Exempt(x.path, publicPaths) && rpm == ChosenRate(x.isPut, x.path, c.rpm, c.heartbeatRpm)
    ensures Lifted(c, publicPaths, Repeated(c.burst, x, [y])) == Volley(c.burst, x.time, rpm) + [Call(y.time, "", rpm)]
  {
    RepeatedLifts(c, publicPaths, c.burst, x, [y], rpm);
    assert [y][1..] == [] && Lifted(c, publicPaths, []) == [];
    assert Lifted(c, publicPaths, [y]) == [Call(y.time, "", rpm)] + [];
  }

  lemma RateAttained(c: Limits, publicPaths: seq<string>, isPut: bool, path: string, rpm: Rate)
    returns (xs: seq<Traffic>)
    requires c.burst >= 1 && !Exempt(path, publicPaths) && rpm == ChosenRate(isPut, path, c.rpm, c.heartbeatRpm)
    ensures Attains(c, publicPaths, xs, isPut, path, rpm)
  {
    var t := TokenTime(rpm);
    var x, y := Request(0.0, isPut, path, ""), Request(t, isPut, path, "");
    xs := Repeated(c.burst, x, [y]);
    RepeatedTimely(c.burst, x, [y], 0.0);
    LiftsToVolley(c, publicPaths, x, y, rpm);
    BurstAndOne(c.burst, t, rpm);
    assert xs[c.burst..][0] == y;
    PassedAll(c, publicPaths, xs, Volley(c.burst, 0.0, rpm) + [Call(t, "", rpm)]);
  }

  lemma PassedAll(c: Limits, publicPaths: seq<string>, xs: seq<Traffic>, es: seq<Event>)
    requires Lifted(c, publicPaths, xs) == es
    ensures Passed(c, publicPaths, [], xs, "") == Admitted(map[], c.burst, es, "")
  {
    assert Lifted(c, publicPaths, []) == [];
  }

  /** The normal bound is attained by every request that is neither a PUT below /relays/ nor public:
      where the heartbeat rate is lower, that is more than it would allow. */
  lemma NormalRateAttained(c: Limits, publicPaths: seq<string>, isPut: bool, path: string)
    requires c.burst >= 1 && !(isPut && "/relays/" <= path)
    requires forall p :: p in publicPaths ==> path != p && !(p + "/" <= path)
    ensures exists xs: seq<Traffic> :: Attains(c, publicPaths, xs, isPut, path, c.rpm)
  {
    var xs := RateAttained(c, publicPaths, isPut, path, c.rpm);
  }

  /** And the heartbeat bound by every PUT below /relays/ that is not public. */
  lemma HeartbeatRateAttained(c: Limits, publicPaths: seq<string>, path: string)
    requires c.burst >= 1 && "/relays/" <= path
    requires forall p :: p in publicPaths ==> path != p && !(p + "/" <= path)
    ensures exists xs: seq<Traffic> :: Attains(c, publicPaths, xs, true, path, c.heartbeatRpm)
  {
    var xs := RateAttained(c, publicPaths, true, path, c.heartbeatRpm);
  }

  /** What attains one rate is more than any lower rate allows. */
  lemma AttainedExceeds(c: Limits, publicPaths: seq<string>, xs: seq<Traffic>, isPut: bool, path: string, rpm: Rate,
                        lower: Rate)
    requires Attains(c, publicPaths, xs, isPut, path, rpm) && lower < rpm
    ensures Passed(c, publicPaths, [], xs, "") as real
          > c.burst as real + lower as real / 60.0 * (xs[|xs| - 1].time - xs[0].time)
  {
    var d := xs[|xs| - 1].time - xs[0].time;
    assert lower as real / 60.0 * d < rpm as real / 60.0 * d;
  }

  // ----- the cleanup loop -----

  /** A pass of the cleanup loop forgets exactly the addresses not heard of for more than ten
      minutes, and changes no other bucket. */
  lemma PassForgetsExactly(m: Buckets, burst: int, now: real, ip: string)
    ensures
      var swept := Next(m, burst, Sweep(now));
      && (ip in swept <==> ip in m && now - m[ip].lastRefill <= 600.0)
      && (ip in swept ==> swept[ip] == m[ip])
  {
  }

  // ----- public paths -----

  /** The traffic without the requests to public paths and below them. */
  function WithoutPublic(publicPaths: seq<string>, xs: seq<Traffic>): seq<Traffic> {
    if xs == [] then []
    else
      (if xs[0].Request? && (exists p :: p in publicPaths && (xs[0].path == p || p + "/" <= xs[0].path))
       then [] else [xs[0]]) + WithoutPublic(publicPaths, xs[1..])
  }

  /** Requests to public paths cost nobody a token and are never refused, and every other request is
      metered once: the limiter does on all traffic what it does, one event each, on the rest. */
  lemma {:induction false} PublicRequestsAreFree(c: Limits, publicPaths: seq<string>, xs: seq<Traffic>)
    ensures Lifted(c, publicPaths, xs) == Lifted(c, publicPaths, WithoutPublic(publicPaths, xs))
    ensures |Lifted(c, publicPaths, xs)| == |WithoutPublic(publicPaths, xs)|
    decreases |xs|
  {
    if xs != [] {
      var rest := WithoutPublic(publicPaths, xs[1..]);
      PublicRequestsAreFree(c, publicPaths, xs[1..]);
      if Lift(c, publicPaths, xs[0]) == [] {
        assert WithoutPublic(publicPaths, xs) == rest;
        assert [] + Lifted(c, publicPaths, xs[1..]) == Lifted(c, publicPaths, xs[1..]);
      } else {
        assert WithoutPublic(publicPaths, xs)[1..] == rest;
      }
    }
  }
}
