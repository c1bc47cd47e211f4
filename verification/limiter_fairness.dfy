/** The limiter is as generous as its bucket permits, tells a denied caller exactly when to
    come back, and never lets one address influence another. */
module LimiterFairness {
  import opened TokenBucket

  // ----- greedy optimality -----

  /** Any other policy over the same refills, cap and sweeps: it picks freely which calls to
      admit, as long as a whole token is there to pay for each. */
  predicate Legal(k: Buckets, burst: int, es: seq<Event>, choices: seq<bool>)
    requires |choices| == |es|
    decreases |es|
  {
    es == [] ||
    (match es[0]
     case Sweep(now) => Legal(Swept(k, now), burst, es[1..], choices[1..])
     case Call(now, ip, rpm) =>
       && (choices[0] ==> Available(k, now, ip, rpm, burst) >= 1.0)
       && Legal(Charge(k, now, ip, rpm, burst, choices[0]), burst, es[1..], choices[1..]))
  }

  function Chosen(es: seq<Event>, choices: seq<bool>, ip: string): nat
    requires |choices| == |es|
  {
    if es == [] then 0
    else (if es[0].Call? && es[0].ip == ip && choices[0] then 1 else 0) + Chosen(es[1..], choices[1..], ip)
  }

  /** The rival's bucket leads by at most the d extra calls the limiter has admitted. */
  predicate Leads(k: Buckets, m: Buckets, ip: string, d: nat) {
    && (ip in k <==> ip in m)
    && (ip in k ==> k[ip].lastRefill == m[ip].lastRefill && k[ip].tokens <= m[ip].tokens + d as real)
  }

  lemma LeadAvailable(k: Buckets, m: Buckets, ip: string, d: nat, now: real, rpm: Rate, burst: int)
    requires Leads(k, m, ip, d)
    ensures Available(k, now, ip, rpm, burst) <= Available(m, now, ip, rpm, burst) + d as real
  {
  }

  lemma {:induction false} NoRivalGetsAhead(k: Buckets, m: Buckets, burst: int, es: seq<Event>, choices: seq<bool>,
                                            ip: string, d: nat)
    requires burst >= 1 && |choices| == |es| && Legal(k, burst, es, choices) && Leads(k, m, ip, d)
    ensures Chosen(es, choices, ip) <= Admitted(m, burst, es, ip) + d
    decreases |es|
  {
    if es != [] {
      var e, m' := es[0], Next(m, burst, es[0]);
      match e
      case Sweep(now) =>
        NoRivalGetsAhead(Swept(k, now), m', burst, es[1..], choices[1..], ip, d);
      case Call(now, a, rpm) =>
        var k' := Charge(k, now, a, rpm, burst, choices[0]);
        if a != ip {
          NoRivalGetsAhead(k', m', burst, es[1..], choices[1..], ip, d);
        } else {
          LeadAvailable(k, m, ip, d, now, rpm, burst);
          var admits := Admits(m, now, ip, rpm, burst);
          var d' := d + (if admits then 1 else 0) - (if choices[0] then 1 else 0);
          NoRivalGetsAhead(k', m', burst, es[1..], choices[1..], ip, d');
        }
    }
  }

  lemma {:induction false} LegalPrefix(k: Buckets, burst: int, es: seq<Event>, choices: seq<bool>, n: nat)
    requires |choices| == |es| && n <= |es| && Legal(k, burst, es, choices)
    ensures Legal(k, burst, es[..n], choices[..n])
    decreases n
  {
    if n > 0 {
      assert es[..n][1..] == es[1..][..n - 1] && choices[..n][1..] == choices[1..][..n - 1];
      match es[0]
      case Sweep(now) => LegalPrefix(Swept(k, now), burst, es[1..], choices[1..], n - 1);
      case Call(now, a, rpm) =>
        LegalPrefix(Charge(k, now, a, rpm, burst, choices[0]), burst, es[1..], choices[1..], n - 1);
    }
  }

  /** On every prefix of every run, no legal policy has admitted more of an address's calls. */
  lemma GreedyIsOptimal(burst: int, es: seq<Event>, choices: seq<bool>, n: nat, ip: string)
    requires burst >= 1 && |choices| == |es| && n <= |es| && Legal(map[], burst, es, choices)
    ensures Chosen(es[..n], choices[..n], ip) <= Admitted(map[], burst, es[..n], ip)
  {
    LegalPrefix(map[], burst, es, choices, n);
    NoRivalGetsAhead(map[], map[], burst, es[..n], choices[..n], ip, 0);
  }

  /** The choices the limiter itself makes. */
  function GreedyChoices(m: Buckets, burst: int, es: seq<Event>): (c: seq<bool>)
    ensures |c| == |es|
    decreases |es|
  {
    if es == [] then []
    else
      [es[0].Call? && Admits(m, es[0].time, es[0].ip, es[0].rpm, burst)]
      + GreedyChoices(Next(m, burst, es[0]), burst, es[1..])
  }

  /** The optimum is attained: the limiter's own choices are a legal policy. */
  lemma {:induction false} GreedyIsLegal(m: Buckets, burst: int, es: seq<Event>, ip: string)
    requires burst >= 1
    ensures Legal(m, burst, es, GreedyChoices(m, burst, es))
    ensures Chosen(es, GreedyChoices(m, burst, es), ip) == Admitted(m, burst, es, ip)
    decreases |es|
  {
    if es != [] {
      GreedyIsLegal(Next(m, burst, es[0]), burst, es[1..], ip);
      assert GreedyChoices(m, burst, es)[1..] == GreedyChoices(Next(m, burst, es[0]), burst, es[1..]);
    }
  }

  // ----- Retry-After -----

  /** Since `t`, when it held x tokens, the bucket has only been refilled. */
  predicate Waiting(m: Buckets, ip: string, x: real, t: real, rpm: Rate) {
    ip in m && t <= m[ip].lastRefill && m[ip].tokens == x + Credit(t, m[ip].lastRefill, FillRate(rpm))
  }

  predicate SameRate(es: seq<Event>, ip: string, rpm: Rate) {
    forall e :: e in es && e.Call? && e.ip == ip ==> e.rpm == rpm
  }

  lemma WaitingRefill(m: Buckets, ip: string, x: real, t: real, rpm: Rate, now: real, burst: int)
    requires Waiting(m, ip, x, t, rpm) && m[ip].lastRefill <= now
    ensures Refilled(m[ip], now, rpm, burst) == Min(burst as real, x + Credit(t, now, FillRate(rpm)))
  {
    CreditSplits(t, m[ip].lastRefill, now, FillRate(rpm));
  }

  lemma ShorterWait(k: real, w: real, r: real)
    requires k < w && 0.0 < r
    ensures Credit(0.0, k, r) < w * r
  {
    assert (w - k) * r > 0.0;
  }

  /** The wait covers the missing fraction of a token, and one second less does not. */
  lemma WaitCovers(x: real, rpm: Rate, n: int)
    requires 0.0 <= x < 1.0 && n == Ceil((1.0 - x) / FillRate(rpm))
    ensures 1 <= n <= 60
    ensures Credit(0.0, n as real, FillRate(rpm)) >= 1.0 - x > Credit(0.0, (n - 1) as real, FillRate(rpm))
  {
    var r := FillRate(rpm);
    var w := (1.0 - x) / r;
    assert w * r == 1.0 - x;
    CeilBounds(w);
    CreditMono(0.0, w, r, 0.0, n as real, r) by {
      assert w >= 0.0;
    }
    ShorterWait((n - 1) as real, w, r);
    if w > 60.0 {
      ShorterWait(60.0, w, r);
      assert false;
    }
  }

  lemma {:induction false} DeniedWhileShort(m: Buckets, burst: int, es: seq<Event>, ip: string, x: real, t: real,
                                            rpm: Rate, start: real, u: real)
    requires burst >= 1 && Waiting(m, ip, x, t, rpm) && m[ip].lastRefill <= start
    requires Ordered(es, start) && EndTime(es, start) <= u && SameRate(es, ip, rpm)
    requires u - t <= 600.0 && x + Credit(t, u, FillRate(rpm)) < 1.0
    ensures Admitted(m, burst, es, ip) == 0
    ensures !Admits(After(m, burst, es), u, ip, rpm, burst)
    decreases |es|
  {
    if es == [] {
      WaitingRefill(m, ip, x, t, rpm, u, burst);
    } else {
      var e := es[0];
      EndAfterStart(es, start);
      if e.Call? && e.ip == ip {
        WaitingRefill(m, ip, x, t, rpm, e.time, burst);
        CreditMono(t, e.time, FillRate(rpm), t, u, FillRate(rpm));
      }
      DeniedWhileShort(Next(m, burst, e), burst, es[1..], ip, x, t, rpm, e.time, u);
    }
  }

  lemma {:induction false} EndAfterStart(es: seq<Event>, start: real)
    requires Ordered(es, start) && es != []
    ensures start <= es[0].time <= EndTime(es, start) == EndTime(es[1..], es[0].time)
  {
    if |es| > 1 {
      EndAfterStart(es[1..], es[0].time);
    }
  }

  lemma {:induction false} AllowedOnceCovered(m: Buckets, burst: int, es: seq<Event>, ip: string, x: real, t: real,
                                              rpm: Rate, start: real, u: real)
    requires burst >= 1 && (ip !in m || (Waiting(m, ip, x, t, rpm) && m[ip].lastRefill <= start))
    requires Ordered(es, start) && EndTime(es, start) <= u && SameRate(es, ip, rpm)
    requires x + Credit(t, u, FillRate(rpm)) >= 1.0 && Admitted(m, burst, es, ip) == 0
    ensures Admits(After(m, burst, es), u, ip, rpm, burst)
    decreases |es|
  {
    if es == [] {
      if ip in m {
        WaitingRefill(m, ip, x, t, rpm, u, burst);
      }
    } else {
      var e := es[0];
      EndAfterStart(es, start);
      if e.Call? && e.ip == ip {
        WaitingRefill(m, ip, x, t, rpm, e.time, burst);
      }
      AllowedOnceCovered(Next(m, burst, e), burst, es[1..], ip, x, t, rpm, e.time, u);
    }
  }

  /** A call denied at t with answer n, followed by any run `es` up to u in which the address
      keeps to its rate: up to t + n - 1 everything it asks for is denied, and from t + n on
      its next call is admitted unless one was already. */
  lemma RetryAfterExact(m: Buckets, burst: int, ip: string, rpm: Rate, t: real, es: seq<Event>, u: real)
    requires burst >= 1 && Sound(m, burst, t) && !Admits(m, t, ip, rpm, burst)
    requires Ordered(es, t) && EndTime(es, t) <= u && SameRate(es, ip, rpm)
    ensures
      var n := AnswerTo(m, t, ip, rpm, burst).retryAfter;
      var m1 := Next(m, burst, Call(t, ip, rpm));
      && n >= 1
      && (u <= t + (n - 1) as real ==>
            Admitted(m1, burst, es, ip) == 0 && !Admits(After(m1, burst, es), u, ip, rpm, burst))
      && (u >= t + n as real && Admitted(m1, burst, es, ip) == 0 ==>
            Admits(After(m1, burst, es), u, ip, rpm, burst))
  {
    var r := FillRate(rpm);
    var x := Refilled(m[ip], t, rpm, burst);
    RefilledRange(m[ip], t, rpm, burst);
    var n := Ceil((1.0 - x) / r);
    WaitCovers(x, rpm, n);
    var m1 := Next(m, burst, Call(t, ip, rpm));
    assert Waiting(m1, ip, x, t, rpm) by {
      assert Credit(t, t, r) == 0.0;
    }
    assert t <= EndTime(es, t) by {
      if es != [] { EndAfterStart(es, t); }
    }
    if u <= t + (n - 1) as real {
      CreditMono(t, u, r, 0.0, (n - 1) as real, r);
      DeniedWhileShort(m1, burst, es, ip, x, t, rpm, t, u);
    }
    if u >= t + n as real && Admitted(m1, burst, es, ip) == 0 {
      CreditMono(0.0, n as real, r, t, u, r);
      AllowedOnceCovered(m1, burst, es, ip, x, t, rpm, t, u);
    }
  }

  // ----- one address at a time -----

  /** The events one address can notice: its own calls and the sweeps. */
  function Project(es: seq<Event>, ip: string): seq<Event> {
    if es == [] then []
    else (if es[0].Sweep? || es[0].ip == ip then [es[0]] else []) + Project(es[1..], ip)
  }

  lemma {:induction false} AddressesAreIndependent(m: Buckets, p: Buckets, burst: int, es: seq<Event>, ip: string)
    requires (ip in m <==> ip in p) && (ip in m ==> m[ip] == p[ip])
    ensures AnswersFor(m, burst, es, ip) == AnswersFor(p, burst, Project(es, ip), ip)
    decreases |es|
  {
    if es != [] {
      var rest := Project(es[1..], ip);
      if es[0].Sweep? || es[0].ip == ip {
        assert Project(es, ip)[1..] == rest;
        AddressesAreIndependent(Next(m, burst, es[0]), Next(p, burst, es[0]), burst, es[1..], ip);
      } else {
        assert Project(es, ip) == rest;
        AddressesAreIndependent(Next(m, burst, es[0]), p, burst, es[1..], ip);
      }
    }
  }
}
