/** The arithmetic of one token bucket and of a whole limiter, as functions of the state.
    Times are seconds and tokens are reals: floating-point rounding is not modelled. */
module TokenBucket {

  /** Buckets idle for longer than this many seconds are swept. */
  const IDLE_SECONDS := 600.0

  datatype Bucket = Bucket(tokens: real, lastRefill: real)

  type Buckets = map<string, Bucket>

  datatype Answer = Answer(allowed: bool, retryAfter: int)

  /** Requests per minute; the configuration is rejected unless this is positive. */
  type Rate = r: int | r > 0 witness 1

  /** What happens to a limiter: one request, or one pass of the cleanup loop. */
  datatype Event =
    | Call(time: real, ip: string, rpm: Rate)
    | Sweep(time: real)

  function FillRate(rpm: int): real {
    rpm as real / 60.0
  }

  function Min(a: real, b: real): real {
    if a <= b then a else b
  }

  function Ceil(x: real): int {
    -((-x).Floor)
  }

  /** What rate r refills from a to b. */
  function Credit(a: real, b: real, r: real): real {
    (b - a) * r
  }

  /** The tokens of a bucket once the time since its last refill is credited. */
  function Refilled(b: Bucket, now: real, rpm: Rate, burst: int): real {
    Min(burst as real, b.tokens + Credit(b.lastRefill, now, FillRate(rpm)))
  }

  /** The tokens a call finds; an unknown address finds a full bucket. */
  function Available(m: Buckets, now: real, ip: string, rpm: Rate, burst: int): real {
    if ip in m then Refilled(m[ip], now, rpm, burst) else burst as real
  }

  predicate Admits(m: Buckets, now: real, ip: string, rpm: Rate, burst: int) {
    ip !in m || Refilled(m[ip], now, rpm, burst) >= 1.0
  }

  /** The bucket left behind when a call is admitted or turned away. */
  function Charge(m: Buckets, now: real, ip: string, rpm: Rate, burst: int, admit: bool): Buckets {
    m[ip := Bucket(Available(m, now, ip, rpm, burst) - (if admit then 1.0 else 0.0), now)]
  }

  function AnswerTo(m: Buckets, now: real, ip: string, rpm: Rate, burst: int): Answer {
    if Admits(m, now, ip, rpm, burst) then Answer(true, 0)
    else
      var wait := Ceil((1.0 - Refilled(m[ip], now, rpm, burst)) / FillRate(rpm));
      Answer(false, if wait <= 0 then 1 else wait)
  }

  predicate Stale(b: Bucket, now: real) {
    b.lastRefill < now - IDLE_SECONDS
  }

  function Swept(m: Buckets, now: real): Buckets {
    map ip | ip in m && !Stale(m[ip], now) :: m[ip]
  }

  function Next(m: Buckets, burst: int, e: Event): Buckets {
    match e
    case Call(now, ip, rpm) => Charge(m, now, ip, rpm, burst, Admits(m, now, ip, rpm, burst))
    case Sweep(now) => Swept(m, now)
  }

  /** A limiter that never sweeps. */
  function NextKeeping(m: Buckets, burst: int, e: Event): Buckets {
    if e.Sweep? then m else Next(m, burst, e)
  }

  // ----- runs -----

  /** Times never decrease, from `start` on. */
  predicate Ordered(es: seq<Event>, start: real) {
    es == [] ||
    (start <= es[0].time && Ordered(es[1..], es[0].time))
  }

  function After(m: Buckets, burst: int, es: seq<Event>): Buckets
    decreases |es|
  {
    if es == [] then m else After(Next(m, burst, es[0]), burst, es[1..])
  }

  function EndTime(es: seq<Event>, start: real): real {
    if es == [] then start else es[|es| - 1].time
  }

  /** The answers one address receives during a run. */
  function AnswersFor(m: Buckets, burst: int, es: seq<Event>, ip: string): seq<Answer>
    decreases |es|
  {
    if es == [] then []
    else
      (if es[0].Call? && es[0].ip == ip
       then [AnswerTo(m, es[0].time, ip, es[0].rpm, burst)] else [])
      + AnswersFor(Next(m, burst, es[0]), burst, es[1..], ip)
  }

  function AnswersForKeeping(m: Buckets, burst: int, es: seq<Event>, ip: string): seq<Answer>
    decreases |es|
  {
    if es == [] then []
    else
      (if es[0].Call? && es[0].ip == ip
       then [AnswerTo(m, es[0].time, ip, es[0].rpm, burst)] else [])
      + AnswersForKeeping(NextKeeping(m, burst, es[0]), burst, es[1..], ip)
  }

  /** How many calls of one address are admitted during a run. */
  function Admitted(m: Buckets, burst: int, es: seq<Event>, ip: string): nat
    decreases |es|
  {
    if es == [] then 0
    else
      (if es[0].Call? && es[0].ip == ip && Admits(m, es[0].time, ip, es[0].rpm, burst) then 1 else 0)
      + Admitted(Next(m, burst, es[0]), burst, es[1..], ip)
  }

  /** Every bucket holds between zero and `burst` tokens and was refilled no later than `now`. */
  predicate Sound(m: Buckets, burst: int, now: real) {
    forall ip :: ip in m ==> 0.0 <= m[ip].tokens <= burst as real && m[ip].lastRefill <= now
  }

  // ----- arithmetic -----

  lemma CreditMono(a: real, b: real, r: real, a': real, b': real, r': real)
    requires 0.0 <= b - a <= b' - a' && 0.0 <= r <= r'
    ensures 0.0 <= Credit(a, b, r) <= Credit(a', b', r')
  {
    var d, d' := b - a, b' - a';
    assert 0.0 <= d * r <= d' * r;
    assert d' * r <= d' * r';
  }

  lemma CreditSplits(a: real, b: real, c: real, r: real)
    ensures Credit(a, c, r) == Credit(a, b, r) + Credit(b, c, r)
  {
  }

  /** Polling in the middle of an interval does not change what is refilled over it. */
  lemma RefillSplits(b: Bucket, t: real, u: real, rpm: Rate, burst: int)
    requires b.lastRefill <= t <= u
    ensures Refilled(Bucket(Refilled(b, t, rpm, burst), t), u, rpm, burst) == Refilled(b, u, rpm, burst)
  {
    CreditSplits(b.lastRefill, t, u, FillRate(rpm));
    CreditMono(t, t, 0.0, t, u, FillRate(rpm));
  }

  lemma CeilBounds(x: real)
    ensures x <= Ceil(x) as real < x + 1.0
  {
  }

  lemma RefilledRange(b: Bucket, now: real, rpm: Rate, burst: int)
    requires 0.0 <= b.tokens && b.lastRefill <= now && burst >= 0
    ensures 0.0 <= Refilled(b, now, rpm, burst) <= burst as real
    ensures b.tokens <= burst as real ==> b.tokens <= Refilled(b, now, rpm, burst)
  {
    CreditMono(now, now, 0.0, b.lastRefill, now, FillRate(rpm));
  }

  lemma SoundNext(m: Buckets, burst: int, e: Event, now: real)
    requires burst >= 1 && Sound(m, burst, now) && now <= e.time
    ensures Sound(Next(m, burst, e), burst, e.time)
  {
    if e.Call? && e.ip in m {
      RefilledRange(m[e.ip], e.time, e.rpm, burst);
    }
  }

  lemma {:induction false} SoundAfter(m: Buckets, burst: int, es: seq<Event>, start: real)
    requires burst >= 1 && Sound(m, burst, start) && Ordered(es, start)
    ensures Sound(After(m, burst, es), burst, EndTime(es, start))
    ensures start <= EndTime(es, start)
    decreases |es|
  {
    if es != [] {
      SoundNext(m, burst, es[0], start);
      SoundAfter(Next(m, burst, es[0]), burst, es[1..], es[0].time);
    }
  }

  lemma {:induction false} OrderedSplit(es: seq<Event>, start: real, i: nat)
    requires Ordered(es, start) && i <= |es|
    ensures Ordered(es[..i], start) && Ordered(es[i..], EndTime(es[..i], start))
  {
    if i > 0 {
      OrderedSplit(es[1..], es[0].time, i - 1);
      assert es[..i][1..] == es[1..][..i - 1] && es[1..][i - 1..] == es[i..];
    }
  }
}
