/** The token bucket of pacer.go. Times are seconds, tokens are packets. */
module Pacing {
  import opened Base

  datatype Bucket = Bucket(tokens: real, maxTokens: int, rate: real, lastRefill: real)

  function Cap(tokens: real, maxTokens: int): real {
    if tokens > maxTokens as real then maxTokens as real else tokens
  }

  /** Tokens that `elapsed` seconds are worth. */
  function Earned(elapsed: real, rate: real): real {
    elapsed * rate
  }

  function Refill(b: Bucket, now: real): Bucket {
    b.(tokens := Cap(b.tokens + Earned(now - b.lastRefill, b.rate), b.maxTokens), lastRefill := now)
  }

  /** tryConsume: the new bucket and whether a token was granted. */
  function Consume(b: Bucket, now: real): (Bucket, bool) {
    var r := Refill(b, now);
    if r.tokens >= 1.0 then (r.(tokens := r.tokens - 1.0), true) else (r, false)
  }

  function WithBurst(b: Bucket, burst: int): Bucket {
    b.(maxTokens := burst, tokens := Cap(b.tokens, burst))
  }

  class Pacer {
    var tokens: real
    var maxTokens: int
    var refillRate: real
    var lastRefill: real

    function View(): Bucket
      reads this
    {
      Bucket(tokens, maxTokens, refillRate, lastRefill)
    }

    constructor (rate: int, burst: int, now: real)
      ensures View() == Bucket(burst as real, burst, rate as real, now)
    {
      tokens, maxTokens, refillRate, lastRefill := burst as real, burst, rate as real, now;
    }

    method TryConsume(now: real) returns (granted: bool)
      modifies this
      ensures (View(), granted) == Consume(old(View()), now)
      ensures granted <==>
                old(maxTokens) >= 1 && old(tokens) + (now - old(lastRefill)) * old(refillRate) >= 1.0
      ensures maxTokens == old(maxTokens) && refillRate == old(refillRate) && lastRefill == now
    {
      tokens := tokens + Earned(now - lastRefill, refillRate);
      if tokens > maxTokens as real {
        tokens := maxTokens as real;
      }
      lastRefill := now;
      granted := tokens >= 1.0;
      if granted {
        tokens := tokens - 1.0;
      }
    }

    method SetRate(rate: int)
      modifies this
      ensures View() == old(View()).(rate := rate as real)
    {
      refillRate := rate as real;
    }

    method SetBurst(burst: int)
      modifies this
      ensures View() == WithBurst(old(View()), burst)
    {
      maxTokens := burst;
      if tokens > burst as real {
        tokens := burst as real;
      }
    }
  }

  // ---- runs --------------------------------------------------------------

  datatype Event = TryAt(now: real) | Rate(rate: int) | Burst(burst: int)

  function Step(b: Bucket, e: Event): (Bucket, nat) {
    match e
    case TryAt(now) => var (c, ok) := Consume(b, now); (c, if ok then 1 else 0)
    case Rate(rate) => (b.(rate := rate as real), 0)
    case Burst(burst) => (WithBurst(b, burst), 0)
  }

  function Apply(b: Bucket, es: seq<Event>): Bucket
    decreases es
  {
    if es == [] then b else Apply(Step(b, es[0]).0, es[1..])
  }

  /** Tokens granted during `es`. */
  function Grants(b: Bucket, es: seq<Event>): nat
    decreases es
  {
    if es == [] then 0 else Step(b, es[0]).1 + Grants(Step(b, es[0]).0, es[1..])
  }

  /** Settings stay at or below the limits, and the clock never runs backwards nor past `until`. */
  ghost predicate Legal(now: real, until: real, es: seq<Event>, maxRate: nat, maxBurst: nat)
    decreases es
  {
    es == [] ||
    (match es[0]
     case TryAt(t) => now <= t <= until && Legal(t, until, es[1..], maxRate, maxBurst)
     case Rate(r) => 0 <= r <= maxRate && Legal(now, until, es[1..], maxRate, maxBurst)
     case Burst(m) => 0 <= m <= maxBurst && Legal(now, until, es[1..], maxRate, maxBurst))
  }

  ghost predicate Valid(b: Bucket, maxRate: nat, maxBurst: nat) {
    && 0.0 <= b.tokens <= b.maxTokens as real
    && 0 <= b.maxTokens <= maxBurst
    && 0.0 <= b.rate <= maxRate as real
  }

  lemma EarnedMonotone(d: real, r: real, max: real)
    requires 0.0 <= d && 0.0 <= r <= max
    ensures 0.0 <= Earned(d, r) <= Earned(d, max)
  {
  }

  lemma EarnedSplits(from: real, mid: real, until: real, rate: real)
    requires from <= mid <= until && 0.0 <= rate
    ensures Earned(until - from, rate) == Earned(mid - from, rate) + Earned(until - mid, rate)
    ensures 0.0 <= Earned(mid - from, rate) && 0.0 <= Earned(until - mid, rate)
  {
    EarnedMonotone(mid - from, rate, rate);
    EarnedMonotone(until - mid, rate, rate);
  }

  lemma SettingKeepsValid(b: Bucket, e: Event, maxRate: nat, maxBurst: nat)
    requires Valid(b, maxRate, maxBurst)
    requires match e case TryAt(_) => false case Rate(r) => 0 <= r <= maxRate case Burst(m) => 0 <= m <= maxBurst
    ensures var (c, granted) := Step(b, e);
            && Valid(c, maxRate, maxBurst) && granted == 0
            && c.tokens <= b.tokens && c.lastRefill == b.lastRefill
  {
  }

  /** A try keeps the bucket valid; what it grants and leaves is paid for, and fits the burst. */
  lemma TryKeepsValid(b: Bucket, now: real, maxRate: nat, maxBurst: nat)
    requires Valid(b, maxRate, maxBurst) && b.lastRefill <= now
    ensures var (c, granted) := Step(b, TryAt(now));
            && Valid(c, maxRate, maxBurst) && c.lastRefill == now
            && granted as real + c.tokens <= maxBurst as real
            && granted as real + c.tokens <= b.tokens + Earned(now - b.lastRefill, maxRate as real)
  {
    EarnedMonotone(now - b.lastRefill, b.rate, maxRate as real);
  }

  /** Counted from the last refill, grants are paid for by tokens held and time passed. */
  lemma {:induction false} GrantsPaidFor(b: Bucket, es: seq<Event>, until: real, maxRate: nat, maxBurst: nat)
    requires Valid(b, maxRate, maxBurst) && b.lastRefill <= until
    requires Legal(b.lastRefill, until, es, maxRate, maxBurst)
    ensures Grants(b, es) as real <= b.tokens + Earned(until - b.lastRefill, maxRate as real)
    ensures Valid(Apply(b, es), maxRate, maxBurst)
    ensures Apply(b, es).lastRefill <= until
    decreases es
  {
    if es == [] {
      EarnedMonotone(until - b.lastRefill, 0.0, maxRate as real);
    } else {
      if es[0].TryAt? {
        TryKeepsValid(b, es[0].now, maxRate, maxBurst);
        EarnedSplits(b.lastRefill, es[0].now, until, maxRate as real);
      } else {
        SettingKeepsValid(b, es[0], maxRate, maxBurst);
      }
      GrantsPaidFor(Step(b, es[0]).0, es[1..], until, maxRate, maxBurst);
    }
  }

  /**
   Whatever happened before, at most maxBurst + maxRate * (until - from) tokens
   are granted between `from` and `until`, even though the first refill in the
   window also pays for idle time before it.
   */
  lemma {:induction false} WindowGrantsBounded(
    b: Bucket, es: seq<Event>, from: real, until: real, maxRate: nat, maxBurst: nat)
    requires Valid(b, maxRate, maxBurst) && b.lastRefill <= from <= until
    requires Legal(from, until, es, maxRate, maxBurst)
    ensures Grants(b, es) as real <= maxBurst as real + Earned(until - from, maxRate as real)
    decreases es
  {
    if es == [] {
      EarnedMonotone(until - from, 0.0, maxRate as real);
    } else if es[0].TryAt? {
      TryKeepsValid(b, es[0].now, maxRate, maxBurst);
      GrantsPaidFor(Step(b, es[0]).0, es[1..], until, maxRate, maxBurst);
      EarnedSplits(from, es[0].now, until, maxRate as real);
    } else {
      SettingKeepsValid(b, es[0], maxRate, maxBurst);
      WindowGrantsBounded(Step(b, es[0]).0, es[1..], from, until, maxRate, maxBurst);
    }
  }

  // ---- tokens are granted, and in time ------------------------------------

  /**
   A try is granted exactly if a whole token is there after the refill, which
   the burst caps; it then takes that token, and otherwise takes nothing.
   */
  lemma TryGrantedIff(b: Bucket, now: real)
    ensures var (c, granted) := Consume(b, now);
            var earned := b.tokens + (now - b.lastRefill) * b.rate;
            && (granted <==> b.maxTokens >= 1 && earned >= 1.0)
            && c.tokens + (if granted then 1.0 else 0.0)
               == (if earned > b.maxTokens as real then b.maxTokens as real else earned)
            && c.maxTokens == b.maxTokens && c.rate == b.rate && c.lastRefill == now
  {
    assert Earned(now - b.lastRefill, b.rate) == (now - b.lastRefill) * b.rate;
  }

  /** Rates stay at or above `minRate`, bursts at or above one, and the clock never runs backwards nor past `until`. */
  ghost predicate Lively(now: real, until: real, es: seq<Event>, minRate: real)
    decreases es
  {
    if es == [] then now <= until
    else match es[0]
         case TryAt(t) => now <= t && Lively(t, until, es[1..], minRate)
         case Rate(r) => r as real >= minRate && Lively(now, until, es[1..], minRate)
         case Burst(m) => m >= 1 && Lively(now, until, es[1..], minRate)
  }

  /** There is a whole token, or all that was earned since `from` at the least rate. */
  ghost predicate Saved(b: Bucket, from: real, minRate: real) {
    && 1 <= b.maxTokens && 0.0 < minRate <= b.rate && from <= b.lastRefill
    && (b.tokens >= 1.0 || b.tokens >= (b.lastRefill - from) * minRate)
  }

  lemma AtLeast(d: real, min: real, rate: real)
    requires 0.0 <= d && 0.0 <= min <= rate
    ensures 0.0 <= d * min <= d * rate
  {
  }

  lemma Adds(from: real, mid: real, until: real, rate: real)
    ensures (mid - from) * rate + (until - mid) * rate == (until - from) * rate
  {
  }

  /** A try that fails keeps what was earned. */
  lemma FailedTrySaves(b: Bucket, now: real, from: real, minRate: real)
    requires Saved(b, from, minRate) && b.lastRefill <= now && !Consume(b, now).1
    ensures Saved(Consume(b, now).0, from, minRate)
  {
    TryGrantedIff(b, now);
    SavedEarns(b, now, from, minRate);
  }

  lemma SavedEarns(b: Bucket, now: real, from: real, minRate: real)
    requires Saved(b, from, minRate) && b.lastRefill <= now
    ensures var earned := b.tokens + (now - b.lastRefill) * b.rate;
            earned >= 1.0 || earned >= (now - from) * minRate
  {
    var d := now - b.lastRefill;
    AtLeast(d, minRate, b.rate);
    Adds(from, b.lastRefill, now, minRate);
    SumUp(b.tokens, (b.lastRefill - from) * minRate, d * b.rate, d * minRate, (now - from) * minRate);
  }

  lemma SumUp(tokens: real, before: real, earned: real, least: real, total: real)
    requires earned >= least >= 0.0 && before + least == total && (tokens >= 1.0 || tokens >= before)
    ensures tokens + earned >= 1.0 || tokens + earned >= total
  {
  }

  lemma SettingSaves(b: Bucket, e: Event, from: real, minRate: real)
    requires Saved(b, from, minRate)
    requires match e case TryAt(_) => false case Rate(r) => r as real >= minRate case Burst(m) => m >= 1
    ensures Saved(Step(b, e).0, from, minRate) && Step(b, e).1 == 0 && Step(b, e).0.lastRefill == b.lastRefill
  {
  }

  lemma LastTryGranted(b: Bucket, from: real, until: real, minRate: real)
    requires Saved(b, from, minRate) && b.lastRefill <= until && (until - from) * minRate >= 1.0
    ensures Consume(b, until).1
  {
    TryGrantedIff(b, until);
    SavedEarns(b, until, from, minRate);
  }

  /**
   Tokens come in time. However often it is tried in between and whatever is
   set: if no try was granted since `from`, a try is granted once a token's
   time at the least rate has passed.
   */
  lemma {:induction false} TokenComesInTime(b: Bucket, es: seq<Event>, from: real, until: real, minRate: real)
    requires Saved(b, from, minRate) && Lively(b.lastRefill, until, es, minRate)
    requires Grants(b, es) == 0 && (until - from) * minRate >= 1.0
    ensures Consume(Apply(b, es), until).1
    decreases es
  {
    if es == [] {
      LastTryGranted(b, from, until, minRate);
    } else {
      if es[0].TryAt? {
        FailedTrySaves(b, es[0].now, from, minRate);
      } else {
        SettingSaves(b, es[0], from, minRate);
      }
      TokenComesInTime(Step(b, es[0]).0, es[1..], from, until, minRate);
    }
  }

  // ---- the limits updatePacing imposes -----------------------------------

  const MAX_RATE: int := 50_000
  const MAX_BURST: int := 128

  /** The rate and burst handed to the pacer by one updatePacing call. */
  function PacingEvents(rawRate: int, rawBurst: int): seq<Event> {
    [Rate(Clamp(1000, MAX_RATE, rawRate)), Burst(Clamp(8, MAX_BURST, rawBurst))]
  }

  lemma PacingApplied(b: Bucket, rawRate: int, rawBurst: int)
    ensures Apply(b, PacingEvents(rawRate, rawBurst)) ==
              WithBurst(b.(rate := Clamp(1000, MAX_RATE, rawRate) as real), Clamp(8, MAX_BURST, rawBurst))
  {
    var es := PacingEvents(rawRate, rawBurst);
    assert es[1..] == [es[1]] && es[1..][1..] == [];
    var b1 := Step(b, es[0]).0;
    var b2 := Step(b1, es[1..][0]).0;
    assert Apply(b1, es[1..]) == Apply(b2, es[1..][1..]) == b2;
  }

  datatype EngineEvent = Wait(now: real) | Repaced(rawRate: int, rawBurst: int)

  function Lower(es: seq<EngineEvent>): seq<Event> {
    if es == [] then []
    else (match es[0]
          case Wait(now) => [TryAt(now)]
          case Repaced(rate, burst) => PacingEvents(rate, burst)) + Lower(es[1..])
  }

  ghost predicate Ordered(now: real, until: real, es: seq<EngineEvent>)
    decreases es
  {
    es == [] ||
    (match es[0]
     case Wait(t) => now <= t <= until && Ordered(t, until, es[1..])
     case Repaced(_, _) => Ordered(now, until, es[1..]))
  }

  lemma {:induction false} LoweredIsLegal(now: real, until: real, es: seq<EngineEvent>)
    requires Ordered(now, until, es)
    ensures Legal(now, until, Lower(es), MAX_RATE, MAX_BURST)
    decreases es
  {
    if es != [] {
      match es[0]
      case Wait(t) =>
        LoweredIsLegal(t, until, es[1..]);
        assert Lower(es)[1..] == Lower(es[1..]);
      case Repaced(rate, burst) =>
        LoweredIsLegal(now, until, es[1..]);
        assert Lower(es)[1..][1..] == Lower(es[1..]);
        assert Lower(es)[1..][0] == PacingEvents(rate, burst)[1];
    }
  }

  /**
   The engine's pacer, created with rate 10000 and burst 64, grants at most
   128 + 50000 * d in any window of length d.
   */
  lemma EngineWindowBounded(start: real, past: seq<EngineEvent>, from: real, window: seq<EngineEvent>, until: real)
    requires start <= from <= until
    requires Ordered(start, from, past) && Ordered(from, until, window)
    ensures var b := Apply(Bucket(64.0, 64, 10_000.0, start), Lower(past));
            Grants(b, Lower(window)) as real <= 128.0 + (until - from) * 50_000.0
  {
    var b0 := Bucket(64.0, 64, 10_000.0, start);
    LoweredIsLegal(start, from, past);
    GrantsPaidFor(b0, Lower(past), from, MAX_RATE, MAX_BURST);
    LoweredIsLegal(from, until, window);
    WindowGrantsBounded(Apply(b0, Lower(past)), Lower(window), from, until, MAX_RATE, MAX_BURST);
  }

  lemma {:induction false} LoweredIsLively(now: real, until: real, es: seq<EngineEvent>)
    requires Ordered(now, until, es) && now <= until
    ensures Lively(now, until, Lower(es), 1000.0)
    decreases es
  {
    if es != [] {
      match es[0]
      case Wait(t) =>
        LoweredIsLively(t, until, es[1..]);
        assert Lower(es)[1..] == Lower(es[1..]);
      case Repaced(rate, burst) =>
        LoweredIsLively(now, until, es[1..]);
        assert Lower(es)[1..][1..] == Lower(es[1..]);
        assert Lower(es)[1..][0] == PacingEvents(rate, burst)[1];
    }
  }

  /** Settings of the engine's pacer never fall below 1000 per second and a burst of 8. */
  ghost predicate Running(b: Bucket) {
    0.0 <= b.tokens && 8 <= b.maxTokens && 1000.0 <= b.rate
  }

  lemma TryKeepsRunning(b: Bucket, now: real)
    requires Running(b) && b.lastRefill <= now
    ensures Running(Consume(b, now).0) && Consume(b, now).0.lastRefill == now
  {
    AtLeast(now - b.lastRefill, b.rate, b.rate);
    TryGrantedIff(b, now);
    LeftOver(b.tokens, (now - b.lastRefill) * b.rate, b.maxTokens as real, Consume(b, now).0.tokens, Consume(b, now).1);
  }

  lemma LeftOver(tokens: real, earned: real, max: real, left: real, granted: bool)
    requires tokens >= 0.0 && earned >= 0.0 && max >= 1.0 && (granted ==> tokens + earned >= 1.0)
    requires left + (if granted then 1.0 else 0.0) == if tokens + earned > max then max else tokens + earned
    ensures left >= 0.0
  {
  }

  lemma {:induction false} EngineKeepsRunning(b: Bucket, es: seq<EngineEvent>, until: real)
    requires Running(b) && Ordered(b.lastRefill, until, es) && b.lastRefill <= until
    ensures Running(Apply(b, Lower(es))) && Apply(b, Lower(es)).lastRefill <= until
    decreases es
  {
    if es != [] {
      match es[0]
      case Wait(t) =>
        TryKeepsRunning(b, t);
        EngineKeepsRunning(Consume(b, t).0, es[1..], until);
        assert Lower(es)[1..] == Lower(es[1..]);
      case Repaced(rate, burst) =>
        var c := Apply(b, PacingEvents(rate, burst));
        PacingApplied(b, rate, burst);
        EngineKeepsRunning(c, es[1..], until);
        ApplyAppend(b, PacingEvents(rate, burst), Lower(es[1..]));
    }
  }

  lemma {:induction false} ApplyAppend(b: Bucket, es: seq<Event>, more: seq<Event>)
    ensures Apply(b, es + more) == Apply(Apply(b, es), more)
    decreases es
  {
    if es == [] {
      assert es + more == more;
    } else {
      assert (es + more)[1..] == es[1..] + more;
      ApplyAppend(Step(b, es[0]).0, es[1..], more);
    }
  }

  /**
   No writer waits long for a token: after any history of the engine's pacer,
   if no waiting Send was granted a token for a millisecond, the next try is.
   */
  lemma EngineTokenWithinMillisecond(
    start: real, past: seq<EngineEvent>, from: real, window: seq<EngineEvent>, until: real)
    requires start <= from && Ordered(start, from, past)
    requires var b := Apply(Bucket(64.0, 64, 10_000.0, start), Lower(past));
             Ordered(b.lastRefill, until, window) && Grants(b, Lower(window)) == 0
             && until >= b.lastRefill + 0.001
    ensures Consume(Apply(Bucket(64.0, 64, 10_000.0, start), Lower(past + window)), until).1
  {
    var b0 := Bucket(64.0, 64, 10_000.0, start);
    var b := Apply(b0, Lower(past));
    EngineKeepsRunning(b0, past, from);
    LoweredIsLively(b.lastRefill, until, window);
    assert (until - b.lastRefill) * 1000.0 >= 1.0;
    TokenComesInTime(b, Lower(window), b.lastRefill, until, 1000.0);
    LowerAppend(past, window);
    ApplyAppend(b0, Lower(past), Lower(window));
  }

  lemma {:induction false} LowerAppend(es: seq<EngineEvent>, more: seq<EngineEvent>)
    ensures Lower(es + more) == Lower(es) + Lower(more)
  {
    if es == [] {
      assert es + more == more;
    } else {
      assert (es + more)[1..] == es[1..] + more;
      LowerAppend(es[1..], more);
    }
  }
}
