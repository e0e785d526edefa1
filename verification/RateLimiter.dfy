/** token_bucket.c: a rate limiter in 32-bit thousandths of tokens. */
module RateLimiter {
  import opened Bytes

  const TICK_RATE_HZ: nat := 1000
  const MAX_RATE: nat := 0xFFFF_FFFF / 1000
  const WORD: nat := 0x1_0000_0000

  /** The highest rate at which no refill can wrap. */
  const LAST_SAFE_RATE: nat := 4290676

  predicate Legal(rate: nat) { 1 <= rate <= MAX_RATE }

  /** Timer period in ticks; never zero. */
  function Period(rate: nat): (p: nat)
    requires Legal(rate)
    ensures 1 <= p <= TICK_RATE_HZ
  {
    var p := TICK_RATE_HZ / rate;
    if p == 0 then 1 else p
  }

  /** Timer expiries per second, the divisor of the increment. */
  function Fires(rate: nat): (f: nat)
    requires Legal(rate)
    ensures 1 <= f <= TICK_RATE_HZ
  {
    DivBounds(TICK_RATE_HZ, Period(rate));
    TICK_RATE_HZ / Period(rate)
  }

  function Increment(rate: nat): nat
    requires Legal(rate)
  {
    1000 * rate / Fires(rate)
  }

  lemma DivBounds(x: nat, y: nat)
    requires y > 0
    ensures (x / y) * y <= x < (x / y) * y + y
    ensures y <= x ==> x / y >= 1
    ensures x / y <= x
  {
    var q := x / y;
    assert x == q * y + x % y;
    MulMono(1, y, q);
    assert q == 0 ==> q * y == 0;
  }

  /** rate, tokens and increment in thousandths. */
  datatype Bucket = Bucket(rate: u32, tokens: u32, increment: u32)

  function Full(rate: nat): Bucket
    requires Legal(rate)
  {
    IncrementBounds(rate);
    Bucket(1000 * rate, 1000 * rate, Increment(rate))
  }

  /** What the code asks of an amount. */
  type Amount = n: nat | n <= MAX_RATE

  function TakeFrom(b: Bucket, n: Amount): Bucket {
    if 1000 * n <= b.tokens then b.(tokens := b.tokens - 1000 * n) else b
  }

  function Granted(b: Bucket, n: Amount): nat {
    if 1000 * n <= b.tokens then n else 0
  }

  function Refilled(b: Bucket): Bucket {
    if b.tokens == b.rate then b
    else
      var new_ := (b.tokens + b.increment) % WORD;
      b.(tokens := if new_ >= b.rate then b.rate else new_)
  }

  class TokenBucket {
    var rate: u32
    var tokens: u32
    var increment: u32
    /** The period the timer is created with, in ticks. */
    var timerPeriodTicks: nat

    ghost function State(): Bucket
      reads this
    {
      Bucket(rate, tokens, increment)
    }

    constructor (tokensPerSecond: nat)
      requires Legal(tokensPerSecond)
      ensures State() == Full(tokensPerSecond) && timerPeriodTicks == Period(tokensPerSecond)
      ensures tokens == rate == 1000 * tokensPerSecond
    {
      IncrementBounds(tokensPerSecond);
      rate := 1000 * tokensPerSecond;
      tokens := 1000 * tokensPerSecond;
      var ticks := TICK_RATE_HZ / tokensPerSecond;
      if ticks == 0 {
        ticks := 1;
      }
      DivBounds(TICK_RATE_HZ, ticks);
      increment := (1000 * tokensPerSecond) / (TICK_RATE_HZ / ticks);
      timerPeriodTicks := ticks;
    }

    method Take(n: Amount) returns (taken: nat)
      modifies this`tokens
      ensures State() == TakeFrom(old(State()), n) && taken == Granted(old(State()), n)
      ensures taken == 0 || taken == n
      ensures n > 0 ==> (taken == n <==> 1000 * n <= old(tokens))
      ensures tokens == old(tokens) - 1000 * taken
    {
      var fractionsToTake: u32 := 1000 * n;
      taken := 0;
      if fractionsToTake <= tokens {
        tokens := tokens - fractionsToTake;
        taken := n;
      }
    }

    method CanTake(n: Amount) returns (canTake: bool)
      ensures n > 0 ==> (canTake <==> Granted(State(), n) == n)
      ensures n == 0 ==> canTake
    {
      var fractionsToTake: u32 := 1000 * n;
      canTake := fractionsToTake <= tokens;
    }

    /** The timer callback; its overflow test compares a value with itself. */
    method Callback()
      modifies this`tokens
      ensures State() == Refilled(old(State()))
    {
      if tokens != rate {
        tokens := (tokens + increment) % WORD;
        var newTokens := tokens;
        if newTokens < tokens {
          assert false;  // the branch that would fill the bucket on overflow is never taken
        } else if newTokens >= rate {
          tokens := rate;
        } else {
          tokens := newTokens;
        }
      }
    }
  }

  // ---- The refill arithmetic ----

  lemma QuotientAtLeast(x: nat, y: nat, k: nat)
    requires y > 0 && k * y <= x
    ensures x / y >= k
  {
    DivBounds(x, y);
    var q := x / y;
    assert (q + 1) * y == q * y + y;
    if q < k {
      MulMono(q + 1, k, y);
      assert false;
    }
  }

  lemma MulMono(a: nat, b: nat, c: nat)
    requires a <= b
    ensures a * c <= b * c
  {
  }

  /** The rates and amounts the asserts let through are exactly those whose thousandths fit 32 bits. */
  lemma AmountsFit(n: nat)
    ensures n <= MAX_RATE <==> 1000 * n < 0x1_0000_0000
  {
  }

  /** At 1000 ticks a second: the period is one tick for a rate of 1000 and more, and otherwise the longest with at
      least `rate` expiries a second; Fires counts the whole periods of a second. */
  lemma PeriodIsLongest(rate: nat)
    requires Legal(rate)
    ensures var p, f := Period(rate), Fires(rate);
            && (if rate >= 1000 then p == 1 else p * rate <= 1000 < (p + 1) * rate)
            && f * p <= 1000 < (f + 1) * p
  {
    var p, f := Period(rate), Fires(rate);
    DivBounds(1000, rate);
    DivBounds(1000, p);
    MulSucc(1000 / rate, rate);
    MulSucc(f, p);
    if rate > 1000 {
      QuotientZero(1000, rate);
    }
  }

  lemma QuotientZero(x: nat, y: nat)
    requires x < y
    ensures x / y == 0
  {
  }

  /** Per expiry the bucket gains at least rate thousandths, and in a second of expiries at most rate tokens; it is the
      largest such increment. */
  lemma IncrementBounds(rate: nat)
    requires Legal(rate)
    ensures rate <= Increment(rate) <= 1000 * rate
    ensures Fires(rate) * Increment(rate) <= 1000 * rate < Fires(rate) * (Increment(rate) + 1)
  {
    var f := Fires(rate);
    MulSucc(Increment(rate), f);
    DivBounds(1000 * rate, f);
    MulMono(f, 1000, rate);
    QuotientAtLeast(1000 * rate, f, rate);
  }

  lemma HighRateIncrement(rate: nat)
    requires Legal(rate) && rate > 500
    ensures Fires(rate) == 1000 && Increment(rate) == rate
  {
    assert TICK_RATE_HZ / rate <= 1;
  }

  // ---- Runs of takes and refills, in any order ----

  datatype Op = Take(n: Amount) | Refill

  function Run(b: Bucket, ops: seq<Op>): (Bucket, nat)
    decreases |ops|
  {
    if ops == [] then (b, 0)
    else match ops[0]
         case Take(n) =>
           var (b', g) := Run(TakeFrom(b, n), ops[1..]);
           (b', Granted(b, n) + g)
         case Refill => Run(Refilled(b), ops[1..])
  }

  function Refills(ops: seq<Op>): nat {
    if ops == [] then 0 else (if ops[0].Refill? then 1 else 0) + Refills(ops[1..])
  }

  /** Thousandths granted over a run are at most what was there plus one increment per refill, wrapping or not. */
  lemma {:induction false} Envelope(b: Bucket, ops: seq<Op>)
    requires b.tokens <= b.rate
    ensures var (b', granted) := Run(b, ops);
            && b'.tokens <= b'.rate == b.rate && b'.increment == b.increment
            && 1000 * granted + b'.tokens <= b.tokens + Refills(ops) * b.increment
    decreases |ops|
  {
    if ops == [] {
    } else if ops[0].Take? {
      Envelope(TakeFrom(b, ops[0].n), ops[1..]);
    } else {
      RefillGains(b);
      Envelope(Refilled(b), ops[1..]);
      MulSucc(Refills(ops[1..]), b.increment);
    }
  }

  lemma RefillGains(b: Bucket)
    requires b.tokens <= b.rate
    ensures var b' := Refilled(b);
            b'.tokens <= b'.rate == b.rate && b'.increment == b.increment && b'.tokens <= b.tokens + b.increment
  {
  }

  lemma MulSucc(n: nat, k: nat)
    ensures (1 + n) * k == k + n * k && k * (n + 1) == n * k + k && k * n == n * k
  {
  }

  /** Rate envelope: a window of at most a second's refills grants at most twice the rate, from any reachable state. */
  lemma RateEnvelope(rate: nat, before: seq<Op>, window: seq<Op>)
    requires Legal(rate) && Refills(window) <= Fires(rate)
    ensures var b := Run(Full(rate), before).0;
            b.tokens <= b.rate == 1000 * rate && Run(b, window).1 <= 2 * rate
  {
    IncrementBounds(rate);
    Envelope(Full(rate), before);
    var b := Run(Full(rate), before).0;
    Envelope(b, window);
    MulMono(Refills(window), Fires(rate), Increment(rate));
  }

  // ---- The exact balance ----

  /** What a refill changes at a level, told in plain numbers: as much of the increment as the bucket has room for, and
      past 2^32 the level falls back by 2^32 first. */
  function Gain(level: nat, rate: nat, increment: nat): int {
    if level == rate then 0
    else if level + increment >= 0x1_0000_0000 then Least(increment - 0x1_0000_0000, rate - level)
    else Least(increment, rate - level)
  }

  function Least(a: int, b: int): int { if a <= b then a else b }

  function Gains(b: Bucket, ops: seq<Op>): int
    decreases |ops|
  {
    if ops == [] then 0
    else match ops[0]
         case Take(n) => Gains(TakeFrom(b, n), ops[1..])
         case Refill => Gain(b.tokens, b.rate, b.increment) + Gains(Refilled(b), ops[1..])
  }

  lemma RefillIsGain(b: Bucket)
    requires b.tokens <= b.rate
    ensures Refilled(b).tokens == b.tokens + Gain(b.tokens, b.rate, b.increment)
  {
    if b.tokens + b.increment >= WORD {
      ModWord(b.tokens + b.increment);
    }
  }

  /** Over every run, to the thousandth: what was granted and what is left is what was there and what refills added. */
  lemma {:induction false} Balance(b: Bucket, ops: seq<Op>)
    requires b.tokens <= b.rate
    ensures var (b', granted) := Run(b, ops);
            1000 * granted + b'.tokens == b.tokens + Gains(b, ops)
    decreases |ops|
  {
    if ops == [] {
    } else if ops[0].Take? {
      Balance(TakeFrom(b, ops[0].n), ops[1..]);
    } else {
      RefillGains(b);
      RefillIsGain(b);
      Balance(Refilled(b), ops[1..]);
    }
  }

  // ---- Wrapping ----

  /** A bucket of the given rate, at any level. */
  predicate Of(b: Bucket, rate: nat) {
    Legal(rate) && b.rate == 1000 * rate && b.tokens <= b.rate && b.increment == Increment(rate)
  }

  /** A refill here would exceed 32 bits. */
  predicate Wraps(b: Bucket) { b.tokens != b.rate && b.tokens + b.increment >= WORD }

  lemma LowRatesDoNotWrap(b: Bucket, rate: nat)
    requires Of(b, rate) && rate <= LAST_SAFE_RATE
    ensures !Wraps(b)
  {
    IncrementBounds(rate);
    if rate > 500 {
      HighRateIncrement(rate);
    }
  }

  /** Takes and one refill that leave a high-rate bucket less than one token short of full. */
  function AlmostFull(rate: nat): seq<Op>
    requires Legal(rate)
  {
    [Take(rate / 1000 + 1), Refill]
  }

  lemma HighRatesWrap(rate: nat)
    requires Legal(rate) && rate > LAST_SAFE_RATE
    ensures Wraps(Run(Full(rate), AlmostFull(rate)).0)
  {
    HighRateIncrement(rate);
    var ops := AlmostFull(rate);
    assert ops[1..] == [Refill] && ops[1..][1..] == [];
    var a := rate / 1000 + 1;
    assert rate < 1000 * a <= rate + 1000;
    var b1 := TakeFrom(Full(rate), a);
    assert b1.tokens == 1000 * rate - 1000 * a;
    assert Refilled(b1).tokens == 1000 * rate - 1000 * a + rate;
    assert Run(Full(rate), ops).0 == Run(b1, ops[1..]).0 == Run(Refilled(b1), ops[1..][1..]).0;
  }

  ghost predicate ReachesWrap(rate: nat, ops: seq<Op>)
    requires Legal(rate)
  {
    Wraps(Run(Full(rate), ops).0)
  }

  /** Some run reaches a wrapping refill exactly when the rate is above LAST_SAFE_RATE. */
  lemma WrapsIff(rate: nat)
    requires Legal(rate)
    ensures (exists ops :: ReachesWrap(rate, ops)) <==> rate > LAST_SAFE_RATE
  {
    if rate > LAST_SAFE_RATE {
      HighRatesWrap(rate);
      assert ReachesWrap(rate, AlmostFull(rate));
    } else {
      forall ops
        ensures !ReachesWrap(rate, ops)
      {
        IncrementBounds(rate);
        Envelope(Full(rate), ops);
        LowRatesDoNotWrap(Run(Full(rate), ops).0, rate);
      }
    }
  }

  // ---- The token bucket on unbounded numbers ----

  /** What each take is granted. */
  function Answers(b: Bucket, ops: seq<Op>): seq<nat>
    decreases |ops|
  {
    if ops == [] then []
    else match ops[0]
         case Take(n) => [Granted(b, n)] + Answers(TakeFrom(b, n), ops[1..])
         case Refill => Answers(Refilled(b), ops[1..])
  }

  /** The same for a level that is never cut to 32 bits: all or nothing, and refills up to the rate. */
  function Ideal(level: int, rate: int, increment: int, ops: seq<Op>): seq<nat>
    decreases |ops|
  {
    if ops == [] then []
    else match ops[0]
         case Take(n) =>
           if level >= 1000 * n then [n] + Ideal(level - 1000 * n, rate, increment, ops[1..])
           else [0] + Ideal(level, rate, increment, ops[1..])
         case Refill => Ideal(Least(level + increment, rate), rate, increment, ops[1..])
  }

  lemma {:induction false} SafeIsIdeal(b: Bucket, rate: nat, ops: seq<Op>)
    requires Of(b, rate) && rate <= LAST_SAFE_RATE
    ensures Answers(b, ops) == Ideal(b.tokens, b.rate, b.increment, ops)
    decreases |ops|
  {
    if ops == [] {
    } else if ops[0].Take? {
      SafeIsIdeal(TakeFrom(b, ops[0].n), rate, ops[1..]);
    } else {
      RefillStep(b, rate);
      SafeRefillIsIdeal(b, rate);
      SafeIsIdeal(Refilled(b), rate, ops[1..]);
    }
  }

  lemma SafeRefillIsIdeal(b: Bucket, rate: nat)
    requires Of(b, rate) && rate <= LAST_SAFE_RATE
    ensures Refilled(b).tokens == Least(b.tokens + b.increment, b.rate)
    ensures Refilled(b).rate == b.rate && Refilled(b).increment == b.increment
  {
    LowRatesDoNotWrap(b, rate);
    RefillIsGain(b);
  }

  /** A take and a refill that leave a high-rate bucket almost full, a refill that wraps, and a take that shows it. */
  function WrapShows(rate: nat): seq<Op>
    requires Legal(rate)
  {
    [Take(rate / 1000 + 1)] + ([Refill] + ([Refill] + ([Take(rate)] + [])))
  }

  lemma {:induction false} FirstAnswer(b: Bucket, op: Op, ops: seq<Op>)
    ensures Answers(b, [op] + ops)
         == match op
            case Take(n) => [Granted(b, n)] + Answers(TakeFrom(b, n), ops)
            case Refill => Answers(Refilled(b), ops)
  {
    assert ([op] + ops)[1..] == ops;
  }

  lemma {:induction false} FirstIdeal(level: int, rate: int, increment: int, op: Op, ops: seq<Op>)
    ensures Ideal(level, rate, increment, [op] + ops)
         == match op
            case Take(n) => (if level >= 1000 * n then [n] + Ideal(level - 1000 * n, rate, increment, ops)
                             else [0] + Ideal(level, rate, increment, ops))
            case Refill => Ideal(Least(level + increment, rate), rate, increment, ops)
  {
    assert ([op] + ops)[1..] == ops;
  }

  lemma {:induction false} WrappedAnswers(rate: nat)
    requires Legal(rate) && rate > LAST_SAFE_RATE
    ensures Answers(Full(rate), WrapShows(rate)) == [rate / 1000 + 1, 0]
  {
    HighRateIncrement(rate);
    var a, r, t := Take(rate / 1000 + 1), Refill, Take(rate);
    var b0 := Full(rate);
    var b1 := TakeFrom(b0, a.n);
    var b2 := Refilled(b1);
    var b3 := Refilled(b2);
    assert rate < 1000 * a.n <= rate + 1000;
    assert b2 == Bucket(b0.rate, 1000 * rate - 1000 * a.n + rate, rate);
    RefillPastWord(b2, rate);
    FirstAnswer(b0, a, [r] + ([r] + ([t] + [])));
    FirstAnswer(b1, r, [r] + ([t] + []));
    FirstAnswer(b2, r, [t] + []);
    FirstAnswer(b3, t, []);
  }

  lemma {:induction false} WrappedIdeal(rate: nat)
    requires Legal(rate) && rate > LAST_SAFE_RATE
    ensures Ideal(1000 * rate, 1000 * rate, rate, WrapShows(rate)) == [rate / 1000 + 1, rate]
  {
    var a, r, t, k := Take(rate / 1000 + 1), Refill, Take(rate), 1000 * rate;
    assert rate < 1000 * a.n <= rate + 1000;
    FirstIdeal(k, k, rate, a, [r] + ([r] + ([t] + [])));
    FirstIdeal(k - 1000 * a.n, k, rate, r, [r] + ([t] + []));
    FirstIdeal(k - 1000 * a.n + rate, k, rate, r, [t] + []);
    FirstIdeal(k, k, rate, t, []);
  }

  ghost predicate AnswersIdeally(rate: nat, ops: seq<Op>)
    requires Legal(rate)
  {
    Answers(Full(rate), ops) == Ideal(1000 * rate, 1000 * rate, Increment(rate), ops)
  }

  /** The 32-bit bucket answers every run of takes and refills as the unbounded one if and only if the rate is at most
      4290676. */
  lemma {:induction false} IdealIff(rate: nat)
    requires Legal(rate)
    ensures (forall ops :: AnswersIdeally(rate, ops)) <==> rate <= 4290676
  {
    if rate <= LAST_SAFE_RATE {
      IncrementBounds(rate);
      forall ops
        ensures AnswersIdeally(rate, ops)
      {
        SafeIsIdeal(Full(rate), rate, ops);
      }
    } else {
      HighRateIncrement(rate);
      WrappedAnswers(rate);
      WrappedIdeal(rate);
      assert [rate / 1000 + 1, 0][1] != [rate / 1000 + 1, rate][1];
      assert !AnswersIdeally(rate, WrapShows(rate));
    }
  }

  // ---- Filling up ----

  function RefillN(b: Bucket, n: nat): Bucket {
    if n == 0 then b else Refilled(RefillN(b, n - 1))
  }

  lemma {:induction false} RefillNTokens(b: Bucket, rate: nat, n: nat)
    requires Of(b, rate) && rate <= LAST_SAFE_RATE
    ensures Of(RefillN(b, n), rate)
    ensures RefillN(b, n).tokens == b.rate || RefillN(b, n).tokens == b.tokens + n * b.increment
  {
    if n == 0 {
    } else {
      RefillNTokens(b, rate, n - 1);
      RefillStep(RefillN(b, n - 1), rate);
      MulSucc(n - 1, b.increment);
    }
  }

  lemma RefillStep(b: Bucket, rate: nat)
    requires Of(b, rate) && rate <= LAST_SAFE_RATE
    ensures Of(Refilled(b), rate)
    ensures Refilled(b).tokens == b.rate || (b.tokens != b.rate && Refilled(b).tokens == b.tokens + b.increment)
  {
    LowRatesDoNotWrap(b, rate);
  }

  /** At a low rate the period is at least two ticks, and a second of expiries is not much more than the rate. */
  lemma LowRateFires(rate: nat)
    requires 1 <= rate <= 500
    ensures Fires(rate) <= 500 && 3 * rate >= 2 * Fires(rate)
  {
    var p, f := Period(rate), Fires(rate);
    QuotientAtLeast(TICK_RATE_HZ, rate, 2);
    DivBounds(TICK_RATE_HZ, rate);
    DivBounds(TICK_RATE_HZ, p);
    LowRateArithmetic(rate, p, f);
  }

  lemma LowRateArithmetic(rate: nat, p: nat, f: nat)
    requires p >= 2 && f * p <= 1000 < p * rate + rate
    ensures f <= 500 && 3 * rate >= 2 * f
  {
    MulMono(2, p, f);
    assert 2 * f <= p * f == f * p;
    MulMono(2, p, rate);
    assert 2 * rate <= p * rate;
    assert (3 * rate + 1) * p == 3 * (p * rate) + p;
    assert (2 * f) * p == 2 * (f * p);
    if 3 * rate < 2 * f {
      // then 3pr < 2pf <= 2000 < 2pr + 2r <= 3pr
      MulMono(3 * rate + 1, 2 * f, p);
      assert false;
    }
  }

  lemma OneMoreRefill(rate: nat)
    requires Legal(rate)
    ensures (Fires(rate) + 1) * Increment(rate) >= 1000 * rate
  {
    var f, inc := Fires(rate), Increment(rate);
    DivBounds(1000 * rate, f);
    MulSucc(f, inc);
    if rate > 500 {
      HighRateIncrement(rate);
    } else {
      LowRateFires(rate);
      MulMono(f, 500, f);
      QuotientAtLeast(1000 * rate, f, f);
    }
  }

  /** Untouched, a bucket of a safe rate is full after one refill more than a second has. */
  lemma FullAfterASecond(b: Bucket, rate: nat)
    requires Of(b, rate) && rate <= LAST_SAFE_RATE
    ensures RefillN(b, Fires(rate) + 1) == Full(rate)
  {
    RefillNTokens(b, rate, Fires(rate) + 1);
    OneMoreRefill(rate);
  }

  /** A level from which a second's refills at a high rate pass 2^32 just before the bucket is full. */
  predicate FallsBack(b: Bucket, rate: nat) {
    Of(b, rate) && rate > LAST_SAFE_RATE && WORD - 1000 * rate <= b.tokens < rate
  }

  /** Refills below the rate add up. */
  lemma {:induction false} Climb(b: Bucket, n: nat)
    requires b.tokens + n * b.increment < b.rate
    ensures RefillN(b, n) == Bucket(b.rate, b.tokens + n * b.increment, b.increment)
  {
    if n == 0 {
    } else {
      MulSucc(n - 1, b.increment);
      Climb(b, n - 1);
      RefillBelowRate(RefillN(b, n - 1));
    }
  }

  lemma RefillBelowRate(b: Bucket)
    requires b.tokens + b.increment < b.rate
    ensures Refilled(b) == Bucket(b.rate, b.tokens + b.increment, b.increment)
  {
  }

  lemma RefillTwiceMore(b: Bucket, n: nat)
    ensures RefillN(b, n + 1) == Refilled(RefillN(b, n))
    ensures RefillN(b, n + 2) == Refilled(Refilled(RefillN(b, n)))
  {
    assert RefillN(b, n + 2) == Refilled(RefillN(b, n + 1));
  }

  /** The thousandth refill takes such a bucket back to less than a thousandth of its rate. */
  lemma HighRatesFallBack(b: Bucket, rate: nat)
    requires FallsBack(b, rate)
    ensures Fires(rate) == 1000
    ensures RefillN(b, 1000).tokens == b.tokens + 1000 * rate - WORD < rate
    ensures RefillN(b, 1001).tokens == b.tokens + 1001 * rate - WORD < 2 * rate
  {
    HighRateIncrement(rate);
    var n: nat := 999;
    assert n * b.increment == 999 * rate;
    Climb(b, n);
    RefillTwiceMore(b, n);
    RefillPastWord(RefillN(b, n), rate);
  }

  lemma RefillPastWord(b: Bucket, rate: nat)
    requires Of(b, rate) && b.increment == rate && WORD - rate <= b.tokens < 1000 * rate
    ensures Refilled(b).tokens == b.tokens + rate - WORD < rate
    ensures Refilled(Refilled(b)).tokens == b.tokens + 2 * rate - WORD
  {
    ModWord(b.tokens + rate);
    var b1 := Refilled(b);
    assert b1 == Bucket(b.rate, b.tokens + rate - WORD, rate);
    RefillBelowRate(b1);
  }

  lemma ModWord(x: nat)
    requires WORD <= x < 2 * WORD
    ensures x % WORD == x - WORD
  {
  }

  /** Calls that leave a full bucket at such a level. */
  function ToFallBack(rate: nat): seq<Op>
    requires Legal(rate) && rate > LAST_SAFE_RATE
  {
    if rate == LAST_SAFE_RATE + 1 then [Take(rate), Refill, Refill, Take(4291)] else [Take(rate - (rate - 1) / 1000)]
  }

  lemma FallBackReached(rate: nat)
    requires Legal(rate) && rate > LAST_SAFE_RATE
    ensures FallsBack(Run(Full(rate), ToFallBack(rate)).0, rate)
  {
    HighRateIncrement(rate);
    var ops := ToFallBack(rate);
    if rate == LAST_SAFE_RATE + 1 {
      var b1 := TakeFrom(Full(rate), rate);
      var b2 := Refilled(Refilled(b1));
      assert b2.tokens == 2 * rate;
      assert ops[1..] == [Refill, Refill, Take(4291)] && ops[1..][1..] == [Refill, Take(4291)];
      assert ops[1..][1..][1..] == [Take(4291)] && ops[1..][1..][1..][1..] == [];
      assert Run(b1, ops[1..]) == Run(Refilled(b1), ops[1..][1..]) == Run(b2, ops[1..][1..][1..]);
      assert Run(Full(rate), ops).0 == Run(b2, ops[1..][1..][1..]).0 == TakeFrom(b2, 4291);
    } else {
      assert ops[1..] == [];
    }
  }

  /** Every untouched bucket of a rate is full after one refill more than a second has if and only if the rate is one
      at which no refill wraps. */
  lemma FullAfterASecondIff(rate: nat)
    requires Legal(rate)
    ensures (forall b: Bucket :: Of(b, rate) ==> RefillN(b, Fires(rate) + 1) == Full(rate)) <==> rate <= LAST_SAFE_RATE
  {
    if rate <= LAST_SAFE_RATE {
      forall b: Bucket | Of(b, rate)
        ensures RefillN(b, Fires(rate) + 1) == Full(rate)
      {
        FullAfterASecond(b, rate);
      }
    } else {
      FallBackReached(rate);
      var b := Run(Full(rate), ToFallBack(rate)).0;
      HighRatesFallBack(b, rate);
      assert RefillN(b, Fires(rate) + 1) != Full(rate);
    }
  }

  /** Whatever was taken before, `n` can be taken after a second's refills and one more. */
  ghost predicate Available(rate: nat, before: seq<Op>, n: Amount)
    requires Legal(rate)
  {
    Granted(RefillN(Run(Full(rate), before).0, Fires(rate) + 1), n) == n
  }

  /** After every run of calls, any amount up to the rate can be taken after that many refills, if and only if the
      rate is one at which no refill wraps. */
  lemma AvailableAfterASecondIff(rate: nat)
    requires Legal(rate)
    ensures (forall before, n: Amount :: n <= rate ==> Available(rate, before, n)) <==> rate <= LAST_SAFE_RATE
  {
    IncrementBounds(rate);
    if rate <= LAST_SAFE_RATE {
      forall before, n: Amount | n <= rate
        ensures Available(rate, before, n)
      {
        Envelope(Full(rate), before);
        FullAfterASecond(Run(Full(rate), before).0, rate);
      }
    } else {
      FallBackReached(rate);
      HighRatesFallBack(Run(Full(rate), ToFallBack(rate)).0, rate);
      assert !Available(rate, ToFallBack(rate), rate);
    }
  }
}
