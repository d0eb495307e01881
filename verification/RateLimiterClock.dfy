/**
 The budget of the token-bucket limiter measured by the clock's current reading instead of its
 latest one. After a backward jump the calls already allowed can exceed it; the bound holds for every
 configuration exactly when the readings never go back.
 */
module RateLimiterClock {
  import opened RateLimiter

  /** The calls of one key at the given readings. */
  function Calls(key: Key, times: seq<real>): seq<Call> {
    seq(|times|, i requires 0 <= i < |times| => Call(key, times[i]))
  }

  ghost predicate NeverBack(times: seq<real>) {
    forall i, j :: 0 <= i <= j < |times| ==> times[i] <= times[j]
  }

  ghost predicate Sane(options: Options) {
    options.capacity >= 0.0 && options.refillPerSec >= 0.0 && options.maxKeys >= 1
  }

  /** After the readings so far, the calls allowed fit the budget at the current reading. */
  ghost predicate FitsNow(options: Options, key: Key, times: seq<real>)
    requires times != []
  {
    EpochOf(options, Calls(key, times), key).allowed as real <= Budget(options, times[0], times[|times| - 1])
  }

  ghost predicate AlwaysFits(options: Options, key: Key, times: seq<real>) {
    forall k :: 0 < k <= |times| ==> FitsNow(options, key, times[..k])
  }

  // ----- one key on its own ----------------------------------------------------------------------

  lemma CallsSnoc(key: Key, times: seq<real>)
    requires times != []
    ensures var n := |times| - 1;
      Calls(key, times)[..n] == Calls(key, times[..n]) && Calls(key, times)[n] == Call(key, times[n])
      && |Calls(key, times)| == |times|
  {
  }

  /** One call of a key leaves its bucket known and dated by the call. */
  lemma JustCalled(options: Options, s: State, call: Call)
    requires options.maxKeys >= 1
    ensures var t := Allow(options, s, call).state; call.key in t.buckets && t.buckets[call.key].last == call.now
  {
    var order := Without(s.order, call.key) + [call.key];
    assert order[|order| - 1] == call.key;
    var kept := Latest(order, Limit(options));
    assert kept[|kept| - 1] == call.key;
  }

  lemma RunSnoc(options: Options, key: Key, times: seq<real>)
    requires times != []
    ensures var n := |times| - 1;
      var s, call := Run(options, Calls(key, times[..n])), Call(key, times[n]);
      && Run(options, Calls(key, times)) == Allow(options, s, call).state
      && EpochOf(options, Calls(key, times), key)
         == EpochStep(options, s, EpochOf(options, Calls(key, times[..n]), key), key, call)
  {
    CallsSnoc(key, times);
  }

  lemma NeverBackInit(times: seq<real>)
    requires |times| >= 2 && NeverBack(times)
    ensures var n := |times| - 1; NeverBack(times[..n]) && times[n - 1] <= times[n]
  {
  }

  /** The key is known, its bucket created at `first` and dated `last`, the latest reading if they never went back. */
  ghost predicate Lone(s: State, epoch: Epoch, key: Key, first: real, last: real, neverBack: bool) {
    && key in s.buckets && s.buckets[key].last == last && epoch.created == first
    && (neverBack ==> epoch.latest == last)
  }

  lemma LoneBegins(options: Options, epoch: Epoch, key: Key, now: real)
    requires options.maxKeys >= 1
    ensures var s, call := State([], map[]), Call(key, now);
      Lone(Allow(options, s, call).state, EpochStep(options, s, epoch, key, call), key, now, now, true)
  {
    JustCalled(options, State([], map[]), Call(key, now));
  }

  lemma LoneContinues(options: Options, s: State, epoch: Epoch, key: Key, first: real, last: real, now: real,
                      neverBack: bool)
    requires options.maxKeys >= 1 && Lone(s, epoch, key, first, last, neverBack) && (neverBack ==> last <= now)
    ensures var call := Call(key, now);
      Lone(Allow(options, s, call).state, EpochStep(options, s, epoch, key, call), key, first, now, neverBack)
  {
    JustCalled(options, s, Call(key, now));
  }

  /** The key's bucket is always known, was created at the first reading, and is dated by the last. */
  lemma {:induction false} LoneKey(options: Options, key: Key, times: seq<real>)
    requires options.maxKeys >= 1 && times != []
    ensures Lone(Run(options, Calls(key, times)), EpochOf(options, Calls(key, times), key), key,
                 times[0], times[|times| - 1], NeverBack(times))
  {
    var n := |times| - 1;
    var init := Calls(key, times[..n]);
    RunSnoc(options, key, times);
    if n == 0 {
      LoneBegins(options, EpochOf(options, init, key), key, times[0]);
    } else {
      LoneKey(options, key, times[..n]);
      if NeverBack(times) { NeverBackInit(times); }
      LoneContinues(options, Run(options, init), EpochOf(options, init, key), key, times[0], times[n - 1], times[n],
                    NeverBack(times));
    }
  }

  /** What one more call at reading `now` does to the bucket and the count. */
  ghost predicate Charged(options: Options, key: Key, s: State, t: State, before: nat, after: nat, now: real) {
    key in s.buckets && key in t.buckets &&
    var full := Refill(options, s.buckets[key], now);
    t.buckets[key] == Spend(full) && after == before + (if full.tokens >= 1.0 then 1 else 0)
  }

  lemma KnownIsCharged(options: Options, s: State, epoch: Epoch, key: Key, now: real)
    requires options.maxKeys >= 1 && key in s.buckets
    ensures var call := Call(key, now);
      Charged(options, key, s, Allow(options, s, call).state,
              epoch.allowed, EpochStep(options, s, epoch, key, call).allowed, now)
  {
    JustCalled(options, s, Call(key, now));
  }

  lemma LoneStep(options: Options, key: Key, times: seq<real>)
    requires options.maxKeys >= 1 && |times| >= 2
    ensures var n := |times| - 1;
      var init, calls := Calls(key, times[..n]), Calls(key, times);
      Charged(options, key, Run(options, init), Run(options, calls),
              EpochOf(options, init, key).allowed, EpochOf(options, calls, key).allowed, times[n])
  {
    var n := |times| - 1;
    var init := Calls(key, times[..n]);
    RunSnoc(options, key, times);
    LoneKey(options, key, times[..n]);
    KnownIsCharged(options, Run(options, init), EpochOf(options, init, key), key, times[n]);
  }

  lemma LoneFirst(options: Options, key: Key, times: seq<real>)
    requires options.maxKeys >= 1 && |times| == 1
    ensures var s := Run(options, Calls(key, times));
      && key in s.buckets && s.buckets[key] == Spend(Bucket(options.capacity, times[0]))
      && EpochOf(options, Calls(key, times), key).allowed == (if options.capacity >= 1.0 then 1 else 0)
  {
    RunSnoc(options, key, times);
    LoneKey(options, key, times);
    assert Calls(key, times[..0]) == [];
  }

  lemma {:induction false} AllowedGrows(options: Options, key: Key, times: seq<real>, k: nat)
    requires options.maxKeys >= 1 && 0 < k <= |times|
    ensures EpochOf(options, Calls(key, times[..k]), key).allowed <= EpochOf(options, Calls(key, times), key).allowed
    decreases |times|
  {
    if k == |times| {
      assert times[..k] == times;
    } else {
      var n := |times| - 1;
      LoneStep(options, key, times);
      assert times[..n][..k] == times[..k];
      AllowedGrows(options, key, times[..n], k);
    }
  }

  // ----- a configuration that catches a backward jump ---------------------------------------------

  lemma ScaledElapsed(a: real, d: real)
    requires d > 0.0
    ensures a / 1000.0 * (1000.0 / d) == a / d
  {
    var x := a / d;
    assert a == x * d;
    assert 1000.0 / d * d == 1000.0;
    assert a / 1000.0 * (1000.0 / d) == x * (d * (1000.0 / d)) / 1000.0;
  }

  /** A bucket after call `k` of a tight run: the burst left, plus the fraction of `d` elapsed. */
  ghost predicate Tight(b: Bucket, i: nat, k: nat, start: real, d: real)
    requires d > 0.0
  {
    b.tokens == (i - k - 1) as real + (b.last - start) / d
  }

  lemma TightFirst(i: nat, start: real, d: real)
    requires d > 0.0 && i > 0
    ensures Tight(Spend(Bucket(i as real, start)), i, 0, start, d)
  {
    Fraction(0.0, d);
  }

  /** What a tight bucket is refilled to before it is cut off at the capacity. */
  lemma TightSum(tokens: real, last: real, whole: real, start: real, d: real, now: real)
    requires d > 0.0 && tokens == whole + (last - start) / d
    ensures tokens + (now - last) / 1000.0 * (1000.0 / d) == whole + (now - start) / d
  {
    ScaledElapsed(now - last, d);
    FractionsSubtract(now, last, start, d);
  }

  lemma TightStep(options: Options, b: Bucket, i: nat, k: nat, start: real, d: real, now: real)
    requires d > 0.0 && options.refillPerSec == 1000.0 / d && options.capacity == i as real
    requires 0 < k <= i && start <= now <= start + d && (k == i ==> now == start + d)
    requires Tight(b, i, k - 1, start, d)
    ensures Refill(options, b, now).tokens >= 1.0 && Tight(Spend(Refill(options, b, now)), i, k, start, d)
  {
    var fraction, whole := (now - start) / d, (i - k) as real;
    TightSum(b.tokens, b.last, whole, start, d, now);
    Fraction(now - start, d);
    TightSpend(options, Refill(options, b, now), i, k, fraction);
  }

  lemma TightSpend(options: Options, full: Bucket, i: nat, k: nat, fraction: real)
    requires 0 < k <= i && 0.0 <= fraction <= 1.0 && (k == i ==> fraction == 1.0)
    requires full.tokens == MinReal(i as real, (i - k) as real + fraction)
    ensures full.tokens >= 1.0 && Spend(full).tokens == (i - k - 1) as real + fraction && Spend(full).last == full.last
  {
    var rest := i - k;
    assert rest > 0 ==> rest as real >= 1.0;
    assert (rest + k) as real == rest as real + k as real && k as real >= 1.0;
    assert (rest - 1) as real == rest as real - 1.0;
  }

  /** The readings up to `i` lie between the first and the i-th, which differ. */
  ghost predicate Spread(times: seq<real>, i: nat) {
    0 < i < |times| && times[0] < times[i] && forall j :: 0 <= j <= i ==> times[0] <= times[j] <= times[i]
  }

  /** Capacity i and one token per `t_i - t_0`. */
  function SlowOptions(times: seq<real>, i: nat): Options
    requires Spread(times, i)
  {
    Options(i as real, 1000.0 / (times[i] - times[0]), 1)
  }

  /** After call `k` under these options the bucket is tight and every call was allowed. */
  ghost predicate TightAt(key: Key, times: seq<real>, i: nat, k: nat)
    requires Spread(times, i) && k <= i
  {
    var options, calls := SlowOptions(times, i), Calls(key, times[..k + 1]);
    TightIn(Run(options, calls), key, times, i, k) && EpochOf(options, calls, key).allowed == k + 1
  }

  ghost predicate TightIn(s: State, key: Key, times: seq<real>, i: nat, k: nat)
    requires Spread(times, i) && k <= i
  {
    key in s.buckets && Tight(s.buckets[key], i, k, times[0], times[i] - times[0])
  }

  /** One call by a tight bucket is allowed and leaves it tight. */
  lemma TightBucket(s: State, key: Key, times: seq<real>, i: nat, k: nat)
    requires Spread(times, i) && 0 < k <= i && TightIn(s, key, times, i, k - 1)
    ensures var full := Refill(SlowOptions(times, i), s.buckets[key], times[k]);
      full.tokens >= 1.0 && Tight(Spend(full), i, k, times[0], times[i] - times[0])
  {
    TightStep(SlowOptions(times, i), s.buckets[key], i, k, times[0], times[i] - times[0], times[k]);
  }

  lemma TightNext(key: Key, times: seq<real>, i: nat, k: nat)
    requires Spread(times, i) && 0 < k <= i && TightAt(key, times, i, k - 1)
    ensures TightAt(key, times, i, k)
  {
    var options, prefix := SlowOptions(times, i), times[..k + 1];
    assert prefix[..k] == times[..k] && prefix[k] == times[k];
    LoneStep(options, key, prefix);
    TightBucket(Run(options, Calls(key, times[..k])), key, times, i, k);
  }

  /** These options are exactly enough for all of the first i + 1 calls. */
  lemma {:induction false} TightRun(key: Key, times: seq<real>, i: nat, k: nat)
    requires Spread(times, i) && k <= i
    ensures TightAt(key, times, i, k)
  {
    if k == 0 {
      LoneFirst(SlowOptions(times, i), key, times[..1]);
      TightFirst(i, times[0], times[i] - times[0]);
    } else {
      TightRun(key, times, i, k - 1);
      TightNext(key, times, i, k);
    }
  }

  lemma Fraction(a: real, d: real)
    requires d > 0.0 && 0.0 <= a <= d
    ensures 0.0 <= a / d <= 1.0 && (a == d ==> a / d == 1.0) && (a == 0.0 ==> a / d == 0.0)
  {
    var x := a / d;
    assert x * d == a;
  }

  lemma FractionsSubtract(a: real, b: real, c: real, d: real)
    requires d > 0.0
    ensures (a - b) / d == (a - c) / d - (b - c) / d
  {
  }

  lemma LessThanOne(a: real, d: real)
    requires d > 0.0 && a < d
    ensures a / d < 1.0
  {
    var x := a / d;
    assert x * d == a;
  }

  /** For any jump back there are options under which the bound by the current reading is broken. */
  lemma JumpIsCaught(key: Key, times: seq<real>, i: nat) returns (options: Options)
    requires i + 1 < |times| && times[i + 1] < times[i] && NeverBack(times[..i + 1])
    ensures Sane(options) && !FitsNow(options, key, times[..i + 2])
  {
    var upTo := times[..i + 2];
    assert forall j :: 0 <= j <= i ==> times[..i + 1][j] == times[j];
    assert upTo[..i + 1] == times[..i + 1];
    if times[i + 1] < times[0] {
      options := Options(1.0, 1000.0, 1);
      LoneFirst(options, key, upTo[..1]);
      AllowedGrows(options, key, upTo, 1);
    } else {
      assert times[..i + 1][0] == times[0] && times[..i + 1][i] == times[i];
      options := SlowOptions(times, i);
      TightRun(key, times, i, i);
      AllowedGrows(options, key, upTo, i + 1);
      BudgetShort(options, times, i);
    }
  }

  lemma BudgetShort(options: Options, times: seq<real>, i: nat)
    requires i + 1 < |times| && Spread(times, i) && times[i + 1] < times[i] && options == SlowOptions(times, i)
    ensures options.refillPerSec >= 0.0
    ensures Budget(options, times[0], times[i + 1]) < (i + 1) as real
  {
    var d := times[i] - times[0];
    ScaledElapsed(times[i + 1] - times[0], d);
    LessThanOne(times[i + 1] - times[0], d);
  }

  /** The first reading that is earlier than the one before it. */
  lemma {:induction false} FirstJump(times: seq<real>) returns (i: nat)
    requires !NeverBack(times)
    ensures i + 1 < |times| && times[i + 1] < times[i] && NeverBack(times[..i + 1])
  {
    var n := |times| - 1;
    if NeverBack(times[..n]) {
      assert forall j :: 0 <= j < n ==> times[..n][j] == times[j];
      i := n - 1;
    } else {
      i := FirstJump(times[..n]);
      assert times[..n][..i + 1] == times[..i + 1];
    }
  }

  /**
   Under every configuration and at every moment the calls allowed to a key stay within the budget of
   the clock's current reading, if and only if the readings never go back.
   */
  lemma FitsNowIffNeverBack(key: Key, times: seq<real>)
    ensures (forall options :: Sane(options) ==> AlwaysFits(options, key, times)) <==> NeverBack(times)
  {
    if NeverBack(times) {
      forall options, k | Sane(options) && 0 < k <= |times| ensures FitsNow(options, key, times[..k]) {
        assert NeverBack(times[..k]);
        LoneKey(options, key, times[..k]);
        AllowedWithinBudget(options, Calls(key, times[..k]), key);
      }
    } else {
      var i := FirstJump(times);
      var options := JumpIsCaught(key, times, i);
      assert !AlwaysFits(options, key, times);
    }
  }
}
