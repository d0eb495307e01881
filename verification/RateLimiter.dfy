/**
 The in-process token-bucket limiter with least-recently-used eviction. (app/security/rate-limiter.ts)

 A JavaScript `Map` is its keys in insertion order together with the key-to-value map. Tokens and
 clock readings are real numbers; nothing is assumed about the clock.
 */
module RateLimiter {
  import opened Basics

  datatype Key = Key(text: string)

  datatype Options = Options(capacity: real, refillPerSec: real, maxKeys: int)

  datatype Bucket = Bucket(tokens: real, last: real)

  datatype Call = Call(key: Key, now: real)

  datatype State = State(order: seq<Key>, buckets: map<Key, Bucket>)

  datatype Verdict = Verdict(state: State, allowed: bool)

  function Limit(options: Options): nat {
    Max(0, options.maxKeys)
  }

  function MinReal(a: real, b: real): real {
    if a <= b then a else b
  }

  function Refill(options: Options, b: Bucket, now: real): Bucket {
    Bucket(MinReal(options.capacity, b.tokens + (now - b.last) / 1000.0 * options.refillPerSec), now)
  }

  function Without(order: seq<Key>, key: Key): seq<Key> {
    if order == [] then []
    else Without(order[..|order| - 1], key) + (if order[|order| - 1] == key then [] else [order[|order| - 1]])
  }

  /** The last `n` elements, or all of them. */
  function Latest(order: seq<Key>, n: nat): seq<Key> {
    if |order| <= n then order else order[|order| - n..]
  }

  function Restrict(buckets: map<Key, Bucket>, order: seq<Key>): map<Key, Bucket> {
    map k | k in buckets && k in order :: buckets[k]
  }

  /** The bucket a call is judged by: refilled if the key is known, full if it is new. */
  function Current(options: Options, buckets: map<Key, Bucket>, call: Call): Bucket {
    if call.key in buckets then Refill(options, buckets[call.key], call.now)
    else Bucket(options.capacity, call.now)
  }

  function Spend(b: Bucket): Bucket {
    if b.tokens >= 1.0 then b.(tokens := b.tokens - 1.0) else b
  }

  function Allow(options: Options, s: State, call: Call): Verdict {
    var bucket := Current(options, s.buckets, call);
    var order := Latest(Without(s.order, call.key) + [call.key], Limit(options));
    Verdict(State(order, Restrict(s.buckets[call.key := Spend(bucket)], order)), bucket.tokens >= 1.0)
  }

  // ----- runs -----------------------------------------------------------------------------------

  function Run(options: Options, calls: seq<Call>): State {
    if calls == [] then State([], map[])
    else Allow(options, Run(options, calls[..|calls| - 1]), calls[|calls| - 1]).state
  }

  /** The limiter's answer to the last call of a run. */
  function Answer(options: Options, calls: seq<Call>): bool
    requires calls != []
  {
    Allow(options, Run(options, calls[..|calls| - 1]), calls[|calls| - 1]).allowed
  }

  ghost predicate Distinct(order: seq<Key>) {
    forall i, j :: 0 <= i < j < |order| ==> order[i] != order[j]
  }

  /** Every key called so far, the most recently used last. */
  function RecentKeys(calls: seq<Call>): seq<Key> {
    if calls == [] then []
    else Without(RecentKeys(calls[..|calls| - 1]), calls[|calls| - 1].key) + [calls[|calls| - 1].key]
  }

  lemma {:induction false} WithoutMembers(order: seq<Key>, key: Key)
    ensures forall k :: k in Without(order, key) <==> k in order && k != key
    ensures key !in order ==> Without(order, key) == order
  {
    if order != [] {
      var n := |order| - 1;
      WithoutMembers(order[..n], key);
      assert order == order[..n] + [order[n]];
    }
  }

  lemma {:induction false} WithoutDistinct(order: seq<Key>, key: Key)
    requires Distinct(order)
    ensures Distinct(Without(order, key))
    ensures |Without(order, key)| == |order| - (if key in order then 1 else 0)
  {
    if order != [] {
      var n := |order| - 1;
      WithoutDistinct(order[..n], key);
      WithoutMembers(order[..n], key);
      var rest := Without(order[..n], key);
      assert order == order[..n] + [order[n]];
      assert order[n] !in order[..n];
      if order[n] != key {
        DistinctSnoc(rest, order[n]);
      }
    }
  }

  lemma {:induction false} WithoutAppend(a: seq<Key>, b: seq<Key>, key: Key)
    ensures Without(a + b, key) == Without(a, key) + Without(b, key)
  {
    if b == [] {
      assert a + b == a;
    } else {
      assert (a + b)[..|a + b| - 1] == a + b[..|b| - 1];
      WithoutAppend(a, b[..|b| - 1], key);
    }
  }

  lemma {:induction false} RecentKeysDistinct(calls: seq<Call>)
    ensures Distinct(RecentKeys(calls))
  {
    if calls != [] {
      var n := |calls| - 1;
      var earlier, key := RecentKeys(calls[..n]), calls[n].key;
      RecentKeysDistinct(calls[..n]);
      WithoutMembers(earlier, key);
      WithoutDistinct(earlier, key);
      DistinctSnoc(Without(earlier, key), key);
    }
  }

  ghost predicate Used(calls: seq<Call>, key: Key) {
    exists i :: 0 <= i < |calls| && calls[i].key == key
  }

  lemma UsedSnoc(calls: seq<Call>, key: Key)
    requires calls != []
    ensures var n := |calls| - 1; Used(calls, key) <==> Used(calls[..n], key) || calls[n].key == key
  {
    var n := |calls| - 1;
    if i :| 0 <= i < n && calls[i].key == key {
      assert calls[..n][i].key == key;
    }
  }

  lemma {:induction false} RecentIffUsed(calls: seq<Call>, key: Key)
    ensures key in RecentKeys(calls) <==> Used(calls, key)
  {
    if calls != [] {
      var n := |calls| - 1;
      RecentIffUsed(calls[..n], key);
      UsedSnoc(calls, key);
      WithoutMembers(RecentKeys(calls[..n]), calls[n].key);
    }
  }

  /** Where a key was last used. */
  function LastUse(calls: seq<Call>, key: Key): int {
    if calls == [] then -1
    else if calls[|calls| - 1].key == key then |calls| - 1
    else LastUse(calls[..|calls| - 1], key)
  }

  ghost predicate ByLastUse(calls: seq<Call>, order: seq<Key>) {
    forall i, j :: 0 <= i < j < |order| ==> LastUse(calls, order[i]) < LastUse(calls, order[j])
  }

  lemma {:induction false} WithoutKeepsOrder(calls: seq<Call>, order: seq<Key>, key: Key)
    requires ByLastUse(calls, order)
    ensures ByLastUse(calls, Without(order, key))
  {
    if order != [] {
      var n := |order| - 1;
      WithoutKeepsOrder(calls, order[..n], key);
      WithoutMembers(order[..n], key);
      var rest := Without(order[..n], key);
      forall i | 0 <= i < |rest| ensures LastUse(calls, rest[i]) < LastUse(calls, order[n]) {
        assert rest[i] in order[..n];
      }
    }
  }

  lemma {:induction false} LastUseBound(calls: seq<Call>, key: Key)
    ensures LastUse(calls, key) < |calls|
  {
    if calls != [] { LastUseBound(calls[..|calls| - 1], key); }
  }

  /** `RecentKeys` lists the keys in the order of their last uses. */
  lemma {:induction false} RecentKeysByLastUse(calls: seq<Call>)
    ensures ByLastUse(calls, RecentKeys(calls))
  {
    if calls != [] {
      var n := |calls| - 1;
      var key, earlier := calls[n].key, RecentKeys(calls[..n]);
      RecentKeysByLastUse(calls[..n]);
      WithoutKeepsOrder(calls[..n], earlier, key);
      WithoutMembers(earlier, key);
      var rest := Without(earlier, key);
      forall i | 0 <= i < |rest|
        ensures LastUse(calls, rest[i]) == LastUse(calls[..n], rest[i]) < n
      {
        assert rest[i] != key;
        LastUseBound(calls[..n], rest[i]);
      }
    }
  }

  // ----- which keys survive ----------------------------------------------------------------------

  /** Evicting as one goes keeps the same keys as evicting once at the end. */
  lemma EvictingCommutes(order: seq<Key>, key: Key, n: nat)
    requires Distinct(order)
    ensures Latest(Without(Latest(order, n), key) + [key], n) == Latest(Without(order, key) + [key], n)
  {
    if |order| > n {
      var early, late := order[..|order| - n], order[|order| - n..];
      assert order == early + late;
      WithoutAppend(early, late, key);
      WithoutDistinct(late, key);
      WithoutMembers(early, key);
      var x, y := Without(early, key), Without(late, key) + [key];
      assert Without(order, key) + [key] == x + y;
      LatestOfTail(x, y, n);
    }
  }

  lemma LatestOfTail(x: seq<Key>, y: seq<Key>, n: nat)
    requires |y| >= n
    ensures Latest(x + y, n) == Latest(y, n)
  {
    assert (x + y)[|x + y| - n..] == y[|y| - n..];
    assert y[0..] == y;
  }

  lemma LatestSize(order: seq<Key>, n: nat)
    ensures |Latest(order, n)| <= n
    ensures forall k :: k in Latest(order, n) ==> k in order
  {
  }

  /** The map holds exactly the listed keys. */
  ghost predicate Consistent(s: State) {
    forall k :: k in s.buckets <==> k in s.order
  }

  lemma AllowKeepsConsistent(options: Options, s: State, call: Call)
    requires Consistent(s)
    ensures Consistent(Allow(options, s, call).state)
  {
    var rest := Without(s.order, call.key);
    WithoutMembers(s.order, call.key);
    LatestSize(rest + [call.key], Limit(options));
    forall k | k in Latest(rest + [call.key], Limit(options)) ensures k in s.buckets || k == call.key {
      assert k in rest + [call.key];
    }
  }

  /** After any run the limiter knows exactly the `maxKeys` most recently used keys, in that order. */
  lemma {:induction false} KeepsMostRecentKeys(options: Options, calls: seq<Call>)
    ensures var s := Run(options, calls);
      s.order == Latest(RecentKeys(calls), Limit(options)) && Consistent(s) && |s.order| <= Limit(options)
  {
    LatestSize(RecentKeys(calls), Limit(options));
    if calls != [] {
      var n := |calls| - 1;
      KeepsMostRecentKeys(options, calls[..n]);
      RecentKeysDistinct(calls[..n]);
      EvictingCommutes(RecentKeys(calls[..n]), calls[n].key, Limit(options));
      AllowKeepsConsistent(options, Run(options, calls[..n]), calls[n]);
    }
  }

  /** The distinct keys called since `key` last was. */
  function KeysSince(calls: seq<Call>, key: Key): set<Key> {
    if calls == [] || calls[|calls| - 1].key == key then {}
    else KeysSince(calls[..|calls| - 1], key) + {calls[|calls| - 1].key}
  }

  function After(order: seq<Key>, key: Key): seq<Key> {
    if order == [] || order[|order| - 1] == key then []
    else After(order[..|order| - 1], key) + [order[|order| - 1]]
  }

  lemma {:induction false} AfterWithout(order: seq<Key>, other: Key, key: Key)
    requires other != key
    ensures After(Without(order, other), key) == Without(After(order, key), other)
  {
    if order != [] {
      var n := |order| - 1;
      AfterWithout(order[..n], other, key);
      var rest := Without(order[..n], other);
      if order[n] == other {
        assert rest + [] == rest;
        WithoutAppend(After(order[..n], key), [other], other);
        WithoutMembers([other], other);
        if order[n] != key {
          assert Without([other], other) == [] by { assert [other][..0] == []; }
        }
      } else {
        assert (rest + [order[n]])[..|rest|] == rest;
        if order[n] != key {
          WithoutAppend(After(order[..n], key), [order[n]], other);
          assert Without([order[n]], other) == [order[n]] by { WithoutMembers([order[n]], other); }
        }
      }
    }
  }

  lemma DistinctSnoc(order: seq<Key>, key: Key)
    requires Distinct(order) && key !in order
    ensures Distinct(order + [key])
  {
  }

  lemma AfterTouch(order: seq<Key>, c: Key, key: Key)
    ensures After(Without(order, c) + [c], key) == if c == key then [] else Without(After(order, key), c) + [c]
  {
    var rest := Without(order, c);
    assert (rest + [c])[..|rest|] == rest;
    if c != key {
      AfterWithout(order, c, key);
    }
  }

  ghost predicate Lists(after: seq<Key>, members: set<Key>) {
    Distinct(after) && forall k :: k in after <==> k in members
  }

  lemma ListsTouch(after: seq<Key>, members: set<Key>, c: Key)
    requires Lists(after, members)
    ensures Lists(Without(after, c) + [c], members + {c})
  {
    WithoutMembers(after, c);
    WithoutDistinct(after, c);
    DistinctSnoc(Without(after, c), c);
  }

  /** The keys listed after `key` are those called since, each once. */
  lemma {:induction false} AfterIsSince(calls: seq<Call>, key: Key)
    requires key in RecentKeys(calls)
    ensures Lists(After(RecentKeys(calls), key), KeysSince(calls, key))
  {
    var n := |calls| - 1;
    var c, earlier := calls[n].key, RecentKeys(calls[..n]);
    AfterTouch(earlier, c, key);
    if c != key {
      WithoutMembers(earlier, c);
      AfterIsSince(calls[..n], key);
      ListsTouch(After(earlier, key), KeysSince(calls[..n], key), c);
    }
  }

  lemma {:induction false} DistinctSize(order: seq<Key>, members: set<Key>)
    requires Distinct(order) && forall k :: k in order <==> k in members
    ensures |order| == |members|
  {
    if order == [] {
      assert members == {};
    } else {
      var n := |order| - 1;
      forall k ensures k in order[..n] <==> k in members - {order[n]} {
        assert k in order <==> k in order[..n] || k == order[n];
      }
      DistinctSize(order[..n], members - {order[n]});
    }
  }

  lemma {:induction false} AfterAt(order: seq<Key>, i: nat)
    requires i < |order| && forall j :: i < j < |order| ==> order[j] != order[i]
    ensures |After(order, order[i])| == |order| - 1 - i
  {
    var m := |order| - 1;
    if i < m {
      AfterAt(order[..m], i);
    }
  }

  lemma LatestHoldsIff(order: seq<Key>, key: Key, n: nat)
    requires Distinct(order) && key in order
    ensures key in Latest(order, n) <==> |After(order, key)| < n
  {
    var i :| 0 <= i < |order| && order[i] == key;
    var cut := Max(0, |order| - n);
    AfterAt(order, i);
    assert Latest(order, n) == order[cut..];
    if i >= cut {
      assert order[cut..][i - cut] == key;
    } else {
      assert forall j :: 0 <= j < |order| - cut ==> order[cut..][j] == order[cut + j] != key;
    }
  }

  /** A key is still known if and only if fewer than `maxKeys` other keys came since its last use. */
  lemma SurvivesIff(options: Options, calls: seq<Call>, key: Key)
    requires Used(calls, key)
    ensures key in Run(options, calls).buckets <==> |KeysSince(calls, key)| < Limit(options)
  {
    KeepsMostRecentKeys(options, calls);
    RecentKeysDistinct(calls);
    RecentIffUsed(calls, key);
    AfterIsSince(calls, key);
    DistinctSize(After(RecentKeys(calls), key), KeysSince(calls, key));
    LatestHoldsIff(RecentKeys(calls), key, Limit(options));
  }

  // ----- agreement with a limiter of unbounded memory --------------------------------------------

  function Unbounded(options: Options, calls: seq<Call>): map<Key, Bucket> {
    if calls == [] then map[]
    else
      var call, before := calls[|calls| - 1], Unbounded(options, calls[..|calls| - 1]);
      before[call.key := Spend(Current(options, before, call))]
  }

  function UnboundedAnswer(options: Options, calls: seq<Call>): bool
    requires calls != []
  {
    Current(options, Unbounded(options, calls[..|calls| - 1]), calls[|calls| - 1]).tokens >= 1.0
  }

  /** Between any two consecutive uses of `key`, fewer than `n` distinct other keys were called. */
  ghost predicate Undisturbed(calls: seq<Call>, key: Key, n: nat) {
    calls == [] ||
    (var before := calls[..|calls| - 1];
     Undisturbed(before, key, n)
     && (calls[|calls| - 1].key == key && Used(before, key) ==> |KeysSince(before, key)| < n))
  }

  lemma {:induction false} UnboundedKnowsUsed(options: Options, calls: seq<Call>, key: Key)
    ensures key in Unbounded(options, calls) <==> Used(calls, key)
  {
    if calls != [] {
      var n := |calls| - 1;
      UnboundedKnowsUsed(options, calls[..n], key);
      UsedSnoc(calls, key);
    }
  }

  lemma KnownIsUsed(options: Options, calls: seq<Call>, key: Key)
    ensures key in Run(options, calls).buckets ==> Used(calls, key)
  {
    KeepsMostRecentKeys(options, calls);
    RecentIffUsed(calls, key);
  }

  lemma {:induction false} SameBucket(options: Options, calls: seq<Call>, key: Key)
    requires Undisturbed(calls, key, Limit(options))
    ensures key in Run(options, calls).buckets ==>
      key in Unbounded(options, calls) && Run(options, calls).buckets[key] == Unbounded(options, calls)[key]
  {
    if calls != [] {
      var n := |calls| - 1;
      var before := calls[..n];
      SameBucket(options, before, key);
      if calls[n].key == key {
        UnboundedKnowsUsed(options, before, key);
        KnownIsUsed(options, before, key);
        if Used(before, key) {
          SurvivesIff(options, before, key);
        }
      }
    }
  }

  /**
   Forgetting is harmless: on a key that never had `maxKeys` others between two uses, every answer is
   that of a limiter with unbounded memory.
   */
  lemma {:induction false} AnswersAsIfUnbounded(options: Options, calls: seq<Call>)
    requires calls != [] && Undisturbed(calls, calls[|calls| - 1].key, Limit(options))
    ensures Answer(options, calls) == UnboundedAnswer(options, calls)
  {
    var n := |calls| - 1;
    var before, key := calls[..n], calls[n].key;
    SameBucket(options, before, key);
    UnboundedKnowsUsed(options, before, key);
    KnownIsUsed(options, before, key);
    if Used(before, key) {
      SurvivesIff(options, before, key);
    }
  }

  // ----- how much a key is allowed ---------------------------------------------------------------

  /** Since a key's bucket was created: when, the latest clock reading, and the calls allowed. */
  datatype Epoch = Epoch(created: real, latest: real, allowed: nat)

  ghost function EpochStep(options: Options, s: State, epoch: Epoch, key: Key, call: Call): Epoch {
    var count := if Allow(options, s, call).allowed then 1 else 0;
    if call.key != key then epoch
    else if key !in s.buckets then Epoch(call.now, call.now, count)
    else Epoch(epoch.created, if call.now > epoch.latest then call.now else epoch.latest, epoch.allowed + count)
  }

  ghost function EpochOf(options: Options, calls: seq<Call>, key: Key): Epoch {
    if calls == [] then Epoch(0.0, 0.0, 0)
    else
      var n := |calls| - 1;
      EpochStep(options, Run(options, calls[..n]), EpochOf(options, calls[..n], key), key, calls[n])
  }

  ghost function Budget(options: Options, from: real, to: real): real {
    options.capacity + (to - from) / 1000.0 * options.refillPerSec
  }

  lemma RefillAdds(options: Options, created: real, b: Bucket, now: real)
    ensures Refill(options, b, now).tokens - b.tokens
            <= Budget(options, created, now) - Budget(options, created, b.last)
  {
    var r := options.refillPerSec;
    assert (now - created) / 1000.0 * r - (b.last - created) / 1000.0 * r == (now - b.last) / 1000.0 * r;
  }

  lemma BudgetGrows(options: Options, created: real, a: real, b: real)
    requires options.refillPerSec >= 0.0 && a <= b
    ensures Budget(options, created, a) <= Budget(options, created, b)
  {
    assert (b - a) / 1000.0 * options.refillPerSec >= 0.0;
    assert (b - created) / 1000.0 * options.refillPerSec - (a - created) / 1000.0 * options.refillPerSec
      == (b - a) / 1000.0 * options.refillPerSec;
  }

  /** The bucket's tokens and the calls allowed together never exceed the budget at its last reading. */
  ghost predicate WithinBudget(options: Options, s: State, epoch: Epoch, key: Key) {
    && epoch.allowed as real <= Budget(options, epoch.created, epoch.latest)
    && (key in s.buckets ==>
          && s.buckets[key].last <= epoch.latest
          && epoch.allowed as real + s.buckets[key].tokens <= Budget(options, epoch.created, s.buckets[key].last))
  }

  lemma AllowStaysWithinBudget(options: Options, s: State, epoch: Epoch, key: Key, call: Call)
    requires options.capacity >= 0.0 && options.refillPerSec >= 0.0
    requires WithinBudget(options, s, epoch, key)
    ensures WithinBudget(options, Allow(options, s, call).state, EpochStep(options, s, epoch, key, call), key)
  {
    if call.key == key {
      if key in s.buckets {
        RefillAdds(options, epoch.created, s.buckets[key], call.now);
        BudgetGrows(options, epoch.created, call.now, EpochStep(options, s, epoch, key, call).latest);
        BudgetGrows(options, epoch.created, epoch.latest, EpochStep(options, s, epoch, key, call).latest);
      }
    }
  }

  /**
   While its bucket lives, a key is allowed at most capacity + refillPerSec * elapsed seconds, elapsed
   running from the bucket's creation to the latest reading of the clock, whatever the clock does.
   */
  lemma {:induction false} AllowedWithinBudget(options: Options, calls: seq<Call>, key: Key)
    requires options.capacity >= 0.0 && options.refillPerSec >= 0.0
    ensures var epoch := EpochOf(options, calls, key);
      epoch.allowed as real <= Budget(options, epoch.created, epoch.latest)
    ensures WithinBudget(options, Run(options, calls), EpochOf(options, calls, key), key)
  {
    if calls != [] {
      var n := |calls| - 1;
      AllowedWithinBudget(options, calls[..n], key);
      AllowStaysWithinBudget(options, Run(options, calls[..n]), EpochOf(options, calls[..n], key), key, calls[n]);
    }
  }

  // ----- facts for the object --------------------------------------------------------------------

  lemma DropOldest(s: State)
    requires Consistent(s) && Distinct(s.order) && s.order != []
    ensures var t := State(s.order[1..], s.buckets - {s.order[0]});
      Consistent(t) && Distinct(t.order) && t.buckets == Restrict(s.buckets, t.order)
  {
    assert forall k :: k in s.order <==> k == s.order[0] || k in s.order[1..];
  }

  lemma RestrictTwice(buckets: map<Key, Bucket>, order: seq<Key>)
    requires order != []
    ensures Restrict(Restrict(buckets, order), order[1..]) == Restrict(buckets, order[1..])
  {
    assert forall k :: k in order[1..] ==> k in order;
  }

  lemma RestrictAll(s: State)
    requires Consistent(s)
    ensures Restrict(s.buckets, s.order) == s.buckets
  {
  }

  /** Spending after the eviction is spending before it. */
  lemma SpendAfterEvict(buckets: map<Key, Bucket>, key: Key, full: Bucket, spent: Bucket, order: seq<Key>)
    ensures var kept := Restrict(buckets[key := full], order);
      Restrict(buckets[key := spent], order) == if key in kept then kept[key := spent] else kept
  {
  }

  lemma TouchKeepsConsistent(s: State, key: Key, bucket: Bucket)
    requires Consistent(s) && Distinct(s.order)
    ensures var t := State(Without(s.order, key) + [key], s.buckets[key := bucket]);
      Consistent(t) && Distinct(t.order)
  {
    WithoutMembers(s.order, key);
    WithoutDistinct(s.order, key);
    DistinctSnoc(Without(s.order, key), key);
  }

  // ----- the object -----------------------------------------------------------------------------

  class Limiter {
    const options: Options
    var order: seq<Key>
    var buckets: map<Key, Bucket>

    ghost predicate Valid()
      reads this
    {
      Consistent(State(order, buckets)) && Distinct(order)
    }

    constructor (options: Options)
      ensures Valid() && this.options == options && State(order, buckets) == Run(options, [])
    {
      this.options := options;
      order, buckets := [], map[];
    }

    /** Delete and set again: the key moves to the most recent end. */
    method Touch(key: Key, bucket: Bucket)
      requires Valid()
      modifies this
      ensures Valid() && order == Without(old(order), key) + [key] && buckets == old(buckets)[key := bucket]
    {
      TouchKeepsConsistent(State(order, buckets), key, bucket);
      order := Without(order, key) + [key];
      buckets := buckets[key := bucket];
    }

    method EvictIfNeeded()
      requires Valid()
      modifies this
      ensures Valid() && order == Latest(old(order), Limit(options)) && buckets == Restrict(old(buckets), order)
    {
      ghost var keys, all := order, buckets;
      RestrictAll(State(keys, all));
      while |order| > options.maxKeys
        invariant Valid() && |order| <= |keys| && order == keys[|keys| - |order|..]
        invariant |order| == |keys| || |order| >= Limit(options)
        invariant buckets == Restrict(all, order)
        decreases |order|
      {
        if |order| == 0 {
          return;
        }
        DropOldest(State(order, buckets));
        RestrictTwice(all, order);
        buckets := buckets - {order[0]};
        order := order[1..];
      }
    }

    method AllowCall(key: Key, now: real) returns (allowed: bool)
      requires Valid()
      modifies this
      ensures Valid()
      ensures Verdict(State(order, buckets), allowed) == Allow(options, State(old(order), old(buckets)), Call(key, now))
    {
      var bucket := Current(options, buckets, Call(key, now));
      Touch(key, bucket);
      EvictIfNeeded();
      SpendAfterEvict(old(buckets), key, bucket, Spend(bucket), order);
      allowed := bucket.tokens >= 1.0;
      if key in buckets {
        buckets := buckets[key := Spend(bucket)];
      }
    }
  }
}
