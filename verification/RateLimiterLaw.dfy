/**
 The law of the per-client limiter, without its buckets: a call is allowed exactly if it fits, together with the
 calls allowed since any earlier one, the capacity and what was refilled since that one.
 (app/security/rate-limiter.ts)
 */
module RateLimiterLaw {
  import opened RateLimiter

  /** A call of one key: when, and what the answer was. */
  datatype Visit = Visit(now: real, allowed: bool)

  function Granted(visits: seq<Visit>): nat {
    if visits == [] then 0
    else Granted(visits[..|visits| - 1]) + (if visits[|visits| - 1].allowed then 1 else 0)
  }

  function Refilled(options: Options, from: real, to: real): real {
    (to - from) / 1000.0 * options.refillPerSec
  }

  /** What the burst that starts with the j-th visit leaves at `now`. */
  function Room(options: Options, visits: seq<Visit>, j: nat, now: real): real
    requires j < |visits|
  {
    options.capacity + Refilled(options, visits[j].now, now) - Granted(visits[j..]) as real
  }

  /** One more call at `now` fits every burst that ends with it, its own included. */
  ghost predicate Fits(options: Options, visits: seq<Visit>, now: real) {
    options.capacity >= 1.0 && forall j: nat :: j < |visits| ==> Room(options, visits, j, now) >= 1.0
  }

  /** The key was used, and fewer than `maxKeys` others since. */
  ghost predicate Remembers(options: Options, calls: seq<Call>, key: Key) {
    Used(calls, key) && |KeysSince(calls, key)| < Limit(options)
  }

  /** The visits of a key since it was last forgotten, as of its last call. */
  ghost function Visits(options: Options, calls: seq<Call>, key: Key): seq<Visit>
    decreases |calls|, 0
  {
    if calls == [] then []
    else
      var n := |calls| - 1;
      if calls[n].key != key then Visits(options, calls[..n], key)
      else Remembered(options, calls[..n], key) + [Visit(calls[n].now, Answer(options, calls))]
  }

  /** Those that count for the next call. */
  ghost function Remembered(options: Options, calls: seq<Call>, key: Key): seq<Visit>
    decreases |calls|, 1
  {
    if Remembers(options, calls, key) then Visits(options, calls, key) else []
  }

  // ----- the bucket is the tightest burst -------------------------------------------------------------

  /** The bucket holds what the tightest burst leaves. */
  ghost predicate Tightest(options: Options, visits: seq<Visit>, b: Bucket) {
    && visits != [] && b.last == visits[|visits| - 1].now
    && (forall j: nat :: j < |visits| ==> b.tokens <= Room(options, visits, j, b.last))
    && exists j: nat :: j < |visits| && b.tokens == Room(options, visits, j, b.last)
  }

  lemma RefilledAdds(options: Options, a: real, b: real, c: real)
    ensures Refilled(options, a, c) == Refilled(options, a, b) + Refilled(options, b, c)
  {
    var x, y := (b - a) / 1000.0, (c - b) / 1000.0;
    assert (c - a) / 1000.0 == x + y;
  }

  lemma RoomMoves(options: Options, visits: seq<Visit>, j: nat, last: real, now: real)
    requires j < |visits|
    ensures Room(options, visits, j, now) == Room(options, visits, j, last) + Refilled(options, last, now)
  {
    RefilledAdds(options, visits[j].now, last, now);
  }

  lemma RoomSnoc(options: Options, visits: seq<Visit>, v: Visit, j: nat)
    requires j < |visits|
    ensures Room(options, visits + [v], j, v.now) == Room(options, visits, j, v.now) - (if v.allowed then 1.0 else 0.0)
  {
    var longer := (visits + [v])[j..];
    assert longer == visits[j..] + [v] && longer[..|longer| - 1] == visits[j..];
  }

  lemma RoomOfLast(options: Options, visits: seq<Visit>, v: Visit)
    ensures Room(options, visits + [v], |visits|, v.now) == options.capacity - (if v.allowed then 1.0 else 0.0)
  {
    assert (visits + [v])[|visits|..] == [v];
    assert [v][..0] == [] && Granted([]) == 0 && Granted([v]) == if v.allowed then 1 else 0;
    assert Refilled(options, v.now, v.now) == 0.0;
  }

  /** The bucket before it is spent: within the room of every earlier burst and the capacity, and equal to one. */
  ghost predicate Filled(options: Options, visits: seq<Visit>, b: Bucket) {
    && b.tokens <= options.capacity
    && (forall j: nat :: j < |visits| ==> b.tokens <= Room(options, visits, j, b.last))
    && (b.tokens == options.capacity || exists j: nat :: j < |visits| && b.tokens == Room(options, visits, j, b.last))
  }

  lemma RefillIsMin(options: Options, b: Bucket, now: real)
    ensures Refill(options, b, now)
         == Bucket(MinReal(options.capacity, b.tokens + Refilled(options, b.last, now)), now)
  {
  }

  lemma RefillFits(options: Options, visits: seq<Visit>, b: Bucket, now: real, j: nat)
    requires j < |visits| && b.tokens <= Room(options, visits, j, b.last)
    ensures b.tokens + Refilled(options, b.last, now) <= Room(options, visits, j, now)
    ensures b.tokens == Room(options, visits, j, b.last) ==>
            b.tokens + Refilled(options, b.last, now) == Room(options, visits, j, now)
  {
    RoomMoves(options, visits, j, b.last, now);
  }

  lemma RefillFills(options: Options, visits: seq<Visit>, b: Bucket, now: real)
    requires Tightest(options, visits, b)
    ensures Filled(options, visits, Refill(options, b, now))
  {
    var full := Refill(options, b, now);
    RefillIsMin(options, b, now);
    forall j: nat | j < |visits| ensures full.tokens <= Room(options, visits, j, now) {
      RefillFits(options, visits, b, now, j);
    }
    var j: nat :| j < |visits| && b.tokens == Room(options, visits, j, b.last);
    RefillFits(options, visits, b, now, j);
    assert full.tokens == options.capacity || full.tokens == Room(options, visits, j, full.last);
  }

  lemma FilledDecides(options: Options, visits: seq<Visit>, b: Bucket)
    requires Filled(options, visits, b)
    ensures b.tokens >= 1.0 <==> Fits(options, visits, b.last)
  {
  }

  lemma SpendIsTightest(options: Options, visits: seq<Visit>, b: Bucket)
    requires Filled(options, visits, b)
    ensures Tightest(options, visits + [Visit(b.last, b.tokens >= 1.0)], Spend(b))
  {
    var v := Visit(b.last, b.tokens >= 1.0);
    var longer := visits + [v];
    RoomOfLast(options, visits, v);
    forall j: nat | j < |visits|
      ensures Room(options, longer, j, v.now) == Room(options, visits, j, v.now) - (if v.allowed then 1.0 else 0.0)
    {
      RoomSnoc(options, visits, v, j);
    }
    if b.tokens == options.capacity {
      assert Spend(b).tokens == Room(options, longer, |visits|, v.now);
    } else {
      var j: nat :| j < |visits| && b.tokens == Room(options, visits, j, b.last);
      assert Spend(b).tokens == Room(options, longer, j, v.now);
    }
  }

  // ----- over runs --------------------------------------------------------------------------------

  lemma KnownIffRemembers(options: Options, calls: seq<Call>, key: Key)
    ensures key in Run(options, calls).buckets <==> Remembers(options, calls, key)
  {
    KnownIsUsed(options, calls, key);
    if Used(calls, key) {
      SurvivesIff(options, calls, key);
    }
  }

  lemma CurrentIsFilled(options: Options, calls: seq<Call>, call: Call)
    requires call.key in Run(options, calls).buckets ==>
      Tightest(options, Visits(options, calls, call.key), Run(options, calls).buckets[call.key])
    ensures var b := Current(options, Run(options, calls).buckets, call);
      b.last == call.now && Filled(options, Remembered(options, calls, call.key), b)
  {
    KnownIffRemembers(options, calls, call.key);
    if call.key in Run(options, calls).buckets {
      RefillFills(options, Visits(options, calls, call.key), Run(options, calls).buckets[call.key], call.now);
    }
  }

  lemma {:induction false} KnownIsTightest(options: Options, calls: seq<Call>, key: Key)
    ensures key in Run(options, calls).buckets ==>
      Tightest(options, Visits(options, calls, key), Run(options, calls).buckets[key])
  {
    if calls != [] {
      var n := |calls| - 1;
      var before, call := calls[..n], calls[n];
      KnownIsTightest(options, before, key);
      if call.key == key {
        CurrentIsFilled(options, before, call);
        SpendIsTightest(options, Remembered(options, before, key),
                        Current(options, Run(options, before).buckets, call));
      }
    }
  }

  /**
   Under any options and any clock: a call is allowed if and only if the capacity is at least one and, for each
   earlier call of its key since the key was last forgotten, the calls allowed from that one on leave room for one
   more within the capacity and what was refilled since.
   */
  lemma AllowedIffFits(options: Options, calls: seq<Call>)
    requires calls != []
    ensures var n := |calls| - 1;
      Answer(options, calls) <==> Fits(options, Remembered(options, calls[..n], calls[n].key), calls[n].now)
  {
    var n := |calls| - 1;
    KnownIsTightest(options, calls[..n], calls[n].key);
    CurrentIsFilled(options, calls[..n], calls[n]);
    FilledDecides(options, Remembered(options, calls[..n], calls[n].key),
                  Current(options, Run(options, calls[..n]).buckets, calls[n]));
  }
}
