/**
 Sampling and rate limiting of log events. (app/services/logging/controls.ts)

 The rate limiter is an integer token bucket refilled in whole intervals, one bucket per rule target.
 */
module LoggingControls {
  import opened Arithmetic
  import opened Basics

  datatype Name = Name(text: string)

  const STAR: Name := Name("*")

  datatype RateRule = RateRule(target: Name, limit: int, intervalMs: int, burst: Option<int>)
  datatype SamplingRule = SamplingRule(target: Name, sampleRate: real)
  datatype Sampling = Sampling(defaultSampleRate: Option<real>, rules: seq<SamplingRule>)
  datatype Config = Config(sampling: Option<Sampling>, rateRules: seq<RateRule>)

  datatype Bucket = Bucket(tokens: int, lastRefillMs: int)
  datatype Metrics = Metrics(published: nat, droppedBySampling: nat, droppedByRateLimit: nat)
  datatype State = State(buckets: map<Name, Bucket>, metrics: Metrics)

  datatype Decision = Permit | DropSampling | DropRateLimit
  datatype Verdict = Verdict(decision: Decision, state: State)
  datatype RateVerdict = RateVerdict(allow: bool, buckets: map<Name, Bucket>)

  /** What the configuration schema guarantees of every rate rule. */
  ghost predicate ValidRule(rule: RateRule) {
    rule.limit >= 0 && rule.intervalMs > 0 && (rule.burst.Some? ==> rule.burst.value >= 0)
  }

  function Capacity(rule: RateRule): int {
    rule.limit + (if rule.burst.Some? then rule.burst.value else 0)
  }

  // ----- selecting a rule -----------------------------------------------------------------------

  /** The position of the first rule with this target, or the number of rules. */
  function FirstRule(rules: seq<RateRule>, target: Name): (i: nat)
    ensures i <= |rules|
    ensures i < |rules| ==> rules[i].target == target
    ensures forall j :: 0 <= j < i ==> rules[j].target != target
  {
    if rules == [] then 0
    else if rules[0].target == target then 0
    else
      var rest := FirstRule(rules[1..], target);
      assert forall j :: 0 < j < |rules| ==> rules[j] == rules[1..][j - 1];
      rest + 1
  }

  function Chosen(rules: seq<RateRule>, event: Name): Option<RateRule> {
    var exact, wild := FirstRule(rules, event), FirstRule(rules, STAR);
    if exact < |rules| then Some(rules[exact])
    else if wild < |rules| then Some(rules[wild])
    else None
  }

  /** The one-pass search with a remembered wildcard finds what the two searches find. */
  method SelectRateLimitRule(rules: seq<RateRule>, event: Name) returns (rule: Option<RateRule>)
    ensures rule == Chosen(rules, event)
  {
    var wildcard := None;
    for i := 0 to |rules|
      invariant forall j :: 0 <= j < i ==> rules[j].target != event
      invariant wildcard == None <==> forall j :: 0 <= j < i ==> rules[j].target != STAR
      invariant wildcard.Some? ==> exists j :: 0 <= j < i && FirstRule(rules, STAR) == j && wildcard.value == rules[j]
    {
      if rules[i].target == event {
        return Some(rules[i]);
      }
      if rules[i].target == STAR && wildcard == None {
        wildcard := Some(rules[i]);
      }
    }
    return wildcard;
  }

  // ----- the bucket -----------------------------------------------------------------------------

  function Refill(b: Bucket, rule: RateRule, now: int): Bucket
    requires rule.intervalMs > 0
  {
    if now <= b.lastRefillMs then b
    else
      var intervals := (now - b.lastRefillMs) / rule.intervalMs;
      if intervals <= 0 then b
      else Bucket(Min(b.tokens + intervals * rule.limit, Capacity(rule)), b.lastRefillMs + intervals * rule.intervalMs)
  }

  /** Refilling by `k` intervals. */
  function Advance(b: Bucket, rule: RateRule, k: int): Bucket {
    if k <= 0 then b
    else Bucket(Min(b.tokens + k * rule.limit, Capacity(rule)), b.lastRefillMs + k * rule.intervalMs)
  }

  function Intervals(b: Bucket, rule: RateRule, now: int): int
    requires rule.intervalMs > 0
  {
    (now - b.lastRefillMs) / rule.intervalMs
  }

  lemma RefillAdvances(b: Bucket, rule: RateRule, now: int)
    requires rule.intervalMs > 0
    ensures Refill(b, rule, now) == Advance(b, rule, Intervals(b, rule, now))
    ensures now <= b.lastRefillMs ==> Intervals(b, rule, now) <= 0
  {
    var n, e := rule.intervalMs, now - b.lastRefillMs;
    assert e == n * (e / n) + e % n;
    if e <= 0 && e / n > 0 { MulGap(n, e / n, 0); }
  }

  lemma AdvanceAdds(b: Bucket, rule: RateRule, j: int, k: int)
    requires ValidRule(rule) && j >= 0 && k >= 0
    ensures Advance(Advance(b, rule, j), rule, k) == Advance(b, rule, j + k)
  {
    assert (j + k) * rule.limit == j * rule.limit + k * rule.limit;
    assert (j + k) * rule.intervalMs == j * rule.intervalMs + k * rule.intervalMs;
    assert j * rule.limit >= 0 && k * rule.limit >= 0;
  }

  /** Intervals counted from an advanced bucket. */
  lemma IntervalsAfter(b: Bucket, rule: RateRule, k: int, now: int)
    requires rule.intervalMs > 0 && k >= 0
    ensures Intervals(Advance(b, rule, k), rule, now) == Intervals(b, rule, now) - k
  {
    var n, e := rule.intervalMs, now - b.lastRefillMs;
    assert e == n * (e / n) + e % n;
    assert n * (e / n - k) == n * (e / n) - n * k;
    DivUnique(e - n * k, e / n - k, e % n, n);
  }

  lemma IntervalsGrow(b: Bucket, rule: RateRule, early: int, late: int)
    requires rule.intervalMs > 0 && early <= late
    ensures Intervals(b, rule, early) <= Intervals(b, rule, late)
  {
    var n, x, y := rule.intervalMs, early - b.lastRefillMs, late - b.lastRefillMs;
    assert x == n * (x / n) + x % n && y == n * (y / n) + y % n;
    if x / n > y / n { MulGap(n, x / n, y / n); }
  }

  /**
   Refilling is additive in time under any clock: refilling to one reading and then to another is
   refilling once to the later of the two.
   */
  lemma RefillIsAdditive(b: Bucket, rule: RateRule, t1: int, t2: int)
    requires ValidRule(rule)
    ensures Refill(Refill(b, rule, t1), rule, t2) == Refill(b, rule, Max(t1, t2))
  {
    var mid := Refill(b, rule, t1);
    var j := Max(0, Intervals(b, rule, t1));
    RefillAdvances(b, rule, t1);
    RefillAdvances(mid, rule, t2);
    RefillAdvances(b, rule, Max(t1, t2));
    assert mid == Advance(b, rule, j);
    IntervalsAfter(b, rule, j, t2);
    IntervalsGrow(b, rule, Min(t1, t2), Max(t1, t2));
    AdvanceAdds(b, rule, j, Max(0, Intervals(b, rule, t2) - j));
  }

  // ----- one evaluation -------------------------------------------------------------------------

  function EvaluateRateLimit(rules: seq<RateRule>, event: Name, now: int, buckets: map<Name, Bucket>): RateVerdict
    requires forall r :: r in rules ==> ValidRule(r)
  {
    var chosen := Chosen(rules, event);
    if chosen.None? then RateVerdict(true, buckets)
    else
      var rule := chosen.value;
      var key := if rule.target == STAR then STAR else event;
      assert rule in rules;
      var judged := Judge(rule, if key in buckets then Some(buckets[key]) else None, now);
      RateVerdict(judged.allow, buckets[key := judged.bucket])
  }

  datatype Judgement = Judgement(allow: bool, bucket: Bucket)

  /** One rule's bucket judging one event. */
  function Judge(rule: RateRule, previous: Option<Bucket>, now: int): Judgement
    requires ValidRule(rule)
  {
    if Capacity(rule) <= 0 then Judgement(false, Bucket(0, now))
    else
      var refilled := if previous.Some? then Refill(previous.value, rule, now) else Bucket(Capacity(rule), now);
      if refilled.tokens <= 0 then Judgement(false, refilled)
      else Judgement(true, refilled.(tokens := refilled.tokens - 1))
  }

  function FirstSampling(rules: seq<SamplingRule>, target: Name): (i: nat)
    ensures i <= |rules|
    ensures i < |rules| ==> rules[i].target == target
    ensures forall j :: 0 <= j < i ==> rules[j].target != target
  {
    if rules == [] then 0
    else if rules[0].target == target then 0
    else
      var rest := FirstSampling(rules[1..], target);
      assert forall j :: 0 < j < |rules| ==> rules[j] == rules[1..][j - 1];
      rest + 1
  }

  function ChosenSampling(rules: seq<SamplingRule>, event: Name): Option<SamplingRule> {
    var exact, wild := FirstSampling(rules, event), FirstSampling(rules, STAR);
    if exact < |rules| then Some(rules[exact])
    else if wild < |rules| then Some(rules[wild])
    else None
  }

  method SelectSamplingRule(rules: seq<SamplingRule>, event: Name) returns (rule: Option<SamplingRule>)
    ensures rule == ChosenSampling(rules, event)
  {
    var wildcard: Option<SamplingRule> := None;
    for i := 0 to |rules|
      invariant FirstSampling(rules, event) >= i
      invariant wildcard.None? ==> FirstSampling(rules, STAR) >= i
      invariant wildcard.Some? ==> FirstSampling(rules, STAR) < i && wildcard.value == rules[FirstSampling(rules, STAR)]
    {
      if rules[i].target == event {
        return Some(rules[i]);
      }
      if rules[i].target == STAR && wildcard.None? {
        wildcard := Some(rules[i]);
      }
    }
    return wildcard;
  }

  function SampleRate(sampling: Sampling, event: Name): real {
    var chosen := ChosenSampling(sampling.rules, event);
    if chosen.Some? then chosen.value.sampleRate
    else if sampling.defaultSampleRate.Some? then sampling.defaultSampleRate.value
    else 1.0
  }

  predicate Sampled(config: Config, event: Name, random: real) {
    config.sampling.None? ||
    (var rate := SampleRate(config.sampling.value, event);
     rate >= 1.0 || (rate > 0.0 && random < rate))
  }

  ghost predicate ValidConfig(config: Config) {
    forall r :: r in config.rateRules ==> ValidRule(r)
  }

  function Evaluate(config: Option<Config>, event: Name, now: int, random: real, s: State): Verdict
    requires config.Some? ==> ValidConfig(config.value)
  {
    if config.None? then Verdict(Permit, State(s.buckets, s.metrics.(published := s.metrics.published + 1)))
    else if !Sampled(config.value, event, random) then
      Verdict(DropSampling, State(s.buckets, s.metrics.(droppedBySampling := s.metrics.droppedBySampling + 1)))
    else
      var rate := EvaluateRateLimit(config.value.rateRules, event, now, s.buckets);
      if rate.allow then Verdict(Permit, State(rate.buckets, s.metrics.(published := s.metrics.published + 1)))
      else
        Verdict(DropRateLimit,
                State(rate.buckets, s.metrics.(droppedByRateLimit := s.metrics.droppedByRateLimit + 1)))
  }

  // ----- how many events a rule lets through ------------------------------------------------------

  datatype Occurrence = Occurrence(event: Name, now: int)

  function Buckets(rules: seq<RateRule>, history: seq<Occurrence>): map<Name, Bucket>
    requires forall r :: r in rules ==> ValidRule(r)
  {
    if history == [] then map[]
    else
      var n := |history| - 1;
      EvaluateRateLimit(rules, history[n].event, history[n].now, Buckets(rules, history[..n])).buckets
  }

  /** The calls a rule has judged: the first and latest reading, how many, and how many were allowed. */
  datatype Count = Count(first: int, latest: int, judged: nat, allowed: nat)

  ghost function CountStep(rules: seq<RateRule>, buckets: map<Name, Bucket>, c: Count, rule: RateRule,
                           o: Occurrence): Count
    requires forall r :: r in rules ==> ValidRule(r)
  {
    if Chosen(rules, o.event) != Some(rule) then c
    else
      var more := if EvaluateRateLimit(rules, o.event, o.now, buckets).allow then 1 else 0;
      if c.judged == 0 then Count(o.now, o.now, 1, more)
      else Count(c.first, Max(c.latest, o.now), c.judged + 1, c.allowed + more)
  }

  ghost function CountOf(rules: seq<RateRule>, history: seq<Occurrence>, rule: RateRule): Count
    requires forall r :: r in rules ==> ValidRule(r)
  {
    if history == [] then Count(0, 0, 0, 0)
    else
      var n := |history| - 1;
      CountStep(rules, Buckets(rules, history[..n]), CountOf(rules, history[..n], rule), rule, history[n])
  }

  /** A rule that can be chosen at all: the first with its target. */
  ghost predicate Effective(rules: seq<RateRule>, rule: RateRule) {
    FirstRule(rules, rule.target) < |rules| && rules[FirstRule(rules, rule.target)] == rule
  }

  /** The chosen rule is an effective one, and its bucket is filed under its own target. */
  lemma ChosenIsEffective(rules: seq<RateRule>, event: Name)
    requires Chosen(rules, event).Some?
    ensures Effective(rules, Chosen(rules, event).value)
    ensures var rule := Chosen(rules, event).value;
      (if rule.target == STAR then STAR else event) == rule.target && rule in rules
  {
  }

  /** Tokens left and events allowed together never exceed capacity plus whole intervals granted. */
  ghost predicate GrantedOne(b: Bucket, rule: RateRule, c: Count)
    requires ValidRule(rule)
  {
    && c.allowed <= c.judged && c.first <= c.latest
    && if Capacity(rule) <= 0 then c.allowed == 0 else
       && 0 <= b.tokens <= Capacity(rule)
       && c.first <= b.lastRefillMs <= c.latest
       && (b.lastRefillMs - c.first) % rule.intervalMs == 0
       && c.allowed + b.tokens <= Capacity(rule) + (b.lastRefillMs - c.first) / rule.intervalMs * rule.limit
  }

  ghost predicate Granted(buckets: map<Name, Bucket>, rule: RateRule, c: Count)
    requires ValidRule(rule)
  {
    if rule.target in buckets then c.judged > 0 && GrantedOne(buckets[rule.target], rule, c)
    else c == Count(0, 0, 0, 0)
  }

  /** A refill grants at most one limit per whole interval it advances. */
  lemma RefillGrants(b: Bucket, rule: RateRule, first: int, now: int)
    requires ValidRule(rule) && Capacity(rule) > 0 && 0 <= b.tokens <= Capacity(rule)
    requires first <= b.lastRefillMs && (b.lastRefillMs - first) % rule.intervalMs == 0
    ensures var r := Refill(b, rule, now);
      && 0 <= r.tokens <= Capacity(rule) && b.lastRefillMs <= r.lastRefillMs <= Max(b.lastRefillMs, now)
      && (r.lastRefillMs - first) % rule.intervalMs == 0
      && r.tokens + (b.lastRefillMs - first) / rule.intervalMs * rule.limit
         <= b.tokens + (r.lastRefillMs - first) / rule.intervalMs * rule.limit
  {
    var n, r := rule.intervalMs, Refill(b, rule, now);
    var k, q := Max(0, Intervals(b, rule, now)), (b.lastRefillMs - first) / n;
    RefillAdvances(b, rule, now);
    assert r == Advance(b, rule, k);
    assert b.lastRefillMs - first == n * q;
    assert n * (q + k) == n * q + k * n;
    DivUnique(r.lastRefillMs - first, q + k, 0, n);
    assert k * rule.limit >= 0 && (q + k) * rule.limit == q * rule.limit + k * rule.limit;
    if k > 0 {
      var e := now - b.lastRefillMs;
      assert e == n * (e / n) + e % n && e / n == k;
    }
  }

  lemma MulLe(p: int, q: int, l: int)
    requires p <= q && l >= 0
    ensures p * l <= q * l
  {
  }

  lemma JudgeGrants(rule: RateRule, b: Bucket, c: Count, now: int)
    requires ValidRule(rule) && GrantedOne(b, rule, c)
    ensures var j := Judge(rule, Some(b), now);
      GrantedOne(j.bucket, rule,
                 Count(c.first, Max(c.latest, now), c.judged + 1, c.allowed + (if j.allow then 1 else 0)))
  {
    if Capacity(rule) > 0 {
      RefillGrants(b, rule, c.first, now);
    }
  }

  lemma FirstJudgeGrants(rule: RateRule, now: int)
    requires ValidRule(rule)
    ensures var j := Judge(rule, None, now);
      GrantedOne(j.bucket, rule, Count(now, now, 1, if j.allow then 1 else 0))
  {
    assert (now - now) / rule.intervalMs * rule.limit == 0;
  }

  lemma EvaluateGrants(rules: seq<RateRule>, buckets: map<Name, Bucket>, rule: RateRule, c: Count, o: Occurrence)
    requires forall r :: r in rules ==> ValidRule(r)
    requires Effective(rules, rule) && ValidRule(rule) && Granted(buckets, rule, c)
    ensures Granted(EvaluateRateLimit(rules, o.event, o.now, buckets).buckets, rule,
                    CountStep(rules, buckets, c, rule, o))
  {
    var chosen := Chosen(rules, o.event);
    if chosen.Some? {
      ChosenIsEffective(rules, o.event);
      if chosen.value == rule {
        FirstJudgeGrants(rule, o.now);
        if rule.target in buckets {
          JudgeGrants(rule, buckets[rule.target], c, o.now);
        }
      }
    }
  }

  lemma DivMonotone(a: int, b: int, n: int)
    requires n > 0 && a <= b
    ensures a / n <= b / n
  {
    assert a == n * (a / n) + a % n && b == n * (b / n) + b % n;
    if a / n > b / n { MulGap(n, a / n, b / n); }
  }

  lemma {:induction false} GrantedAlways(rules: seq<RateRule>, history: seq<Occurrence>, rule: RateRule)
    requires (forall r :: r in rules ==> ValidRule(r)) && Effective(rules, rule) && ValidRule(rule)
    ensures Granted(Buckets(rules, history), rule, CountOf(rules, history, rule))
  {
    if history != [] {
      var n := |history| - 1;
      GrantedAlways(rules, history[..n], rule);
      EvaluateGrants(rules, Buckets(rules, history[..n]), rule, CountOf(rules, history[..n], rule), history[n]);
    }
  }

  /**
   Under fixed rules and any clock, a rule's tokens stay between zero and its capacity, and it has let
   through at most capacity + limit * floor((latest - first) / interval) of the events it judged.
   */
  lemma AllowedByRule(rules: seq<RateRule>, history: seq<Occurrence>, rule: RateRule)
    requires (forall r :: r in rules ==> ValidRule(r)) && Effective(rules, rule) && ValidRule(rule)
    ensures var c, buckets := CountOf(rules, history, rule), Buckets(rules, history);
      && (c.judged > 0 ==>
            c.allowed <= Max(0, Capacity(rule)) + (c.latest - c.first) / rule.intervalMs * rule.limit)
      && (rule.target in buckets && Capacity(rule) > 0 ==> 0 <= buckets[rule.target].tokens <= Capacity(rule))
  {
    GrantedAlways(rules, history, rule);
    var c, buckets := CountOf(rules, history, rule), Buckets(rules, history);
    if rule.target in buckets {
      BoundFromGrant(buckets[rule.target], rule, c);
    }
  }

  lemma BoundFromGrant(b: Bucket, rule: RateRule, c: Count)
    requires ValidRule(rule) && GrantedOne(b, rule, c)
    ensures c.allowed <= Max(0, Capacity(rule)) + (c.latest - c.first) / rule.intervalMs * rule.limit
  {
    var n := rule.intervalMs;
    var q := (c.latest - c.first) / n;
    DivMonotone(0, c.latest - c.first, n);
    MulLe(0, q, rule.limit);
    if Capacity(rule) > 0 {
      DivMonotone(b.lastRefillMs - c.first, c.latest - c.first, n);
      MulLe((b.lastRefillMs - c.first) / n, q, rule.limit);
    }
  }
}
