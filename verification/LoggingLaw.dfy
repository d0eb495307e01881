/**
 The law of a log event's rate rule, without its bucket: an event is let through exactly if it fits, together with
 those let through since any earlier one, the capacity and what the whole intervals since that one granted.
 (app/services/logging/controls.ts)
 */
module LoggingLaw {
  import opened Arithmetic
  import opened Basics
  import opened LoggingControls

  /** An event a rule judged: the whole intervals since its first one, and the answer. */
  datatype Visit = Visit(tick: int, allowed: bool)

  function Passed(visits: seq<Visit>): nat {
    if visits == [] then 0
    else Passed(visits[..|visits| - 1]) + (if visits[|visits| - 1].allowed then 1 else 0)
  }

  /** The whole intervals between the first and the latest reading of the clock. */
  function Tick(rule: RateRule, c: Count): int
    requires ValidRule(rule)
  {
    (c.latest - c.first) / rule.intervalMs
  }

  /** The readings with one more event at `now`. */
  function Later(c: Count, now: int): Count {
    if c.judged == 0 then Count(now, now, 1, 0) else c.(latest := Max(c.latest, now))
  }

  function GrantedSince(rule: RateRule, from: int, to: int): int {
    (to - from) * rule.limit
  }

  /** The limit and the burst, if there is one. */
  function Quota(rule: RateRule): int {
    match rule.burst
    case None => rule.limit
    case Some(burst) => rule.limit + burst
  }

  /** What the events from the j-th on leave at `tick`. */
  function Room(rule: RateRule, visits: seq<Visit>, j: nat, tick: int): int
    requires j < |visits|
  {
    Quota(rule) + GrantedSince(rule, visits[j].tick, tick) - Passed(visits[j..])
  }

  ghost predicate Fits(rule: RateRule, visits: seq<Visit>, tick: int) {
    Quota(rule) >= 1 && forall j: nat :: j < |visits| ==> Room(rule, visits, j, tick) >= 1
  }

  ghost predicate ValidRules(rules: seq<RateRule>) {
    forall r :: r in rules ==> ValidRule(r)
  }

  /** The answer to the last event of a history. */
  function Answer(rules: seq<RateRule>, history: seq<Occurrence>): bool
    requires ValidRules(rules) && history != []
  {
    var n := |history| - 1;
    EvaluateRateLimit(rules, history[n].event, history[n].now, Buckets(rules, history[..n])).allow
  }

  /** The events a rule judged. */
  ghost function Visits(rules: seq<RateRule>, history: seq<Occurrence>, rule: RateRule): seq<Visit>
    requires ValidRules(rules) && ValidRule(rule)
  {
    if history == [] then []
    else
      var n := |history| - 1;
      Visits(rules, history[..n], rule)
      + (if Chosen(rules, history[n].event) != Some(rule) then []
         else [Visit(Tick(rule, CountOf(rules, history, rule)), Answer(rules, history))])
  }

  // ----- the bucket is the tightest stretch -----------------------------------------------------------

  /** The bucket is dated by the last whole interval, and holds what the tightest stretch leaves. */
  ghost predicate Tightest(rule: RateRule, visits: seq<Visit>, b: Bucket, c: Count)
    requires ValidRule(rule)
  {
    && c.judged > 0 && b.lastRefillMs == c.first + Tick(rule, c) * rule.intervalMs && c.first <= c.latest
    && visits != [] && visits[|visits| - 1].tick == Tick(rule, c)
    && (forall j: nat :: j < |visits| ==> b.tokens <= Room(rule, visits, j, Tick(rule, c)))
    && exists j: nat :: j < |visits| && b.tokens == Room(rule, visits, j, Tick(rule, c))
  }

  /** The same before an event at `tick` is judged. */
  ghost predicate Filled(rule: RateRule, visits: seq<Visit>, tokens: int, tick: int) {
    && tokens <= Capacity(rule)
    && (forall j: nat :: j < |visits| ==> tokens <= Room(rule, visits, j, tick))
    && (tokens == Capacity(rule) || exists j: nat :: j < |visits| && tokens == Room(rule, visits, j, tick))
  }

  lemma RoomMoves(rule: RateRule, visits: seq<Visit>, j: nat, early: int, late: int)
    requires j < |visits|
    ensures Room(rule, visits, j, late) == Room(rule, visits, j, early) + GrantedSince(rule, early, late)
  {
    var l, t := rule.limit, visits[j].tick;
    assert (late - t) * l == (early - t) * l + (late - early) * l;
  }

  lemma RoomSnoc(rule: RateRule, visits: seq<Visit>, v: Visit, j: nat)
    requires j < |visits|
    ensures Room(rule, visits + [v], j, v.tick) == Room(rule, visits, j, v.tick) - (if v.allowed then 1 else 0)
  {
    var longer := (visits + [v])[j..];
    assert longer == visits[j..] + [v] && longer[..|longer| - 1] == visits[j..];
  }

  lemma RoomOfLast(rule: RateRule, visits: seq<Visit>, v: Visit)
    ensures Room(rule, visits + [v], |visits|, v.tick) == Capacity(rule) - (if v.allowed then 1 else 0)
  {
    assert (visits + [v])[|visits|..] == [v];
    assert [v][..0] == [] && Passed([]) == 0 && Passed([v]) == if v.allowed then 1 else 0;
  }

  /** A refill brings the bucket to the last whole interval before the latest reading. */
  lemma RefillDates(rule: RateRule, b: Bucket, c: Count, now: int)
    requires ValidRule(rule) && c.judged > 0 && c.first <= c.latest
    requires b.lastRefillMs == c.first + Tick(rule, c) * rule.intervalMs
    ensures var k := Tick(rule, Later(c, now)) - Tick(rule, c);
      k >= 0 && Refill(b, rule, now) == Advance(b, rule, k)
  {
    var origin := Bucket(0, c.first);
    var q := Tick(rule, c);
    DivMonotone(0, c.latest - c.first, rule.intervalMs);
    RefillAdvances(b, rule, now);
    IntervalsAfter(origin, rule, q, now);
    assert Advance(origin, rule, q).lastRefillMs == b.lastRefillMs;
    assert Intervals(b, rule, now) == Intervals(origin, rule, now) - q;
    IntervalsGrow(origin, rule, now, Max(c.latest, now));
    IntervalsGrow(origin, rule, c.latest, Max(c.latest, now));
  }

  /** What a refill adds, and the date it leaves. */
  lemma {:induction false} RefillIsMin(rule: RateRule, b: Bucket, c: Count, now: int)
    requires ValidRule(rule) && c.judged > 0 && c.first <= c.latest && b.tokens <= Capacity(rule)
    requires b.lastRefillMs == c.first + Tick(rule, c) * rule.intervalMs
    ensures var s, t := Tick(rule, c), Tick(rule, Later(c, now));
      Refill(b, rule, now)
      == Bucket(Min(b.tokens + GrantedSince(rule, s, t), Capacity(rule)), c.first + t * rule.intervalMs)
  {
    var s, t := Tick(rule, c), Tick(rule, Later(c, now));
    RefillDates(rule, b, c, now);
    assert (t - s) * rule.intervalMs == t * rule.intervalMs - s * rule.intervalMs;
  }

  /** Tokens that grow with the room stay within it, up to the capacity. */
  lemma {:induction false} MoreFills(rule: RateRule, visits: seq<Visit>, tokens: int, s: int, t: int)
    requires forall j: nat :: j < |visits| ==> tokens <= Room(rule, visits, j, s)
    requires exists j: nat :: j < |visits| && tokens == Room(rule, visits, j, s)
    ensures Filled(rule, visits, Min(tokens + GrantedSince(rule, s, t), Capacity(rule)), t)
  {
    forall j: nat | j < |visits|
      ensures Room(rule, visits, j, t) == Room(rule, visits, j, s) + GrantedSince(rule, s, t)
    {
      RoomMoves(rule, visits, j, s, t);
    }
    var j: nat :| j < |visits| && tokens == Room(rule, visits, j, s);
    assert tokens + GrantedSince(rule, s, t) == Room(rule, visits, j, t);
  }

  lemma {:induction false} RefillFills(rule: RateRule, visits: seq<Visit>, b: Bucket, c: Count, now: int)
    requires ValidRule(rule) && Tightest(rule, visits, b, c)
    ensures var t := Tick(rule, Later(c, now));
      && Filled(rule, visits, Refill(b, rule, now).tokens, t)
      && Refill(b, rule, now).lastRefillMs == c.first + t * rule.intervalMs
  {
    CapsLast(rule, visits, b, c);
    RefillIsMin(rule, b, c, now);
    MoreFills(rule, visits, b.tokens, Tick(rule, c), Tick(rule, Later(c, now)));
  }

  /** A bucket never holds more than its capacity. */
  lemma {:induction false} CapsLast(rule: RateRule, visits: seq<Visit>, b: Bucket, c: Count)
    requires ValidRule(rule) && Tightest(rule, visits, b, c)
    ensures b.tokens <= Capacity(rule)
  {
    var n := |visits| - 1;
    assert b.tokens <= Room(rule, visits, n, Tick(rule, c));
    assert visits[n..] == [visits[n]];
  }

  lemma {:induction false} SpendIsTightest(rule: RateRule, visits: seq<Visit>, tokens: int, tick: int)
    requires Filled(rule, visits, tokens, tick)
    ensures tokens >= 1 <==> Fits(rule, visits, tick)
    ensures var v := Visit(tick, tokens >= 1);
      var left := tokens - (if v.allowed then 1 else 0);
      && (forall j: nat :: j < |visits + [v]| ==> left <= Room(rule, visits + [v], j, tick))
      && exists j: nat :: j < |visits + [v]| && left == Room(rule, visits + [v], j, tick)
  {
    var v := Visit(tick, tokens >= 1);
    var longer := visits + [v];
    RoomOfLast(rule, visits, v);
    forall j: nat | j < |visits|
      ensures Room(rule, longer, j, tick) == Room(rule, visits, j, tick) - (if v.allowed then 1 else 0)
    {
      RoomSnoc(rule, visits, v, j);
    }
    if tokens == Capacity(rule) {
      assert tokens - (if v.allowed then 1 else 0) == Room(rule, longer, |visits|, tick);
    } else {
      var j: nat :| j < |visits| && tokens == Room(rule, visits, j, tick);
      assert tokens - (if v.allowed then 1 else 0) == Room(rule, longer, j, tick);
    }
  }

  // ----- over histories -----------------------------------------------------------------------------

  /** A rule's bucket and count against its visits. */
  ghost predicate Follows(rule: RateRule, buckets: map<Name, Bucket>, visits: seq<Visit>, c: Count)
    requires ValidRule(rule)
  {
    if rule.target in buckets then Capacity(rule) > 0 ==> Tightest(rule, visits, buckets[rule.target], c)
    else visits == [] && c.judged == 0
  }

  /** Dated by the last whole interval. */
  ghost predicate Dated(rule: RateRule, lastRefillMs: int, c: Count)
    requires ValidRule(rule)
  {
    c.judged > 0 && c.first <= c.latest && lastRefillMs == c.first + Tick(rule, c) * rule.intervalMs
  }

  /** What is left after a judgement is what the tightest stretch leaves. */
  lemma {:induction false} LeftIsTightest(rule: RateRule, visits: seq<Visit>, tokens: int, lastRefillMs: int, c: Count)
    requires ValidRule(rule) && Filled(rule, visits, tokens, Tick(rule, c)) && Dated(rule, lastRefillMs, c)
    ensures tokens >= 1 <==> Fits(rule, visits, Tick(rule, c))
    ensures var v := Visit(Tick(rule, c), tokens >= 1);
      Tightest(rule, visits + [v], Bucket(tokens - (if v.allowed then 1 else 0), lastRefillMs), c)
  {
    SpendIsTightest(rule, visits, tokens, Tick(rule, c));
  }

  lemma {:induction false} FirstDated(rule: RateRule, now: int)
    requires ValidRule(rule)
    ensures Tick(rule, Count(now, now, 1, 0)) == 0 && Dated(rule, now, Count(now, now, 1, 0))
  {
  }

  lemma {:induction false} FirstFollows(rule: RateRule, now: int)
    requires ValidRule(rule) && Capacity(rule) > 0
    ensures var j, c := Judge(rule, None, now), Count(now, now, 1, 0);
      && (j.allow <==> Fits(rule, [], Tick(rule, c)))
      && Tightest(rule, [] + [Visit(Tick(rule, c), j.allow)], j.bucket, c)
  {
    FirstDated(rule, now);
    LeftIsTightest(rule, [], Capacity(rule), now, Count(now, now, 1, 0));
  }

  /** One judgement, on values. */
  lemma {:induction false} JudgeFollows(rule: RateRule, b: Bucket, visits: seq<Visit>, c: Count, now: int)
    requires ValidRule(rule) && Capacity(rule) > 0 && Tightest(rule, visits, b, c)
    ensures var j, d := Judge(rule, Some(b), now), Later(c, now);
      && (j.allow <==> Fits(rule, visits, Tick(rule, d)))
      && Tightest(rule, visits + [Visit(Tick(rule, d), j.allow)], j.bucket, d)
  {
    var full := Refill(b, rule, now);
    RefillFills(rule, visits, b, c, now);
    LeftIsTightest(rule, visits, full.tokens, full.lastRefillMs, Later(c, now));
  }

  lemma {:induction false} VisitsSnoc(rules: seq<RateRule>, before: seq<Occurrence>, o: Occurrence, rule: RateRule)
    requires ValidRules(rules) && ValidRule(rule)
    ensures var all := before + [o];
      && Buckets(rules, all) == EvaluateRateLimit(rules, o.event, o.now, Buckets(rules, before)).buckets
      && CountOf(rules, all, rule) == CountStep(rules, Buckets(rules, before), CountOf(rules, before, rule), rule, o)
      && Visits(rules, all, rule) == Visits(rules, before, rule)
           + (if Chosen(rules, o.event) != Some(rule) then []
              else [Visit(Tick(rule, CountOf(rules, all, rule)),
                          EvaluateRateLimit(rules, o.event, o.now, Buckets(rules, before)).allow)])
  {
    assert (before + [o])[..|before|] == before;
  }

  lemma {:induction false} SameCount(rule: RateRule, visits: seq<Visit>, b: Bucket, c: Count, d: Count)
    requires ValidRule(rule) && Tightest(rule, visits, b, c)
    requires d.first == c.first && d.latest == c.latest && d.judged > 0
    ensures Tightest(rule, visits, b, d)
  {
  }

  ghost predicate FollowsHistory(rules: seq<RateRule>, history: seq<Occurrence>, rule: RateRule)
    requires ValidRules(rules) && ValidRule(rule)
  {
    Follows(rule, Buckets(rules, history), Visits(rules, history, rule), CountOf(rules, history, rule))
  }

  /** The rule does not judge the event, and its bucket stays. */
  lemma {:induction false} OthersFollow(rules: seq<RateRule>, before: seq<Occurrence>, o: Occurrence, rule: RateRule)
    requires ValidRules(rules) && Effective(rules, rule) && ValidRule(rule) && FollowsHistory(rules, before, rule)
    requires Chosen(rules, o.event) != Some(rule)
    ensures FollowsHistory(rules, before + [o], rule)
  {
    VisitsSnoc(rules, before, o, rule);
    assert Visits(rules, before, rule) + [] == Visits(rules, before, rule);
    if Chosen(rules, o.event).Some? {
      ChosenIsEffective(rules, o.event);
    }
  }

  /** What one judgement leaves in the map. */
  lemma {:induction false} JudgedBy(rules: seq<RateRule>, buckets: map<Name, Bucket>, o: Occurrence, rule: RateRule)
    requires ValidRules(rules) && Chosen(rules, o.event) == Some(rule)
    ensures ValidRule(rule) && Effective(rules, rule)
    ensures var j := Judge(rule, if rule.target in buckets then Some(buckets[rule.target]) else None, o.now);
      EvaluateRateLimit(rules, o.event, o.now, buckets) == RateVerdict(j.allow, buckets[rule.target := j.bucket])
  {
    ChosenIsEffective(rules, o.event);
  }

  /** One more event a rule judges, in its count and its visits. */
  lemma {:induction false} JudgedSnoc(rules: seq<RateRule>, before: seq<Occurrence>, o: Occurrence, rule: RateRule)
    requires ValidRules(rules) && ValidRule(rule) && Chosen(rules, o.event) == Some(rule)
    ensures var c, all := CountOf(rules, before, rule), before + [o];
      var d, later := CountOf(rules, all, rule), Later(c, o.now);
      && d.first == later.first && d.latest == later.latest && d.judged > 0 && Tick(rule, d) == Tick(rule, later)
      && Visits(rules, all, rule) == Visits(rules, before, rule)
           + [Visit(Tick(rule, later), EvaluateRateLimit(rules, o.event, o.now, Buckets(rules, before)).allow)]
      && Buckets(rules, all) == EvaluateRateLimit(rules, o.event, o.now, Buckets(rules, before)).buckets
  {
    VisitsSnoc(rules, before, o, rule);
  }

  lemma {:induction false} JudgedFollows(rules: seq<RateRule>, before: seq<Occurrence>, o: Occurrence, rule: RateRule)
    requires ValidRules(rules) && ValidRule(rule) && FollowsHistory(rules, before, rule)
    requires Chosen(rules, o.event) == Some(rule) && Capacity(rule) > 0
    ensures FollowsHistory(rules, before + [o], rule)
    ensures EvaluateRateLimit(rules, o.event, o.now, Buckets(rules, before)).allow <==>
      Fits(rule, Visits(rules, before, rule), Tick(rule, Later(CountOf(rules, before, rule), o.now)))
  {
    var buckets, visits, c := Buckets(rules, before), Visits(rules, before, rule), CountOf(rules, before, rule);
    JudgedBy(rules, buckets, o, rule);
    JudgedSnoc(rules, before, o, rule);
    ValuesFollow(rule, buckets, visits, c, o.now, CountOf(rules, before + [o], rule));
  }

  /** The same on values. */
  lemma {:induction false} ValuesFollow(rule: RateRule, buckets: map<Name, Bucket>, visits: seq<Visit>, c: Count,
                                        now: int, d: Count)
    requires ValidRule(rule) && Capacity(rule) > 0 && Follows(rule, buckets, visits, c)
    requires d.first == Later(c, now).first && d.latest == Later(c, now).latest && d.judged > 0
    ensures var j := Judge(rule, if rule.target in buckets then Some(buckets[rule.target]) else None, now);
      var tick := Tick(rule, Later(c, now));
      && (j.allow <==> Fits(rule, visits, tick))
      && Follows(rule, buckets[rule.target := j.bucket], visits + [Visit(tick, j.allow)], d)
  {
    if rule.target in buckets {
      var j := Judge(rule, Some(buckets[rule.target]), now);
      JudgeFollows(rule, buckets[rule.target], visits, c, now);
      SameCount(rule, visits + [Visit(Tick(rule, Later(c, now)), j.allow)], j.bucket, Later(c, now), d);
    } else {
      var j := Judge(rule, None, now);
      FirstFollows(rule, now);
      SameCount(rule, visits + [Visit(Tick(rule, Later(c, now)), j.allow)], j.bucket, Later(c, now), d);
    }
  }

  lemma {:induction false} OccurrenceFollows(rules: seq<RateRule>, before: seq<Occurrence>, o: Occurrence,
                                             rule: RateRule)
    requires ValidRules(rules) && Effective(rules, rule) && ValidRule(rule) && FollowsHistory(rules, before, rule)
    ensures FollowsHistory(rules, before + [o], rule)
    ensures Chosen(rules, o.event) == Some(rule) ==>
      (EvaluateRateLimit(rules, o.event, o.now, Buckets(rules, before)).allow <==>
       Fits(rule, Visits(rules, before, rule), Tick(rule, Later(CountOf(rules, before, rule), o.now))))
  {
    if Chosen(rules, o.event) != Some(rule) {
      OthersFollow(rules, before, o, rule);
    } else if Capacity(rule) > 0 {
      JudgedFollows(rules, before, o, rule);
    } else {
      VisitsSnoc(rules, before, o, rule);
      JudgedBy(rules, Buckets(rules, before), o, rule);
    }
  }

  lemma {:induction false} HistoryFollows(rules: seq<RateRule>, history: seq<Occurrence>, rule: RateRule)
    requires ValidRules(rules) && Effective(rules, rule) && ValidRule(rule)
    ensures FollowsHistory(rules, history, rule)
  {
    if history != [] {
      var n := |history| - 1;
      HistoryFollows(rules, history[..n], rule);
      OccurrenceFollows(rules, history[..n], history[n], rule);
      assert history[..n] + [history[n]] == history;
    }
  }

  /**
   Under fixed rules and any clock an event is let through if and only if no rule governs it, or the rule's capacity
   is at least one and, for each earlier event it judged, those let through from that one on leave room for one more
   within the capacity and the limit for every whole interval since. So nothing is refused while that leaves room.
   */
  lemma {:induction false} AllowedIffFits(rules: seq<RateRule>, history: seq<Occurrence>)
    requires ValidRules(rules) && history != []
    ensures var n := |history| - 1;
      var before, o := history[..n], history[n];
      match Chosen(rules, o.event)
      case None => Answer(rules, history)
      case Some(rule) =>
        ValidRule(rule) &&
        (Answer(rules, history) <==>
         Fits(rule, Visits(rules, before, rule), Tick(rule, Later(CountOf(rules, before, rule), o.now))))
  {
    var n := |history| - 1;
    if Chosen(rules, history[n].event).Some? {
      ChosenIsEffective(rules, history[n].event);
      var rule := Chosen(rules, history[n].event).value;
      HistoryFollows(rules, history[..n], rule);
      OccurrenceFollows(rules, history[..n], history[n], rule);
    }
  }

  // ----- which rule governs an event ------------------------------------------------------------------

  /** The first rule of the event, or of the wildcard if no rule names the event. */
  ghost predicate RuleGoverns(rules: seq<RateRule>, event: Name, rule: RateRule) {
    var target := if exists i :: 0 <= i < |rules| && rules[i].target == event then event else STAR;
    exists i :: 0 <= i < |rules| && rules[i] == rule && rule.target == target
                && forall j :: 0 <= j < i ==> rules[j].target != target
  }

  lemma {:induction false} ChosenGoverns(rules: seq<RateRule>, event: Name)
    ensures forall rule :: Chosen(rules, event) == Some(rule) <==> RuleGoverns(rules, event, rule)
  {
    var exact, wild := FirstRule(rules, event), FirstRule(rules, STAR);
    assert (exists i :: 0 <= i < |rules| && rules[i].target == event) <==> exact < |rules|;
    forall rule ensures Chosen(rules, event) == Some(rule) <==> RuleGoverns(rules, event, rule) {
      if RuleGoverns(rules, event, rule) {
        var target := if exact < |rules| then event else STAR;
        var i :| 0 <= i < |rules| && rules[i] == rule && rule.target == target
                 && forall j :: 0 <= j < i ==> rules[j].target != target;
        assert i == FirstRule(rules, target);
      }
    }
  }

  // ----- which rate governs sampling ------------------------------------------------------------------

  ghost predicate FirstOf(rules: seq<SamplingRule>, target: Name, i: nat) {
    i < |rules| && rules[i].target == target && forall j :: 0 <= j < i ==> rules[j].target != target
  }

  ghost predicate Names(rules: seq<SamplingRule>, target: Name) {
    exists i :: 0 <= i < |rules| && rules[i].target == target
  }

  /** The rate of the first rule of the event, else of the first wildcard, else the default, else one. */
  ghost predicate Governs(sampling: Sampling, event: Name, rate: real) {
    var rules := sampling.rules;
    if Names(rules, event) then exists i: nat :: FirstOf(rules, event, i) && rate == rules[i].sampleRate
    else if Names(rules, STAR) then exists i: nat :: FirstOf(rules, STAR, i) && rate == rules[i].sampleRate
    else rate == if sampling.defaultSampleRate.Some? then sampling.defaultSampleRate.value else 1.0
  }

  lemma RateGoverns(sampling: Sampling, event: Name)
    ensures forall rate :: Governs(sampling, event, rate) <==> rate == SampleRate(sampling, event)
  {
    var rules := sampling.rules;
    var exact, wild := FirstSampling(rules, event), FirstSampling(rules, STAR);
    assert Names(rules, event) <==> exact < |rules|;
    assert Names(rules, STAR) <==> wild < |rules|;
    if exact < |rules| {
      assert FirstOf(rules, event, exact);
      assert forall i: nat :: FirstOf(rules, event, i) ==> i == exact;
    } else if wild < |rules| {
      assert FirstOf(rules, STAR, wild);
      assert forall i: nat :: FirstOf(rules, STAR, i) ==> i == wild;
    }
  }

  /**
   An event is dropped for sampling if and only if sampling is configured and the random number, at least zero and
   below one, is not below the governing rate; and for its rate rule if and only if it is not, and the rule refuses.
   */
  lemma DropsIff(config: Option<Config>, event: Name, now: int, random: real, s: State, rate: real)
    requires (config.Some? ==> ValidConfig(config.value)) && 0.0 <= random < 1.0
    requires config.Some? && config.value.sampling.Some? ==> Governs(config.value.sampling.value, event, rate)
    ensures var decision := Evaluate(config, event, now, random, s).decision;
      var sampledOut := config.Some? && config.value.sampling.Some? && random >= rate;
      && (decision == DropSampling <==> sampledOut)
      && (decision == DropRateLimit <==>
            config.Some? && !sampledOut && !EvaluateRateLimit(config.value.rateRules, event, now, s.buckets).allow)
  {
    if config.Some? && config.value.sampling.Some? {
      RateGoverns(config.value.sampling.value, event);
    }
  }
}
