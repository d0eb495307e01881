/**
 The structured logger's accounting on top of the logging controls. (app/logging/structured-logger.ts)

 Formatting and the transport are parameters of each call: whether formatting succeeded, and what
 `publish` answered.
 */
module StructuredLogger {
  import opened Basics
  import opened LoggingControls
  import Law = LoggingLaw

  datatype Published = Accepted | Backpressure | Broken

  /** One `log` call: whether the level passes, the event, the clock, the sample and the outside's answers. */
  datatype Call = Call(passesLevel: bool, event: Name, now: Option<int>, random: real, formats: bool,
                       publish: Published)

  datatype Event =
    | Log(call: Call)
    | UpdateControls(config: Option<Config>)

  datatype Logger = Logger(config: Option<Config>, controls: State, queueDrops: nat, lastErrorSet: bool)

  datatype Outcome = Outcome(logger: Logger, ok: bool)

  function Fresh(): State {
    State(map[], Metrics(0, 0, 0))
  }

  function Rollback(s: State): State {
    s.(metrics := s.metrics.(published := if s.metrics.published > 0 then s.metrics.published - 1 else 0))
  }

  ghost predicate ValidOption(config: Option<Config>) {
    config.Some? ==> ValidConfig(config.value)
  }

  /** `prepareLogEntry`: no value when the clock or the formatter failed. */
  function Prepare(l: Logger, c: Call): Option<Verdict>
    requires ValidOption(l.config)
  {
    if c.now.None? then None
    else
      var v := Evaluate(l.config, c.event, c.now.value, c.random, l.controls);
      if v.decision == Permit && !c.formats then None else Some(v)
  }

  function OnLog(l: Logger, c: Call): Outcome
    requires ValidOption(l.config)
  {
    if !c.passesLevel then Outcome(l, true)
    else
      var prepared := Prepare(l, c);
      if prepared.None? then Outcome(l, false)
      else
        var v := prepared.value;
        var next := l.(controls := v.state);
        if v.decision != Permit then Outcome(next, true)
        else
          match c.publish
          case Accepted => Outcome(next.(lastErrorSet := false), true)
          case Backpressure =>
            Outcome(next.(controls := Rollback(v.state), queueDrops := l.queueDrops + 1, lastErrorSet := true), true)
          case Broken => Outcome(next.(lastErrorSet := true), false)
  }

  function Step(l: Logger, e: Event): Logger
    requires ValidOption(l.config) && (e.UpdateControls? ==> ValidOption(e.config))
  {
    match e
    case Log(c) => OnLog(l, c).logger
    case UpdateControls(config) => l.(config := config, controls := Fresh())
  }

  // ----- runs -----------------------------------------------------------------------------------

  /** A logger, and what has happened since its controls were last replaced. */
  datatype Trace = Trace(logger: Logger, dropsBefore: nat, prepared: nat, accepted: nat, broken: nat)

  ghost predicate ValidEvents(events: seq<Event>) {
    forall e :: e in events && e.UpdateControls? ==> ValidOption(e.config)
  }

  function TraceStep(t: Trace, e: Event): Trace
    requires ValidOption(t.logger.config) && (e.UpdateControls? ==> ValidOption(e.config))
  {
    var next := Step(t.logger, e);
    match e
    case UpdateControls(_) => Trace(next, next.queueDrops, 0, 0, 0)
    case Log(c) =>
      if !c.passesLevel || Prepare(t.logger, c).None? then t.(logger := next)
      else
        var published := Prepare(t.logger, c).value.decision == Permit;
        t.(logger := next, prepared := t.prepared + 1,
           accepted := t.accepted + (if published && c.publish == Accepted then 1 else 0),
           broken := t.broken + (if published && c.publish == Broken then 1 else 0))
  }

  function Run(config: Option<Config>, events: seq<Event>): (t: Trace)
    requires ValidOption(config) && ValidEvents(events)
    ensures ValidOption(t.logger.config)
  {
    if events == [] then Trace(Logger(config, Fresh(), 0, false), 0, 0, 0, 0)
    else
      var n := |events| - 1;
      assert forall e :: e in events[..n] ==> e in events;
      TraceStep(Run(config, events[..n]), events[n])
  }

  // ----- conservation ---------------------------------------------------------------------------

  ghost predicate Balanced(t: Trace) {
    var m := t.logger.controls.metrics;
    && t.dropsBefore <= t.logger.queueDrops
    && m.published + m.droppedBySampling + m.droppedByRateLimit + (t.logger.queueDrops - t.dropsBefore) == t.prepared
    && m.published == t.accepted + t.broken
  }

  /** Evaluating raises exactly one of the three counters by one. */
  lemma EvaluateCountsOnce(config: Option<Config>, event: Name, now: int, random: real, s: State)
    requires ValidOption(config)
    ensures var v := Evaluate(config, event, now, random, s);
      var m, n := s.metrics, v.state.metrics;
      match v.decision
      case Permit => n == m.(published := m.published + 1)
      case DropSampling => n == m.(droppedBySampling := m.droppedBySampling + 1) && v.state.buckets == s.buckets
      case DropRateLimit => n == m.(droppedByRateLimit := m.droppedByRateLimit + 1)
  {
  }

  /** An event a rule lets through costs its bucket one token after the refill, and changes no other bucket. */
  lemma PermitSpends(rules: seq<RateRule>, event: Name, now: int, buckets: map<Name, Bucket>)
    requires forall r :: r in rules ==> ValidRule(r)
    requires Chosen(rules, event).Some? && EvaluateRateLimit(rules, event, now, buckets).allow
    ensures var rule, after := Chosen(rules, event).value, EvaluateRateLimit(rules, event, now, buckets).buckets;
      var key := if rule.target == STAR then STAR else event;
      && rule.intervalMs > 0 && after == buckets[key := after[key]]
      && after[key].tokens
         == (if key in buckets then Refill(buckets[key], rule, now).tokens else Capacity(rule)) - 1
      && after != buckets
  {
    var rule, after := Chosen(rules, event).value, EvaluateRateLimit(rules, event, now, buckets).buckets;
    var key := if rule.target == STAR then STAR else event;
    assert rule in rules;
    if key in buckets {
      SpendingShows(rule, buckets[key], now);
      assert after[key] != buckets[key];
    }
  }

  lemma SpendingShows(rule: RateRule, b: Bucket, now: int)
    requires ValidRule(rule) && Judge(rule, Some(b), now).allow
    ensures Judge(rule, Some(b), now).bucket != b
  {
    var refilled := Refill(b, rule, now);
    if refilled != b {
      var intervals := (now - b.lastRefillMs) / rule.intervalMs;
      assert intervals > 0 && refilled.lastRefillMs == b.lastRefillMs + intervals * rule.intervalMs;
      AtLeastOne(intervals, rule.intervalMs);
    }
  }

  lemma AtLeastOne(a: int, b: int)
    requires a > 0 && b > 0
    ensures a * b >= b
  {
  }

  /**
   Back-pressure gives the metrics back exactly as they were, without ever meeting the zero clamp, but keeps
   the buckets as the permit left them. So the logger's controls are as before if and only if no rate rule
   governs the event; otherwise the token stays spent.
   */
  lemma RollbackUndoesPermit(l: Logger, c: Call)
    requires ValidOption(l.config) && c.passesLevel && c.publish == Backpressure
    requires Prepare(l, c).Some? && Prepare(l, c).value.decision == Permit
    ensures var permitted, next := Prepare(l, c).value.state, OnLog(l, c).logger;
      && permitted.metrics.published > 0
      && next.controls == State(permitted.buckets, l.controls.metrics)
      && next.queueDrops == l.queueDrops + 1 && OnLog(l, c).ok
      && (next.controls == l.controls <==>
            l.config.None? || Chosen(l.config.value.rateRules, c.event).None?)
  {
    EvaluateCountsOnce(l.config, c.event, c.now.value, c.random, l.controls);
    if l.config.Some? && Chosen(l.config.value.rateRules, c.event).Some? {
      PermitSpends(l.config.value.rateRules, c.event, c.now.value, l.controls.buckets);
    }
  }

  // ----- calls that leave no trace ------------------------------------------------------------------

  /** The call is below the level, or its clock or its formatter fails. */
  ghost predicate Idle(l: Logger, e: Event)
    requires ValidOption(l.config)
  {
    e.Log? && (!e.call.passesLevel || Prepare(l, e.call).None?)
  }

  /** The run without its idle calls. */
  ghost function Kept(config: Option<Config>, events: seq<Event>): seq<Event>
    requires ValidOption(config) && ValidEvents(events)
  {
    if events == [] then []
    else
      var n := |events| - 1;
      assert forall e :: e in events[..n] ==> e in events;
      Kept(config, events[..n])
      + (if Idle(Run(config, events[..n]).logger, events[n]) then [] else [events[n]])
  }

  lemma {:induction false} KeptIsValid(config: Option<Config>, events: seq<Event>)
    requires ValidOption(config) && ValidEvents(events)
    ensures ValidEvents(Kept(config, events))
  {
    if events != [] {
      assert forall e :: e in events[..|events| - 1] ==> e in events;
      KeptIsValid(config, events[..|events| - 1]);
    }
  }

  lemma RunSnoc(config: Option<Config>, events: seq<Event>, e: Event)
    requires ValidOption(config) && ValidEvents(events) && ValidEvents(events + [e])
    ensures e.UpdateControls? ==> ValidOption(e.config)
    ensures Run(config, events + [e]) == TraceStep(Run(config, events), e)
  {
    assert (events + [e])[..|events|] == events && e in events + [e];
  }

  lemma IdleStep(t: Trace, e: Event)
    requires ValidOption(t.logger.config) && Idle(t.logger, e)
    ensures TraceStep(t, e) == t
  {
  }

  lemma KeptUnfolds(config: Option<Config>, events: seq<Event>)
    requires ValidOption(config) && events != [] && ValidEvents(events)
    ensures var n := |events| - 1;
      && ValidEvents(events[..n])
      && Kept(config, events) == Kept(config, events[..n])
           + (if Idle(Run(config, events[..n]).logger, events[n]) then [] else [events[n]])
      && (events[n].UpdateControls? ==> ValidOption(events[n].config))
      && Run(config, events) == TraceStep(Run(config, events[..n]), events[n])
  {
    assert forall e :: e in events[..|events| - 1] ==> e in events;
  }

  /**
   Calls that are below the level or fail before publishing could as well not have been made: deleting them
   all from a run leaves counters, buckets and everything counted of the run the same.
   */
  lemma {:induction false} FailedPreparationChangesNothing(config: Option<Config>, events: seq<Event>)
    requires ValidOption(config) && ValidEvents(events)
    ensures ValidEvents(Kept(config, events)) && Run(config, Kept(config, events)) == Run(config, events)
  {
    KeptIsValid(config, events);
    if events != [] {
      var n := |events| - 1;
      KeptUnfolds(config, events);
      FailedPreparationChangesNothing(config, events[..n]);
      if Idle(Run(config, events[..n]).logger, events[n]) {
        IdleStep(Run(config, events[..n]), events[n]);
        assert Kept(config, events) == Kept(config, events[..n]);
      } else {
        RunSnoc(config, Kept(config, events[..n]), events[n]);
      }
    }
  }

  // ----- conservation over runs ---------------------------------------------------------------------

  lemma StepKeepsBalance(t: Trace, e: Event)
    requires ValidOption(t.logger.config) && (e.UpdateControls? ==> ValidOption(e.config))
    requires Balanced(t)
    ensures Balanced(TraceStep(t, e))
  {
    if e.Log? && e.call.passesLevel && e.call.now.Some? {
      EvaluateCountsOnce(t.logger.config, e.call.event, e.call.now.value, e.call.random, t.logger.controls);
    }
  }

  /**
   Over every run, since the controls were last replaced: published, sampled-out, rate-limited and
   queue-dropped entries add up to the calls that passed the level filter and were prepared. Published
   counts every entry handed to the transport and not refused for back-pressure, broken writes included.
   */
  lemma {:induction false} EntriesAreConserved(config: Option<Config>, events: seq<Event>)
    requires ValidOption(config) && ValidEvents(events)
    ensures Balanced(Run(config, events))
  {
    if events != [] {
      var n := |events| - 1;
      assert forall e :: e in events[..n] ==> e in events;
      EntriesAreConserved(config, events[..n]);
      StepKeepsBalance(Run(config, events[..n]), events[n]);
    }
  }

  // ----- what becomes of each call --------------------------------------------------------------------

  /** How a call that was prepared ends. */
  datatype Fate = SampledOut | RuledOut | Queued | Written | Lost

  /** The fate of a call, if it gets that far. */
  function FateOf(l: Logger, c: Call): Option<Fate>
    requires ValidOption(l.config)
  {
    if !c.passesLevel || c.now.None? then None
    else
      match Evaluate(l.config, c.event, c.now.value, c.random, l.controls).decision
      case DropSampling => Some(SampledOut)
      case DropRateLimit => Some(RuledOut)
      case Permit =>
        if !c.formats then None
        else
          match c.publish
          case Accepted => Some(Written)
          case Backpressure => Some(Queued)
          case Broken => Some(Lost)
  }

  /** How many calls since the controls were last replaced met a fate. */
  ghost function Met(config: Option<Config>, events: seq<Event>, fate: Fate): nat
    requires ValidOption(config) && ValidEvents(events)
  {
    if events == [] then 0
    else
      var n := |events| - 1;
      assert forall e :: e in events[..n] ==> e in events;
      match events[n]
      case UpdateControls(_) => 0
      case Log(c) =>
        Met(config, events[..n], fate)
        + (if FateOf(Run(config, events[..n]).logger, c) == Some(fate) then 1 else 0)
  }

  /** Whether the last call that reached the transport was refused or broken. */
  ghost function LastWentWrong(config: Option<Config>, events: seq<Event>): bool
    requires ValidOption(config) && ValidEvents(events)
  {
    if events == [] then false
    else
      var n := |events| - 1;
      assert forall e :: e in events[..n] ==> e in events;
      var before := LastWentWrong(config, events[..n]);
      match events[n]
      case UpdateControls(_) => before
      case Log(c) =>
        Wrong(FateOf(Run(config, events[..n]).logger, c), before)
  }

  lemma {:induction false} LogCounts(l: Logger, c: Call)
    requires ValidOption(l.config)
    ensures var fate, out := FateOf(l, c), OnLog(l, c);
      var m, n := l.controls.metrics, out.logger.controls.metrics;
      && n.published == m.published + (if fate in {Some(Written), Some(Lost)} then 1 else 0)
      && n.droppedBySampling == m.droppedBySampling + (if fate == Some(SampledOut) then 1 else 0)
      && n.droppedByRateLimit == m.droppedByRateLimit + (if fate == Some(RuledOut) then 1 else 0)
      && out.logger.queueDrops == l.queueDrops + (if fate == Some(Queued) then 1 else 0)
      && out.logger.lastErrorSet == (if fate in {Some(Queued), Some(Lost)} then true
                                     else if fate == Some(Written) then false else l.lastErrorSet)
  {
    if c.now.Some? {
      EvaluateCountsOnce(l.config, c.event, c.now.value, c.random, l.controls);
    }
  }

  /** The configuration last given. */
  function LatestConfig(config: Option<Config>, events: seq<Event>): Option<Config> {
    if events == [] then config
    else
      match events[|events| - 1]
      case UpdateControls(latest) => latest
      case Log(_) => LatestConfig(config, events[..|events| - 1])
  }

  lemma {:induction false} ConfigIsLatest(config: Option<Config>, events: seq<Event>)
    requires ValidOption(config) && ValidEvents(events)
    ensures Run(config, events).logger.config == LatestConfig(config, events)
  {
    if events != [] {
      KeptUnfolds(config, events);
      ConfigIsLatest(config, events[..|events| - 1]);
    }
  }

  /** The four counters and the error flag against the numbers of fates met. */
  ghost predicate Counts(t: Trace, written: nat, lost: nat, sampled: nat, ruled: nat, queued: nat, wrong: bool) {
    var m := t.logger.controls.metrics;
    && m.published == written + lost && m.droppedBySampling == sampled && m.droppedByRateLimit == ruled
    && t.logger.queueDrops == t.dropsBefore + queued && t.logger.lastErrorSet == wrong
  }

  function One(fate: Option<Fate>, which: Fate): nat {
    if fate == Some(which) then 1 else 0
  }

  function Wrong(fate: Option<Fate>, before: bool): bool {
    if fate == Some(Queued) || fate == Some(Lost) then true else if fate == Some(Written) then false else before
  }

  lemma {:induction false} LogKeepsCounts(t: Trace, c: Call, w: nat, l: nat, s: nat, r: nat, q: nat, wrong: bool)
    requires ValidOption(t.logger.config) && Counts(t, w, l, s, r, q, wrong)
    ensures var f := FateOf(t.logger, c);
      Counts(TraceStep(t, Log(c)), w + One(f, Written), l + One(f, Lost), s + One(f, SampledOut), r + One(f, RuledOut),
             q + One(f, Queued), Wrong(f, wrong))
  {
    LogCounts(t.logger, c);
  }

  lemma {:induction false} MetUnfolds(config: Option<Config>, events: seq<Event>, fate: Fate)
    requires ValidOption(config) && events != [] && ValidEvents(events)
    ensures var n := |events| - 1;
      && ValidEvents(events[..n])
      && Met(config, events, fate) == (if events[n].UpdateControls? then 0 else
           Met(config, events[..n], fate) + One(FateOf(Run(config, events[..n]).logger, events[n].call), fate))
      && LastWentWrong(config, events) == (if events[n].UpdateControls? then LastWentWrong(config, events[..n]) else
           Wrong(FateOf(Run(config, events[..n]).logger, events[n].call), LastWentWrong(config, events[..n])))
  {
    assert forall e :: e in events[..|events| - 1] ==> e in events;
  }

  /**
   Over every run the four counters are the numbers of calls since the controls were last replaced that were written
   or lost, sampled out, refused by a rule, and queued out; and an error is reported if and only if the last call that
   reached the transport was queued out or lost.
   */
  lemma {:induction false} CountersTellFates(config: Option<Config>, events: seq<Event>)
    requires ValidOption(config) && ValidEvents(events)
    ensures Counts(Run(config, events), Met(config, events, Written), Met(config, events, Lost),
                   Met(config, events, SampledOut), Met(config, events, RuledOut), Met(config, events, Queued),
                   LastWentWrong(config, events))
  {
    if events != [] {
      var before, e := events[..|events| - 1], events[|events| - 1];
      KeptUnfolds(config, events);
      MetUnfolds(config, events, Written);
      MetUnfolds(config, events, Lost);
      MetUnfolds(config, events, SampledOut);
      MetUnfolds(config, events, RuledOut);
      MetUnfolds(config, events, Queued);
      CountersTellFates(config, before);
      if e.Log? {
        LogKeepsCounts(Run(config, before), e.call, Met(config, before, Written), Met(config, before, Lost),
                       Met(config, before, SampledOut), Met(config, before, RuledOut), Met(config, before, Queued),
                       LastWentWrong(config, before));
      }
    }
  }

  /** A call is answered with an error if and only if it passes the level and clock, formatter or write fails. */
  lemma {:induction false} FailsIff(l: Logger, c: Call)
    requires ValidOption(l.config)
    ensures !OnLog(l, c).ok <==>
      c.passesLevel && (c.now.None? || FateOf(l, c) == Some(Lost) || FateOf(l, c).None?)
  {
  }

  // ----- which calls the rules refuse -----------------------------------------------------------------

  /** The calls the rate rules have judged since the controls were last replaced. */
  ghost function Judged(config: Option<Config>, events: seq<Event>): seq<Occurrence>
    requires ValidOption(config) && ValidEvents(events)
  {
    if events == [] then []
    else
      var n := |events| - 1;
      assert forall e :: e in events[..n] ==> e in events;
      var l := Run(config, events[..n]).logger;
      match events[n]
      case UpdateControls(_) => []
      case Log(c) =>
        Judged(config, events[..n])
        + (if Idle(l, events[n]) || l.config.None? || Prepare(l, c).value.decision == DropSampling then []
           else [Occurrence(c.event, c.now.value)])
  }

  ghost function RuleBuckets(config: Option<Config>, history: seq<Occurrence>): map<Name, Bucket>
    requires ValidOption(config)
  {
    if config.None? then map[] else Buckets(config.value.rateRules, history)
  }

  /** One call's effect on the buckets. */
  lemma {:induction false} LogBuckets(l: Logger, c: Call, history: seq<Occurrence>)
    requires ValidOption(l.config) && l.controls.buckets == RuleBuckets(l.config, history)
    ensures var judged := !Idle(l, Log(c)) && l.config.Some? && Prepare(l, c).value.decision != DropSampling;
      OnLog(l, c).logger.controls.buckets
        == RuleBuckets(l.config, history + if judged then [Occurrence(c.event, c.now.value)] else [])
      && OnLog(l, c).logger.config == l.config
  {
    assert history + [] == history;
    if c.now.Some? {
      var longer := history + [Occurrence(c.event, c.now.value)];
      assert longer[..|history|] == history;
    }
  }

  lemma {:induction false} BucketsFollowHistory(config: Option<Config>, events: seq<Event>)
    requires ValidOption(config) && ValidEvents(events)
    ensures var l := Run(config, events).logger; l.controls.buckets == RuleBuckets(l.config, Judged(config, events))
  {
    if events != [] {
      var n := |events| - 1;
      assert forall e :: e in events[..n] ==> e in events;
      BucketsFollowHistory(config, events[..n]);
      if events[n].Log? {
        LogBuckets(Run(config, events[..n]).logger, events[n].call, Judged(config, events[..n]));
      }
    }
  }

  /**
   After any run a call that passes the level is dropped by its rate rule if and only if sampling lets it through and
   it does not fit that rule's law over the calls judged since the controls were last replaced.
   */
  lemma {:induction false} DroppedByRuleIff(config: Option<Config>, events: seq<Event>, c: Call)
    requires ValidOption(config) && ValidEvents(events) && c.passesLevel && c.now.Some?
    ensures Run(config, events).logger.config == LatestConfig(config, events)
    ensures var l, history := Run(config, events).logger, Judged(config, events);
      Evaluate(l.config, c.event, c.now.value, c.random, l.controls).decision == DropRateLimit <==>
      l.config.Some? && Sampled(l.config.value, c.event, c.random) &&
      var rules := l.config.value.rateRules;
      Chosen(rules, c.event).Some? &&
      var rule := Chosen(rules, c.event).value;
      ValidRule(rule) &&
      !Law.Fits(rule, Law.Visits(rules, history, rule),
                Law.Tick(rule, Law.Later(CountOf(rules, history, rule), c.now.value)))
  {
    var l, history := Run(config, events).logger, Judged(config, events);
    BucketsFollowHistory(config, events);
    ConfigIsLatest(config, events);
    if l.config.Some? {
      var longer := history + [Occurrence(c.event, c.now.value)];
      assert longer[..|history|] == history;
      Law.AllowedIffFits(l.config.value.rateRules, longer);
    }
  }

  // ----- the object -----------------------------------------------------------------------------

  class LoggerObject {
    var controlsConfig: Option<Config>
    var controlState: State
    var queueDropCount: nat
    var lastPublishErrorSet: bool

    ghost function Abs(): Logger
      reads this
    {
      Logger(controlsConfig, controlState, queueDropCount, lastPublishErrorSet)
    }

    constructor (controls: Option<Config>)
      ensures Abs() == Logger(controls, Fresh(), 0, false)
    {
      controlsConfig, controlState, queueDropCount, lastPublishErrorSet := controls, Fresh(), 0, false;
    }

    method LogEntry(c: Call) returns (ok: bool)
      requires ValidOption(controlsConfig)
      modifies this
      ensures Outcome(Abs(), ok) == OnLog(old(Abs()), c)
    {
      if !c.passesLevel {
        return true;
      }
      if c.now.None? {
        return false;
      }
      var v := Evaluate(controlsConfig, c.event, c.now.value, c.random, controlState);
      if v.decision == Permit && !c.formats {
        return false;
      }
      controlState := v.state;
      if v.decision != Permit {
        return true;
      }
      if c.publish == Backpressure {
        queueDropCount := queueDropCount + 1;
        controlState := Rollback(controlState);
        lastPublishErrorSet := true;
        return true;
      }
      lastPublishErrorSet := c.publish == Broken;
      return c.publish != Broken;
    }

    method ReplaceControls(config: Option<Config>)
      modifies this
      ensures Abs() == old(Abs()).(config := config, controls := Fresh())
    {
      controlsConfig := config;
      controlState := Fresh();
    }
  }
}
