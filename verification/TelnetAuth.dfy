/**
 The expect-style telnet authenticator. (app/services/telnet/telnet-auth.ts)

 Prompts are arbitrary predicates on the buffered bytes. The two timers are events that may fire at
 any moment, so the theorems hold under every timing.
 */
module TelnetAuth {
  import opened Basics

  const MAX_AUTH_BUFFER_BYTES: nat := 65536
  const CRLF: seq<byte> := [13, 10]

  type Pattern = seq<byte> -> bool

  datatype Options = Options(
    username: Option<seq<byte>>,
    password: Option<seq<byte>>,
    loginPrompt: Option<Pattern>,
    passwordPrompt: Option<Pattern>,
    failurePattern: Option<Pattern>
  )

  datatype Phase = WaitingLogin | WaitingPassword | WaitingResult | Authenticated | PassThrough | Failed

  datatype State = State(phase: Phase, buffer: seq<byte>)

  /** What an event makes the authenticator do: write to the socket, forward to the client. */
  datatype Action = Action(state: State, write: Option<seq<byte>>, forward: Option<seq<byte>>)

  datatype Event =
    | Arrive(data: seq<byte>)
    | Timeout
    | Settle

  predicate Waiting(phase: Phase) {
    phase.WaitingLogin? || phase.WaitingPassword? || phase.WaitingResult?
  }

  function Initial(options: Options): State {
    State(if options.loginPrompt.None? || options.username.None? then PassThrough else WaitingLogin, [])
  }

  function Line(text: Option<seq<byte>>): seq<byte> {
    (if text.Some? then text.value else []) + CRLF
  }

  predicate Matches(pattern: Option<Pattern>, text: seq<byte>) {
    pattern.Some? && pattern.value(text)
  }

  function NoAction(s: State): Action {
    Action(s, None, None)
  }

  function OnData(options: Options, s: State, data: seq<byte>): Action {
    if !Waiting(s.phase) then Action(s, None, Some(data))
    else
      var buffer := s.buffer + data;
      if |buffer| > MAX_AUTH_BUFFER_BYTES then Action(State(PassThrough, []), None, Some(buffer))
      else
        match s.phase
        case WaitingLogin =>
          if Matches(options.loginPrompt, buffer)
          then Action(State(if options.password.Some? then WaitingPassword else WaitingResult, []),
                      Some(Line(options.username)), None)
          else NoAction(State(s.phase, buffer))
        case WaitingPassword =>
          if Matches(options.passwordPrompt, buffer)
          then Action(State(WaitingResult, []), Some(Line(options.password)), None)
          else NoAction(State(s.phase, buffer))
        case _ =>
          if Matches(options.failurePattern, buffer) then Action(State(Failed, []), None, Some(data))
          else NoAction(State(s.phase, buffer))
  }

  function OnTimeout(s: State): Action {
    if Waiting(s.phase) then Action(State(PassThrough, []), None, Some(s.buffer)) else NoAction(s)
  }

  function OnSettle(s: State): Action {
    if s.phase.WaitingResult? then Action(State(Authenticated, []), None, Some(s.buffer)) else NoAction(s)
  }

  function React(options: Options, s: State, e: Event): Action {
    match e
    case Arrive(data) => OnData(options, s, data)
    case Timeout => OnTimeout(s)
    case Settle => OnSettle(s)
  }

  // ----- runs -----------------------------------------------------------------------------------

  /**
   An authenticator with its history: what it wrote, what it forwarded, everything that arrived, how
   much of that had arrived when a prompt last matched, and what the failure branch threw away.
   */
  datatype Trace = Trace(state: State, writes: seq<seq<byte>>, forwarded: seq<byte>, arrived: seq<byte>,
                         matchedAt: nat, dropped: seq<byte>)

  function Optional(data: Option<seq<byte>>): seq<byte> {
    if data.Some? then data.value else []
  }

  function Step(options: Options, t: Trace, e: Event): Trace {
    var r := React(options, t.state, e);
    var arrived := t.arrived + (if e.Arrive? then e.data else []);
    Trace(r.state,
          t.writes + (if r.write.Some? then [r.write.value] else []),
          t.forwarded + Optional(r.forward),
          arrived,
          if r.write.Some? then |arrived| else t.matchedAt,
          if r.state.phase.Failed? && !t.state.phase.Failed? then t.state.buffer else t.dropped)
  }

  function Run(options: Options, events: seq<Event>): Trace {
    if events == [] then Trace(Initial(options), [], [], [], 0, [])
    else Step(options, Run(options, events[..|events| - 1]), events[|events| - 1])
  }

  /** The lines written so far, as the phase tells. */
  ghost predicate Wrote(options: Options, t: Trace) {
    var user, pass := Line(options.username), Line(options.password);
    match t.state.phase
    case WaitingLogin => t.writes == []
    case WaitingPassword => t.writes == [user] && options.password.Some?
    case WaitingResult => t.writes == if options.password.Some? then [user, pass] else [user]
    case _ => t.writes == [] || t.writes == [user] || (options.password.Some? && t.writes == [user, pass])
  }

  ghost predicate Inv(options: Options, t: Trace) {
    && Wrote(options, t)
    && |t.state.buffer| <= MAX_AUTH_BUFFER_BYTES
    && (!Waiting(t.state.phase) ==> t.state.buffer == [])
    && (Waiting(t.state.phase) ==> t.forwarded == [])
    && (!t.state.phase.Failed? ==> t.dropped == [])
    && t.matchedAt <= |t.arrived|
    && t.dropped + t.forwarded + t.state.buffer == t.arrived[t.matchedAt..]
  }

  lemma StepKeepsWrites(options: Options, t: Trace, e: Event)
    requires Wrote(options, t)
    ensures Wrote(options, Step(options, t, e))
  {
  }

  /** A prompt matched: nothing is held or forwarded, and the count starts anew. */
  lemma MatchConserves(options: Options, t: Trace, data: seq<byte>)
    requires Inv(options, t) && OnData(options, t.state, data).write.Some?
    ensures var u := Step(options, t, Arrive(data));
      u.dropped + u.forwarded + u.state.buffer == u.arrived[u.matchedAt..]
  {
    var u := Step(options, t, Arrive(data));
    assert u.dropped == [] && u.forwarded == [] + [] && u.state.buffer == [];
    assert u.matchedAt == |u.arrived|;
  }

  /** What a waiting authenticator drops, forwards and keeps of a chunk without a match. */
  lemma WaitingArrival(options: Options, s: State, data: seq<byte>)
    requires Waiting(s.phase) && OnData(options, s, data).write.None?
    ensures var r := OnData(options, s, data);
      (if r.state.phase.Failed? then s.buffer else []) + Optional(r.forward) + r.state.buffer == s.buffer + data
  {
  }

  /** What arrives without a match is buffered, forwarded, or dropped by the failure branch. */
  lemma ArrivalConserves(options: Options, t: Trace, data: seq<byte>)
    requires Inv(options, t) && OnData(options, t.state, data).write.None?
    ensures var u := Step(options, t, Arrive(data));
      u.dropped + u.forwarded + u.state.buffer == t.dropped + t.forwarded + t.state.buffer + data
  {
    var u := Step(options, t, Arrive(data));
    if Waiting(t.state.phase) {
      assert t.forwarded == [] && t.dropped == [];
      WaitingArrival(options, t.state, data);
      assert u.forwarded == Optional(OnData(options, t.state, data).forward);
      assert [] + t.state.buffer == t.state.buffer;
    } else {
      assert t.state.buffer == [] && u.forwarded == t.forwarded + data && u.state == t.state;
      Assoc(t.dropped, t.forwarded, data);
    }
  }

  /** A timer forwards what was buffered, or nothing happens. */
  lemma TimerConserves(options: Options, t: Trace, e: Event)
    requires Inv(options, t) && !e.Arrive?
    ensures var u := Step(options, t, e);
      u.dropped + u.forwarded + u.state.buffer == t.dropped + t.forwarded + t.state.buffer
      && u.arrived == t.arrived && u.matchedAt == t.matchedAt
  {
    var u := Step(options, t, e);
    assert u.arrived == t.arrived + [] == t.arrived;
    if u.state.phase != t.state.phase {
      assert u.dropped == t.dropped == [] && t.forwarded == [] && u.state.buffer == [];
      assert u.forwarded == [] + t.state.buffer;
    } else {
      assert u.forwarded == t.forwarded + [];
    }
  }

  lemma SuffixExtends(bytes: seq<byte>, more: seq<byte>, at: nat)
    requires at <= |bytes|
    ensures (bytes + more)[at..] == bytes[at..] + more
  {
  }

  lemma UnmatchedConserves(options: Options, t: Trace, data: seq<byte>)
    requires Inv(options, t) && OnData(options, t.state, data).write.None?
    ensures var u := Step(options, t, Arrive(data));
      u.dropped + u.forwarded + u.state.buffer == u.arrived[u.matchedAt..]
  {
    ArrivalConserves(options, t, data);
    SuffixExtends(t.arrived, data, t.matchedAt);
  }

  lemma StepConserves(options: Options, t: Trace, e: Event)
    requires Inv(options, t)
    ensures var u := Step(options, t, e);
      u.dropped + u.forwarded + u.state.buffer == u.arrived[u.matchedAt..]
  {
    match e
    case Arrive(data) =>
      if OnData(options, t.state, data).write.Some? {
        MatchConserves(options, t, data);
      } else {
        UnmatchedConserves(options, t, data);
      }
    case _ => TimerConserves(options, t, e);
  }

  lemma StepKeepsInv(options: Options, t: Trace, e: Event)
    requires Inv(options, t)
    ensures Inv(options, Step(options, t, e))
  {
    StepKeepsWrites(options, t, e);
    StepConserves(options, t, e);
  }

  lemma {:induction false} RunKeepsInv(options: Options, events: seq<Event>)
    ensures Inv(options, Run(options, events))
  {
    if events != [] {
      var n := |events| - 1;
      RunKeepsInv(options, events[..n]);
      StepKeepsInv(options, Run(options, events[..n]), events[n]);
    }
  }

  /** The user name and the password are written at most once each, the user name first. */
  lemma CredentialsAtMostOnceInOrder(options: Options, events: seq<Event>)
    ensures Run(options, events).writes <= [Line(options.username), Line(options.password)]
    ensures |Run(options, events).writes| == 2 ==> options.password.Some?
    ensures options.username.None? ==> Run(options, events).writes == []
  {
    RunKeepsInv(options, events);
    if options.username.None? {
      NoUserNoWrites(options, events);
    }
  }

  lemma {:induction false} NoUserNoWrites(options: Options, events: seq<Event>)
    requires options.username.None?
    ensures Run(options, events).writes == [] && Run(options, events).state.phase.PassThrough?
  {
    if events != [] {
      NoUserNoWrites(options, events[..|events| - 1]);
    }
  }

  /** The buffer never exceeds 64 KB and is empty outside the waiting phases. */
  lemma {:induction false} BufferIsBounded(options: Options, events: seq<Event>)
    ensures var s := Run(options, events).state;
      |s.buffer| <= 65536 && (!Waiting(s.phase) ==> s.buffer == [])
  {
    RunKeepsInv(options, events);
  }

  /** Once a phase is not a waiting one, it never changes again and nothing more is written. */
  lemma EndPhaseStays(options: Options, t: Trace, e: Event)
    requires !Waiting(t.state.phase)
    ensures Step(options, t, e).state.phase == t.state.phase && Step(options, t, e).writes == t.writes
  {
  }

  lemma {:induction false} EndPhasesAbsorb(options: Options, events: seq<Event>, more: seq<Event>)
    requires !Waiting(Run(options, events).state.phase)
    ensures Run(options, events + more).state.phase == Run(options, events).state.phase
    ensures Run(options, events + more).writes == Run(options, events).writes
  {
    if more == [] {
      assert events + more == events;
    } else {
      var n := |more| - 1;
      EndPhasesAbsorb(options, events, more[..n]);
      assert (events + more)[..|events + more| - 1] == events + more[..n];
      EndPhaseStays(options, Run(options, events + more[..n]), more[n]);
    }
  }

  /** A chunk makes the failure pattern match after earlier chunks were buffered. */
  ghost predicate Drops(options: Options, s: State, e: Event) {
    && e.Arrive? && s.phase.WaitingResult? && s.buffer != []
    && |s.buffer + e.data| <= MAX_AUTH_BUFFER_BYTES && Matches(options.failurePattern, s.buffer + e.data)
  }

  ghost predicate DropsAt(options: Options, events: seq<Event>, k: nat) {
    k < |events| && Drops(options, Run(options, events[..k]).state, events[k])
  }

  lemma StepDrops(options: Options, t: Trace, e: Event)
    requires Inv(options, t)
    ensures Step(options, t, e).dropped != [] <==> t.dropped != [] || Drops(options, t.state, e)
  {
  }

  lemma DropsAtInit(options: Options, events: seq<Event>, k: nat)
    requires events != []
    ensures var n := |events| - 1;
      DropsAt(options, events, k) <==>
        if k < n then DropsAt(options, events[..n], k)
        else k == n && Drops(options, Run(options, events[..n]).state, events[n])
  {
    var n := |events| - 1;
    if k < n {
      assert events[..n][..k] == events[..k];
    }
  }

  ghost predicate SomewhereDrops(options: Options, events: seq<Event>) {
    exists k: nat :: DropsAt(options, events, k)
  }

  lemma DropsSnoc(options: Options, events: seq<Event>)
    requires events != []
    ensures var n := |events| - 1;
      SomewhereDrops(options, events) <==>
        SomewhereDrops(options, events[..n]) || Drops(options, Run(options, events[..n]).state, events[n])
  {
    var n := |events| - 1;
    DropsAtInit(options, events, n);
    if k: nat :| DropsAt(options, events, k) {
      DropsAtInit(options, events, k);
    }
    if k: nat :| DropsAt(options, events[..n], k) {
      DropsAtInit(options, events, k);
    }
  }

  lemma {:induction false} DroppedIff(options: Options, events: seq<Event>)
    ensures Run(options, events).dropped != [] <==> SomewhereDrops(options, events)
  {
    if events != [] {
      var n := |events| - 1;
      DroppedIff(options, events[..n]);
      RunKeepsInv(options, events[..n]);
      StepDrops(options, Run(options, events[..n]), events[n]);
      DropsSnoc(options, events);
    }
  }

  /**
   What was forwarded, followed by the buffer, is everything that arrived after the chunk that last matched a
   prompt, if and only if the failure pattern never matched a chunk behind already buffered ones; the bytes
   buffered before that chunk are then exactly what is missing.
   */
  lemma NothingIsLost(options: Options, events: seq<Event>)
    ensures var t := Run(options, events);
      && t.matchedAt <= |t.arrived|
      && t.dropped + t.forwarded + t.state.buffer == t.arrived[t.matchedAt..]
      && (t.forwarded + t.state.buffer == t.arrived[t.matchedAt..] <==>
            !exists k: nat :: DropsAt(options, events, k))
  {
    RunKeepsInv(options, events);
    DroppedIff(options, events);
    var t := Run(options, events);
    assert [] + t.forwarded == t.forwarded;
    assert |t.dropped + t.forwarded + t.state.buffer| == |t.dropped| + |t.forwarded + t.state.buffer|;
  }

  lemma RunSnoc(options: Options, events: seq<Event>, e: Event)
    ensures Run(options, events + [e]) == Step(options, Run(options, events), e)
  {
    assert (events + [e])[..|events|] == events;
  }

  // ----- when a credential is written -----------------------------------------------------------------

  /** What arrived since the last match, a chunk included. */
  function Since(options: Options, events: seq<Event>, data: seq<byte>): seq<byte>
    requires Run(options, events).matchedAt <= |Run(options, events).arrived|
  {
    (Run(options, events).arrived + data)[Run(options, events).matchedAt..]
  }

  lemma HeldIsRest(options: Options, t: Trace)
    requires Inv(options, t) && Waiting(t.state.phase)
    ensures t.arrived[t.matchedAt..] == t.state.buffer
  {
    assert [] + [] + t.state.buffer == t.state.buffer;
  }

  lemma SinceIsBuffer(options: Options, events: seq<Event>, data: seq<byte>)
    requires Waiting(Run(options, events).state.phase)
    ensures var t := Run(options, events);
      t.matchedAt <= |t.arrived| && Since(options, events, data) == t.state.buffer + data
  {
    var t := Run(options, events);
    RunKeepsInv(options, events);
    HeldIsRest(options, t);
    SuffixExtends(t.arrived, data, t.matchedAt);
  }

  /** The prompt a phase waits for, the line it answers, and what it waits for next. */
  function Prompt(options: Options, phase: Phase): Option<Pattern> {
    match phase
    case WaitingLogin => options.loginPrompt
    case WaitingPassword => options.passwordPrompt
    case _ => None
  }

  function Reply(options: Options, phase: Phase): Option<seq<byte>> {
    if phase.WaitingLogin? then options.username else options.password
  }

  function Following(options: Options, phase: Phase): Phase {
    if phase.WaitingLogin? && options.password.Some? then WaitingPassword else WaitingResult
  }

  /** A prompt is found in what arrived since the last match, however it was cut into chunks. */
  ghost predicate Prompted(options: Options, events: seq<Event>, data: seq<byte>) {
    var t := Run(options, events);
    && t.matchedAt <= |t.arrived| && |Since(options, events, data)| <= 65536
    && Matches(Prompt(options, t.state.phase), Since(options, events, data))
  }

  ghost predicate Refused(options: Options, events: seq<Event>, data: seq<byte>) {
    var t := Run(options, events);
    && t.matchedAt <= |t.arrived| && |Since(options, events, data)| <= 65536
    && t.state.phase.WaitingResult? && Matches(options.failurePattern, Since(options, events, data))
  }

  /**
   A chunk makes a waiting authenticator write the user name or the password if and only if the prompt it waits for
   matches all that arrived since the last match, and that is at most 64 KB. Otherwise it gives up and forwards that
   if it is longer, fails and forwards the chunk if the failure pattern matches, and else goes on waiting.
   */
  lemma ChunkDecides(options: Options, events: seq<Event>, data: seq<byte>)
    requires Waiting(Run(options, events).state.phase)
    ensures var t, u := Run(options, events), Run(options, events + [Arrive(data)]);
      && t.matchedAt <= |t.arrived|
      && u.writes == t.writes + (if Prompted(options, events, data) then [Line(Reply(options, t.state.phase))] else [])
      && u.state.phase == (if |Since(options, events, data)| > 65536 then PassThrough
                           else if Prompted(options, events, data) then Following(options, t.state.phase)
                           else if Refused(options, events, data) then Failed else t.state.phase)
      && u.forwarded == (if |Since(options, events, data)| > 65536 then Since(options, events, data)
                         else if Refused(options, events, data) then data else [])
  {
    var t := Run(options, events);
    RunKeepsInv(options, events);
    SinceIsBuffer(options, events, data);
    RunSnoc(options, events, Arrive(data));
    assert forall bytes: seq<byte> :: [] + bytes == bytes;
    assert t.writes + [] == t.writes;
  }

  /**
   The expect timer ends any waiting and the settle timer the wait for a result; both forward what arrived since the
   last match, and otherwise nothing happens.
   */
  lemma TimerDecides(options: Options, events: seq<Event>, e: Event)
    requires !e.Arrive?
    ensures var t, u := Run(options, events), Run(options, events + [e]);
      var ends := if e.Timeout? then Waiting(t.state.phase) else t.state.phase.WaitingResult?;
      && t.matchedAt <= |t.arrived| && u.writes == t.writes
      && u.state.phase == (if !ends then t.state.phase else if e.Timeout? then PassThrough else Authenticated)
      && u.forwarded == (if ends then t.arrived[t.matchedAt..] else t.forwarded)
  {
    var t := Run(options, events);
    RunKeepsInv(options, events);
    RunSnoc(options, events, e);
    assert [] + [] + t.state.buffer == t.state.buffer && [] + t.state.buffer == t.state.buffer;
    assert t.writes + [] == t.writes && t.forwarded + [] == t.forwarded;
  }

  /** Once authentication is over every chunk goes straight through. */
  lemma EndPhaseForwards(options: Options, events: seq<Event>, data: seq<byte>)
    requires !Waiting(Run(options, events).state.phase)
    ensures var t, u := Run(options, events), Run(options, events + [Arrive(data)]);
      u.forwarded == t.forwarded + data && u.writes == t.writes && u.state == t.state
  {
    RunSnoc(options, events, Arrive(data));
    assert Run(options, events).writes + [] == Run(options, events).writes;
  }

  // ----- the lines in closed form ---------------------------------------------------------------------

  /** All bytes that arrived. */
  function Bytes(events: seq<Event>): seq<byte> {
    if events == [] then []
    else
      var n := |events| - 1;
      Bytes(events[..n]) + (if events[n].Arrive? then events[n].data else [])
  }

  /** A chunk completes a prompt: no timeout came before, and all that arrived matches and is at most 64 KB. */
  predicate Hits(prompt: Option<Pattern>, before: seq<Event>, e: Event) {
    && e.Arrive? && Timeout !in before
    && |Bytes(before) + e.data| <= 65536 && Matches(prompt, Bytes(before) + e.data)
  }

  /** Where a prompt is first complete. */
  function FirstHit(prompt: Option<Pattern>, events: seq<Event>): (k: Option<nat>)
    ensures k.Some? ==> k.value < |events|
  {
    if events == [] then None
    else
      var n := |events| - 1;
      var earlier := FirstHit(prompt, events[..n]);
      if earlier.Some? then earlier else if Hits(prompt, events[..n], events[n]) then Some(n) else None
  }

  /** What happens once the user name is written. */
  function AfterLogin(options: Options, events: seq<Event>): seq<Event> {
    var k := FirstHit(options.loginPrompt, events);
    if k.Some? then events[k.value + 1..] else []
  }

  /** The lines, told from the events: each prompt is looked for in what arrived since the one before it. */
  function Lines(options: Options, events: seq<Event>): seq<seq<byte>> {
    if options.username.None? || FirstHit(options.loginPrompt, events).None? then []
    else if options.password.None? || FirstHit(options.passwordPrompt, AfterLogin(options, events)).None?
    then [options.username.value + [13, 10]]
    else [options.username.value + [13, 10], options.password.value + [13, 10]]
  }

  /** A prompt not found: still waiting with all that arrived, or given up. */
  function StillWaiting(phase: Phase, events: seq<Event>): State {
    if Timeout in events || |Bytes(events)| > 65536 then State(PassThrough, []) else State(phase, Bytes(events))
  }

  ghost predicate AtLogin(options: Options, events: seq<Event>) {
    options.username.Some? && options.loginPrompt.Some? && FirstHit(options.loginPrompt, events).None?
  }

  ghost predicate AtPassword(options: Options, events: seq<Event>) {
    && options.username.Some? && FirstHit(options.loginPrompt, events).Some?
    && options.password.Some? && FirstHit(options.passwordPrompt, AfterLogin(options, events)).None?
  }

  ghost predicate AsTold(options: Options, t: Trace, events: seq<Event>) {
    && t.writes == Lines(options, events)
    && (if AtLogin(options, events) then t.state == StillWaiting(WaitingLogin, events)
        else if AtPassword(options, events)
        then t.state == StillWaiting(WaitingPassword, AfterLogin(options, events))
        else !t.state.phase.WaitingLogin? && !t.state.phase.WaitingPassword?)
  }

  lemma HitSnoc(prompt: Option<Pattern>, before: seq<Event>, e: Event)
    ensures FirstHit(prompt, before + [e]) ==
      if FirstHit(prompt, before).Some? then FirstHit(prompt, before)
      else if Hits(prompt, before, e) then Some(|before|) else None
    ensures Bytes(before + [e]) == Bytes(before) + (if e.Arrive? then e.data else [])
    ensures Timeout in before + [e] <==> Timeout in before || e == Timeout
  {
    assert (before + [e])[..|before|] == before;
  }

  lemma HitNext(prompt: Option<Pattern>, before: seq<Event>, e: Event)
    ensures FirstHit(prompt, before + [e]).Some? <==> FirstHit(prompt, before).Some? || Hits(prompt, before, e)
  {
    HitSnoc(prompt, before, e);
  }

  lemma {:induction false} NoPromptNoHit(events: seq<Event>)
    ensures FirstHit(None, events).None?
  {
    if events != [] {
      NoPromptNoHit(events[..|events| - 1]);
    }
  }

  lemma RestSnoc(before: seq<Event>, e: Event, k: nat)
    requires k <= |before|
    ensures (before + [e])[k..] == before[k..] + [e]
  {
  }

  lemma AfterLoginSnoc(options: Options, before: seq<Event>, e: Event)
    ensures FirstHit(options.loginPrompt, before).Some? ==>
            AfterLogin(options, before + [e]) == AfterLogin(options, before) + [e]
    ensures FirstHit(options.loginPrompt, before).None? ==> AfterLogin(options, before + [e]) == []
  {
    HitSnoc(options.loginPrompt, before, e);
    match FirstHit(options.loginPrompt, before)
    case Some(k) => RestSnoc(before, e, k + 1);
    case None => assert (before + [e])[|before| + 1..] == [];
  }

  lemma WaitingSnoc(phase: Phase, before: seq<Event>, e: Event)
    requires phase != PassThrough
    ensures StillWaiting(phase, before + [e]) ==
      var s := StillWaiting(phase, before);
      if s.phase != phase || e == Timeout then State(PassThrough, [])
      else if !e.Arrive? then s
      else if |s.buffer + e.data| > 65536 then State(PassThrough, []) else State(phase, s.buffer + e.data)
    ensures var s := StillWaiting(phase, before);
      if Timeout in before || |Bytes(before)| > 65536 then s == State(PassThrough, [])
      else s == State(phase, Bytes(before))
  {
    HitSnoc(None, before, e);
    assert Bytes(before) + [] == Bytes(before);
  }

  /** One chunk on a waiting state. */
  lemma WaitingChunk(options: Options, s: State, data: seq<byte>)
    requires s.phase.WaitingLogin? || s.phase.WaitingPassword?
    ensures var r, all := OnData(options, s, data), s.buffer + data;
      if |all| > 65536 then r.write == None && r.state == State(PassThrough, [])
      else if Matches(Prompt(options, s.phase), all)
      then r.write == Some(Line(Reply(options, s.phase))) && r.state == State(Following(options, s.phase), [])
      else r.write == None && r.state == State(s.phase, all)
  {
  }

  /** One event while a prompt is waited for. */
  lemma WaitStep(options: Options, phase: Phase, before: seq<Event>, e: Event)
    requires phase.WaitingLogin? || phase.WaitingPassword?
    ensures var r := React(options, StillWaiting(phase, before), e);
      if Hits(Prompt(options, phase), before, e)
      then r.write == Some(Line(Reply(options, phase))) && r.state == State(Following(options, phase), [])
      else r.write == None && r.state == StillWaiting(phase, before + [e])
  {
    WaitingSnoc(phase, before, e);
    var s := StillWaiting(phase, before);
    if s.phase == phase && e.Arrive? {
      WaitingChunk(options, s, e.data);
      assert s.buffer == Bytes(before);
    }
  }

  lemma LoginStage(options: Options, before: seq<Event>, e: Event)
    requires AtLogin(options, before)
    ensures var all, hit := before + [e], Hits(options.loginPrompt, before, e);
      && Lines(options, before) == [] && Lines(options, all) == (if hit then [Line(options.username)] else [])
      && (AtLogin(options, all) <==> !hit) && (AtPassword(options, all) <==> hit && options.password.Some?)
      && AfterLogin(options, all) == []
  {
    HitSnoc(options.loginPrompt, before, e);
    AfterLoginSnoc(options, before, e);
  }

  lemma PasswordHit(options: Options, before: seq<Event>, e: Event)
    requires AtPassword(options, before)
    ensures var all, rest := before + [e], AfterLogin(options, before);
      && FirstHit(options.loginPrompt, all).Some? && AfterLogin(options, all) == rest + [e]
      && (FirstHit(options.passwordPrompt, AfterLogin(options, all)).Some? <==>
            Hits(options.passwordPrompt, rest, e))
  {
    HitNext(options.loginPrompt, before, e);
    AfterLoginSnoc(options, before, e);
    HitNext(options.passwordPrompt, AfterLogin(options, before), e);
  }

  lemma PasswordStage(options: Options, before: seq<Event>, e: Event)
    requires AtPassword(options, before)
    ensures var all, hit := before + [e], Hits(options.passwordPrompt, AfterLogin(options, before), e);
      && Lines(options, before) == [Line(options.username)]
      && Lines(options, all) == (if hit then [Line(options.username), Line(options.password)]
                                 else [Line(options.username)])
      && !AtLogin(options, all) && (AtPassword(options, all) <==> !hit)
      && AfterLogin(options, all) == AfterLogin(options, before) + [e]
  {
    PasswordHit(options, before, e);
  }

  lemma LaterStage(options: Options, before: seq<Event>, e: Event)
    requires !AtLogin(options, before) && !AtPassword(options, before)
    ensures var all := before + [e];
      Lines(options, all) == Lines(options, before) && !AtLogin(options, all) && !AtPassword(options, all)
  {
    if options.loginPrompt.None? {
      NoPromptNoHit(before);
      NoPromptNoHit(before + [e]);
    }
    HitNext(options.loginPrompt, before, e);
    HitNext(options.passwordPrompt, AfterLogin(options, before), e);
    AfterLoginSnoc(options, before, e);
  }

  lemma StepIs(options: Options, t: Trace, e: Event, state: State, write: Option<seq<byte>>)
    requires React(options, t.state, e).state == state && React(options, t.state, e).write == write
    ensures var u := Step(options, t, e);
      u.state == state && u.writes == if write.Some? then t.writes + [write.value] else t.writes
  {
    assert t.writes + [] == t.writes;
  }

  /** What a step does while a prompt is waited for. */
  lemma WaitingStep(options: Options, t: Trace, phase: Phase, before: seq<Event>, e: Event)
    requires phase.WaitingLogin? || phase.WaitingPassword?
    requires t.state == StillWaiting(phase, before)
    ensures var u := Step(options, t, e);
      if Hits(Prompt(options, phase), before, e)
      then u.writes == t.writes + [Line(Reply(options, phase))] && u.state == State(Following(options, phase), [])
      else u.writes == t.writes && u.state == StillWaiting(phase, before + [e])
  {
    WaitStep(options, phase, before, e);
    var r := React(options, t.state, e);
    StepIs(options, t, e, r.state, r.write);
  }

  lemma LoginStepTold(options: Options, t: Trace, before: seq<Event>, e: Event)
    requires AsTold(options, t, before) && AtLogin(options, before)
    ensures AsTold(options, Step(options, t, e), before + [e])
  {
    WaitingStep(options, t, WaitingLogin, before, e);
    LoginStage(options, before, e);
    assert [] + [Line(options.username)] == [Line(options.username)];
    assert StillWaiting(WaitingPassword, []) == State(WaitingPassword, []);
  }

  lemma PasswordStepTold(options: Options, t: Trace, before: seq<Event>, e: Event)
    requires AsTold(options, t, before) && AtPassword(options, before)
    ensures AsTold(options, Step(options, t, e), before + [e])
  {
    WaitingStep(options, t, WaitingPassword, AfterLogin(options, before), e);
    PasswordStage(options, before, e);
  }

  lemma LaterStep(options: Options, t: Trace, e: Event)
    requires !t.state.phase.WaitingLogin? && !t.state.phase.WaitingPassword?
    ensures var u := Step(options, t, e);
      u.writes == t.writes && !u.state.phase.WaitingLogin? && !u.state.phase.WaitingPassword?
  {
    assert t.writes + [] == t.writes;
  }

  lemma LaterStepTold(options: Options, t: Trace, before: seq<Event>, e: Event)
    requires AsTold(options, t, before) && !AtLogin(options, before) && !AtPassword(options, before)
    ensures AsTold(options, Step(options, t, e), before + [e])
  {
    LaterStep(options, t, e);
    LaterStage(options, before, e);
  }

  /**
   For every sequence of chunks and timers the lines written are the user name if the login prompt was ever complete
   in what had arrived, and then the password if its prompt was complete in what arrived after that chunk; before a
   timeout, and within 64 KB.
   */
  lemma {:induction false} WritesAsTold(options: Options, events: seq<Event>)
    ensures Run(options, events).writes == Lines(options, events)
    ensures AsTold(options, Run(options, events), events)
  {
    if events == [] {
      NoPromptNoHit([]);
    } else {
      var before, e := events[..|events| - 1], events[|events| - 1];
      assert events == before + [e];
      WritesAsTold(options, before);
      if AtLogin(options, before) {
        LoginStepTold(options, Run(options, before), before, e);
      } else if AtPassword(options, before) {
        PasswordStepTold(options, Run(options, before), before, e);
      } else {
        LaterStepTold(options, Run(options, before), before, e);
      }
    }
  }

  // ----- a prompt that stays matched ------------------------------------------------------------------

  /** More text does not undo a match, as for a search without anchors. */
  ghost predicate Lasting(prompt: Option<Pattern>) {
    forall text: seq<byte>, more: seq<byte> :: Matches(prompt, text) ==> Matches(prompt, text + more)
  }

  ghost predicate HasChunk(events: seq<Event>) {
    exists e :: e in events && e.Arrive?
  }

  lemma ChunkSnoc(before: seq<Event>, e: Event)
    ensures HasChunk(before + [e]) <==> HasChunk(before) || e.Arrive?
  {
    if HasChunk(before) {
      var x :| x in before && x.Arrive?;
      assert x in before + [e];
    }
    assert e in before + [e];
  }

  /** Then it does not matter how the text was cut: it is found if and only if all that arrived matches. */
  lemma {:induction false} LastingIsFoundIff(prompt: Option<Pattern>, events: seq<Event>)
    requires Lasting(prompt) && Timeout !in events && |Bytes(events)| <= 65536
    ensures FirstHit(prompt, events).Some? <==> HasChunk(events) && Matches(prompt, Bytes(events))
  {
    if events != [] {
      var before, e := events[..|events| - 1], events[|events| - 1];
      assert events == before + [e];
      HitSnoc(prompt, before, e);
      LastingIsFoundIff(prompt, before);
      ChunkSnoc(before, e);
      assert Bytes(before) + [] == Bytes(before);
      if Matches(prompt, Bytes(before)) && e.Arrive? {
        assert Matches(prompt, Bytes(before) + e.data);
      }
    }
  }

  /** So the user name is written if and only if all that arrived holds the prompt, however it was cut. */
  lemma UserNameIff(options: Options, events: seq<Event>)
    requires options.username.Some? && Lasting(options.loginPrompt)
    requires Timeout !in events && |Bytes(events)| <= 65536
    ensures Run(options, events).writes != [] <==> HasChunk(events) && Matches(options.loginPrompt, Bytes(events))
  {
    WritesAsTold(options, events);
    LastingIsFoundIff(options.loginPrompt, events);
  }

  /** Any text is a login prompt, there is no password, and two bytes of an answer are a failure. */
  function HastyOptions(): Options {
    Options(Some([1]), None, Some((text: seq<byte>) => true), None, Some((text: seq<byte>) => |text| >= 2))
  }

  lemma HastyReactions()
    ensures var options := HastyOptions();
      && OnData(options, State(WaitingLogin, []), [7])
         == Action(State(WaitingResult, []), Some(Line(options.username)), None)
      && OnData(options, State(WaitingResult, []), [8]) == Action(State(WaitingResult, [8]), None, None)
      && OnData(options, State(WaitingResult, [8]), [9]) == Action(State(Failed, []), None, Some([9]))
  {
    assert [] + [7] == [7] && [] + [8] == [8];
  }

  lemma ArriveStep(options: Options, t: Trace, data: seq<byte>, r: Action)
    requires OnData(options, t.state, data) == r && t.dropped == []
    ensures var u := Step(options, t, Arrive(data));
      && u.state == r.state && u.forwarded == t.forwarded + Optional(r.forward) && u.arrived == t.arrived + data
      && u.matchedAt == (if r.write.Some? then |t.arrived + data| else t.matchedAt)
      && u.dropped == (if r.state.phase.Failed? && !t.state.phase.Failed? then t.state.buffer else [])
  {
  }

  /** The answer to the login comes in two chunks; the first is never forwarded. */
  lemma FailureLosesBytes()
    ensures var t := Run(HastyOptions(), [Arrive([7]), Arrive([8]), Arrive([9])]);
      && t.state == State(Failed, []) && t.forwarded == [9]
      && t.arrived == [7, 8, 9] && t.matchedAt == 1 && t.dropped == [8]
  {
    var options := HastyOptions();
    var line := Line(options.username);
    var one, two := [Arrive([7])], [Arrive([7]), Arrive([8])];
    HastyReactions();
    RunSnoc(options, [], Arrive([7]));
    RunSnoc(options, one, Arrive([8]));
    RunSnoc(options, two, Arrive([9]));
    assert [] + one == one && one + [Arrive([8])] == two;
    assert two + [Arrive([9])] == [Arrive([7]), Arrive([8]), Arrive([9])];
    ArriveStep(options, Run(options, []), [7], Action(State(WaitingResult, []), Some(line), None));
    ArriveStep(options, Run(options, one), [8], Action(State(WaitingResult, [8]), None, None));
    ArriveStep(options, Run(options, two), [9], Action(State(Failed, []), None, Some([9])));
  }

  // ----- the object -----------------------------------------------------------------------------

  class Authenticator {
    const options: Options
    var currentState: Phase
    var buffer: seq<byte>

    ghost function Abs(): State
      reads this
    {
      State(currentState, buffer)
    }

    constructor (options: Options)
      ensures this.options == options && Abs() == Initial(options)
    {
      this.options := options;
      currentState := if options.loginPrompt.None? || options.username.None? then PassThrough else WaitingLogin;
      buffer := [];
    }

    method ProcessData(data: seq<byte>) returns (write: Option<seq<byte>>, forward: Option<seq<byte>>)
      modifies this
      ensures Action(Abs(), write, forward) == OnData(options, old(Abs()), data)
    {
      write, forward := None, None;
      if !Waiting(currentState) {
        forward := Some(data);
        return;
      }
      buffer := buffer + data;
      if |buffer| > MAX_AUTH_BUFFER_BYTES {
        forward := Some(buffer);
        buffer, currentState := [], PassThrough;
        return;
      }
      if currentState == WaitingLogin {
        if options.loginPrompt.Some? && options.loginPrompt.value(buffer) {
          buffer := [];
          currentState := if options.password.Some? then WaitingPassword else WaitingResult;
          write := Some(Line(options.username));
        }
      } else if currentState == WaitingPassword {
        if options.passwordPrompt.Some? && options.passwordPrompt.value(buffer) {
          buffer, currentState := [], WaitingResult;
          write := Some(Line(options.password));
        }
      } else if options.failurePattern.Some? && options.failurePattern.value(buffer) {
        buffer, currentState := [], Failed;
        forward := Some(data);
      }
    }

    /** The expect timer firing; `flushed` goes to the registered callback. */
    method FireTimeout() returns (flushed: Option<seq<byte>>)
      modifies this
      ensures Action(Abs(), None, flushed) == OnTimeout(old(Abs()))
    {
      flushed := None;
      if Waiting(currentState) {
        flushed := Some(buffer);
        buffer, currentState := [], PassThrough;
      }
    }

    method SettleAuthResult() returns (flushed: Option<seq<byte>>)
      modifies this
      ensures Action(Abs(), None, flushed) == OnSettle(old(Abs()))
    {
      flushed := None;
      if currentState != WaitingResult {
        return;
      }
      currentState := Authenticated;
      flushed := Some(buffer);
      buffer := [];
    }
  }
}
