/**
 Everything a telnet shell writes to its socket: the data handler's responses and lines, the proactive offers, a
 report for each resize, and what the client types. (app/services/telnet/telnet-service.ts)
 */
module TelnetShell {
  import opened Basics
  import N = TelnetNegotiation
  import I = TelnetItems
  import O = TelnetOptions
  import Auth = TelnetAuth
  import S = TelnetSession

  datatype Event =
    | Handled(event: S.Event)
    | MakeOffers
    | Resize(cols: int, rows: int)
    | Typed(chunk: seq<byte>)

  function Step(options: Auth.Options, s: S.Session, e: Event): S.Session {
    match e
    case Handled(event) => S.Step(options, s, event)
    case MakeOffers => S.OnOffers(s)
    case Resize(cols, rows) => S.OnResize(s, cols, rows)
    case Typed(chunk) => s.(socket := s.socket + [chunk])
  }

  function Run(options: Auth.Options, init: S.Session, events: seq<Event>): S.Session {
    if events == [] then init
    else Step(options, Run(options, init, events[..|events| - 1]), events[|events| - 1])
  }

  /** A shell before its first event: the negotiator has been told the window's size. */
  function Open(options: Auth.Options, core: N.Core): S.Session {
    S.Open(N.State(N.Data, 0, [], core), Some(Auth.Initial(options)))
  }

  // ----- what reaches the shell stream ----------------------------------------------------------------

  /** The events the data handler and the timers see. */
  function HandlerEvents(events: seq<Event>): seq<S.Event> {
    if events == [] then []
    else
      var e := events[|events| - 1];
      HandlerEvents(events[..|events| - 1]) + (if e.Handled? then [e.event] else [])
  }

  /** Equal but for options, window size and terminal name. */
  ghost predicate SameParser(a: N.State, b: N.State) {
    a.parser == b.parser && a.command == b.command && a.subneg == b.subneg
  }

  lemma {:induction false} StrippingIgnoresCore(a: N.State, b: N.State, data: seq<byte>)
    requires SameParser(a, b)
    ensures SameParser(N.Process(a, data).state, N.Process(b, data).state)
    ensures N.Process(a, data).clean == N.Process(b, data).clean
  {
    if data != [] {
      StrippingIgnoresCore(a, b, data[..|data| - 1]);
    }
  }

  /** Two sessions that differ in the socket and in what negotiation has come to. */
  ghost predicate SameShell(s: S.Session, t: S.Session) {
    s.authenticator == t.authenticator && s.pushed == t.pushed && SameParser(s.negotiator, t.negotiator)
  }

  lemma StepKeepsSameShell(options: Auth.Options, s: S.Session, t: S.Session, e: S.Event)
    requires SameShell(s, t)
    ensures SameShell(S.Step(options, s, e), S.Step(options, t, e))
  {
    if e.Segment? {
      StrippingIgnoresCore(s.negotiator, t.negotiator, e.data);
    }
  }

  /**
   Deleting offers, resizes and typing from a run changes nothing of what the authenticator does and the shell
   stream gets.
   */
  lemma {:induction false} ShellPushesAsHandler(options: Auth.Options, init: S.Session, events: seq<Event>)
    ensures SameShell(Run(options, init, events), S.Run(options, init, HandlerEvents(events)))
  {
    if events != [] {
      var n := |events| - 1;
      var kept := HandlerEvents(events[..n]);
      ShellPushesAsHandler(options, init, events[..n]);
      if events[n].Handled? {
        assert (kept + [events[n].event])[..|kept|] == kept;
        StepKeepsSameShell(options, Run(options, init, events[..n]), S.Run(options, init, kept), events[n].event);
      } else {
        assert kept + [] == kept;
      }
    }
  }

  // ----- what reaches the socket ----------------------------------------------------------------------

  /** What one event makes the negotiator's side write. */
  function Negotiated(negotiator: N.State, e: Event): seq<seq<byte>> {
    match e
    case Handled(event) => if event.Segment? then N.Process(negotiator, event.data).responses else []
    case MakeOffers => N.ProactiveOffers(negotiator.core).responses
    case Resize(cols, rows) => [N.EncodeNaws(cols, rows)]
    case Typed(_) => []
  }

  function AsList(write: Option<seq<byte>>): seq<seq<byte>> {
    if write.Some? then [write.value] else []
  }

  /** What one event makes the authenticator or the client write. */
  function Entered(options: Auth.Options, s: S.Session, e: Event): seq<seq<byte>> {
    if e.Typed? then [e.chunk]
    else if e.Handled? && e.event.Segment? && s.authenticator.Some? && Auth.Waiting(s.authenticator.value.phase) then
      var clean := N.Process(s.negotiator, e.event.data).clean;
      if clean == [] then [] else AsList(Auth.OnData(options, s.authenticator.value, clean).write)
    else []
  }

  function Protocol(options: Auth.Options, init: S.Session, events: seq<Event>): seq<seq<byte>> {
    if events == [] then []
    else
      var before := events[..|events| - 1];
      Protocol(options, init, before)
      + Negotiated(Run(options, init, before).negotiator, events[|events| - 1])
  }

  function Texts(options: Auth.Options, init: S.Session, events: seq<Event>): seq<seq<byte>> {
    if events == [] then []
    else
      var before := events[..|events| - 1];
      Texts(options, init, before) + Entered(options, Run(options, init, before), events[|events| - 1])
  }

  function TypedChunks(events: seq<Event>): seq<seq<byte>> {
    if events == [] then []
    else
      var e := events[|events| - 1];
      TypedChunks(events[..|events| - 1]) + (if e.Typed? then [e.chunk] else [])
  }

  /** The lines the authenticator writes. */
  function Lines(options: Auth.Options, init: S.Session, events: seq<Event>): seq<seq<byte>> {
    Auth.Run(options, S.AuthEvents(init.negotiator, HandlerEvents(events))).writes
  }

  lemma StepWrites(options: Auth.Options, s: S.Session, e: Event)
    ensures Step(options, s, e).socket == s.socket + Negotiated(s.negotiator, e) + Entered(options, s, e)
  {
  }

  lemma EnteredIsShort(options: Auth.Options, s: S.Session, e: Event)
    ensures Entered(options, s, e) == AsList(if Entered(options, s, e) == [] then None
                                             else Some(Entered(options, s, e)[0]))
  {
  }

  lemma {:induction false} SocketIsMerged(options: Auth.Options, init: S.Session, events: seq<Event>)
    requires init.socket == []
    ensures S.Interleaves(Run(options, init, events).socket,
                          Protocol(options, init, events), Texts(options, init, events))
  {
    if events != [] {
      var n := |events| - 1;
      var s := Run(options, init, events[..n]);
      var entered := Entered(options, s, events[n]);
      SocketIsMerged(options, init, events[..n]);
      StepWrites(options, s, events[n]);
      EnteredIsShort(options, s, events[n]);
      S.InterleavesStep(s.socket, Protocol(options, init, events[..n]), Texts(options, init, events[..n]),
                        Negotiated(s.negotiator, events[n]), if entered == [] then None else Some(entered[0]));
    }
  }

  /** What the shell knows after a run, in the terms of its handler's run. */
  lemma ShellState(options: Auth.Options, core: N.Core, events: seq<Event>)
    ensures var s := Run(options, Open(options, core), events);
      var kept := HandlerEvents(events);
      && s.authenticator == Some(Auth.Run(options, S.AuthEvents(Open(options, core).negotiator, kept)).state)
      && SameParser(s.negotiator, N.Process(Open(options, core).negotiator, S.Received(kept)).state)
  {
    var init := Open(options, core);
    ShellPushesAsHandler(options, init, events);
    S.SessionFollowsAuthenticator(options, init.negotiator, HandlerEvents(events));
    S.NegotiatorSeesWholeStream(options, init, HandlerEvents(events));
  }

  /** The authenticator event a handler event amounts to, if any. */
  function AuthEvent(negotiator: N.State, event: S.Event): seq<Auth.Event> {
    match event
    case Segment(data) =>
      var clean := N.Process(negotiator, data).clean;
      if clean == [] then [] else [Auth.Arrive(clean)]
    case Timeout => [Auth.Timeout]
    case Settle => [Auth.Settle]
  }

  lemma AuthEventsSnoc(negotiator: N.State, before: seq<S.Event>, event: S.Event)
    ensures S.AuthEvents(negotiator, before + [event]) ==
            S.AuthEvents(negotiator, before) + AuthEvent(N.Process(negotiator, S.Received(before)).state, event)
  {
    assert (before + [event])[..|before|] == before;
  }

  lemma AuthEventIgnoresCore(a: N.State, b: N.State, event: S.Event)
    requires SameParser(a, b)
    ensures AuthEvent(a, event) == AuthEvent(b, event)
  {
    if event.Segment? {
      StrippingIgnoresCore(a, b, event.data);
    }
  }

  lemma WritesSnoc(options: Auth.Options, before: seq<Auth.Event>, more: seq<Auth.Event>)
    requires |more| <= 1
    ensures Auth.Run(options, before + more).writes == Auth.Run(options, before).writes
              + (if more == [] then [] else AsList(Auth.React(options, Auth.Run(options, before).state, more[0]).write))
  {
    if more == [] {
      assert before + more == before;
    } else {
      assert (before + more)[..|before|] == before;
    }
  }

  lemma EnteredIsReaction(options: Auth.Options, s: S.Session, event: S.Event)
    requires s.authenticator.Some?
    ensures var more := AuthEvent(s.negotiator, event);
      Entered(options, s, Handled(event)) ==
      if more == [] then [] else AsList(Auth.React(options, s.authenticator.value, more[0]).write)
  {
  }

  lemma LinesSnoc(options: Auth.Options, core: N.Core, before: seq<Event>, e: Event)
    ensures var init := Open(options, core);
      Lines(options, init, before + [e]) == Lines(options, init, before)
        + (if e.Handled? then Entered(options, Run(options, init, before), e) else [])
  {
    var init := Open(options, core);
    var s := Run(options, init, before);
    var kept := HandlerEvents(before);
    assert (before + [e])[..|before|] == before;
    if e.Handled? {
      ShellState(options, core, before);
      AuthEventsSnoc(init.negotiator, kept, e.event);
      AuthEventIgnoresCore(s.negotiator, N.Process(init.negotiator, S.Received(kept)).state, e.event);
      WritesSnoc(options, S.AuthEvents(init.negotiator, kept), AuthEvent(s.negotiator, e.event));
      EnteredIsReaction(options, s, e.event);
    } else {
      assert HandlerEvents(before + [e]) == kept;
    }
  }

  lemma MergeTexts(texts: seq<seq<byte>>, typed: seq<seq<byte>>, lines: seq<seq<byte>>,
                   entered: seq<seq<byte>>, byClient: bool)
    requires S.Interleaves(texts, typed, lines) && |entered| <= 1
    ensures S.Interleaves(texts + entered, typed + (if byClient then entered else []),
                          lines + (if byClient then [] else entered))
  {
    assert texts + [] == texts && typed + [] == typed && lines + [] == lines;
    if byClient {
      S.InterleavesLeft(texts, typed, lines, entered);
    } else if entered != [] {
      S.InterleavesRight(texts, typed, lines, entered[0]);
    }
  }

  lemma TextsSnoc(options: Auth.Options, core: N.Core, before: seq<Event>, e: Event)
    ensures var init := Open(options, core);
      var entered := Entered(options, Run(options, init, before), e);
      && |entered| <= 1
      && Texts(options, init, before + [e]) == Texts(options, init, before) + entered
      && TypedChunks(before + [e]) == TypedChunks(before) + (if e.Typed? then entered else [])
      && Lines(options, init, before + [e]) == Lines(options, init, before) + (if e.Typed? then [] else entered)
  {
    assert (before + [e])[..|before|] == before;
    LinesSnoc(options, core, before, e);
  }

  /** Beside the negotiator's bytes the socket gets the typed chunks and the authenticator's lines, each in order. */
  lemma {:induction false} TextsAreMerged(options: Auth.Options, core: N.Core, events: seq<Event>)
    ensures var init := Open(options, core);
      S.Interleaves(Texts(options, init, events), TypedChunks(events), Lines(options, init, events))
  {
    if events != [] {
      var n := |events| - 1;
      var init := Open(options, core);
      var before, e := events[..n], events[n];
      TextsAreMerged(options, core, before);
      assert before + [e] == events;
      TextsSnoc(options, core, before, e);
      MergeTexts(Texts(options, init, before), TypedChunks(before), Lines(options, init, before),
                 Entered(options, Run(options, init, before), e), e.Typed?);
    }
  }

  // ----- the ledger of the socket ---------------------------------------------------------------------

  /** The negotiator's own run. */
  function Negotiation(cols: int, rows: int, events: seq<Event>): seq<O.Event> {
    if events == [] then [O.Resize(cols, rows)]
    else
      Negotiation(cols, rows, events[..|events| - 1]) +
      match events[|events| - 1]
      case Handled(event) => if event.Segment? then [O.Inbound(event.data)] else []
      case MakeOffers => [O.MakeOffers]
      case Resize(c, r) => [O.Resize(c, r)]
      case Typed(_) => []
  }

  /** The shell of a terminal of this name and size. */
  function OpenShell(options: Auth.Options, terminalType: seq<byte>, cols: int, rows: int): S.Session {
    Open(options, N.Core(map[], cols, rows, terminalType))
  }

  /** The window reports a resize itself writes. */
  function Resizes(events: seq<Event>): nat {
    if events == [] then 0
    else Resizes(events[..|events| - 1]) + (if events[|events| - 1].Resize? then 1 else 0)
  }

  ghost function Reports(n: nat): O.Tally {
    O.Tally(0, 0, 0, 0, n)
  }

  /** The step of the negotiator's run for one event. */
  function TraceStep(t: O.Trace, e: Event): O.Trace {
    match e
    case Handled(event) => if event.Segment? then O.Step(t, O.Inbound(event.data)) else t
    case MakeOffers => O.Step(t, O.MakeOffers)
    case Resize(cols, rows) => O.Step(t, O.Resize(cols, rows))
    case Typed(_) => t
  }

  lemma TraceSnoc(terminalType: seq<byte>, cols: int, rows: int, before: seq<Event>, e: Event)
    ensures O.Run(terminalType, Negotiation(cols, rows, before + [e]))
         == TraceStep(O.Run(terminalType, Negotiation(cols, rows, before)), e)
  {
    var kept, all := Negotiation(cols, rows, before), Negotiation(cols, rows, before + [e]);
    assert (before + [e])[..|before|] == before;
    if all != kept {
      assert all[..|all| - 1] == kept;
    }
  }

  lemma ReportTally(cols: int, rows: int, o: byte)
    ensures O.Sent([N.EncodeNaws(cols, rows)], o) == Reports(1)
  {
    O.NawsIsReport(cols, rows);
    O.SentSubnegotiation(N.EncodeNaws(cols, rows), o);
  }

  /** The state's negotiator is the trace's, and an event makes it write what it adds to the trace, or a report. */
  lemma NegotiatedIsSent(options: Auth.Options, s: S.Session, t: O.Trace, e: Event)
    requires s.negotiator == t.state
    ensures Step(options, s, e).negotiator == TraceStep(t, e).state
    ensures TraceStep(t, e).sent == t.sent + (if e.Resize? then [] else Negotiated(s.negotiator, e))
    ensures TraceStep(t, e).received == t.received + (if e.Handled? && e.event.Segment? then e.event.data else [])
    ensures e.Resize? ==> Negotiated(s.negotiator, e) == [N.EncodeNaws(e.cols, e.rows)]
  {
  }

  lemma TallyBoth(sent: seq<seq<byte>>, protocol: seq<seq<byte>>, n: nat, more: seq<seq<byte>>, o: byte)
    requires O.Sent(protocol, o) == O.Plus(O.Sent(sent, o), Reports(n))
    ensures O.Sent(protocol + more, o) == O.Plus(O.Sent(sent + more, o), Reports(n))
  {
    O.SentAppend(protocol, more, o);
    O.SentAppend(sent, more, o);
  }

  lemma PlusMore(a: O.Tally, b: O.Tally, c: O.Tally, n: nat)
    ensures O.Plus(O.Plus(a, b), c) == O.Plus(O.Plus(a, c), b) == O.Plus(a, O.Plus(b, c))
    ensures O.Plus(O.Plus(a, Reports(n)), Reports(1)) == O.Plus(a, Reports(n + 1))
  {
  }

  lemma TallyReport(sent: seq<seq<byte>>, protocol: seq<seq<byte>>, n: nat, report: seq<byte>, o: byte)
    requires O.Sent(protocol, o) == O.Plus(O.Sent(sent, o), Reports(n)) && O.Sent([report], o) == Reports(1)
    ensures O.Sent(protocol + [report], o) == O.Plus(O.Sent(sent, o), Reports(n + 1))
  {
    O.SentAppend(protocol, [report], o);
    PlusMore(O.Sent(sent, o), O.Zero(), O.Zero(), n);
  }

  /** The negotiator's run writes what the shell's run writes for it, but for the reports of resizes. */
  ghost predicate Mirrors(s: S.Session, received: seq<byte>, protocol: seq<seq<byte>>, resizes: nat, t: O.Trace,
                          o: byte) {
    && s.negotiator == t.state && received == t.received
    && O.Sent(protocol, o) == O.Plus(O.Sent(t.sent, o), Reports(resizes))
  }

  lemma StepMirrors(options: Auth.Options, s: S.Session, received: seq<byte>, protocol: seq<seq<byte>>, n: nat,
                    t: O.Trace, e: Event, o: byte)
    requires Mirrors(s, received, protocol, n, t, o)
    ensures Mirrors(Step(options, s, e),
                    received + (if e.Handled? && e.event.Segment? then e.event.data else []),
                    protocol + Negotiated(s.negotiator, e), n + (if e.Resize? then 1 else 0), TraceStep(t, e), o)
  {
    NegotiatedIsSent(options, s, t, e);
    if e.Resize? {
      ResizeTally(s, protocol, n, t, e, o);
    } else {
      TallyBoth(t.sent, protocol, n, Negotiated(s.negotiator, e), o);
    }
  }

  lemma ResizeTally(s: S.Session, protocol: seq<seq<byte>>, n: nat, t: O.Trace, e: Event, o: byte)
    requires e.Resize? && O.Sent(protocol, o) == O.Plus(O.Sent(t.sent, o), Reports(n))
    ensures O.Sent(protocol + Negotiated(s.negotiator, e), o) == O.Plus(O.Sent(TraceStep(t, e).sent, o), Reports(n + 1))
  {
    ReportTally(e.cols, e.rows, o);
    TallyReport(t.sent, protocol, n, N.EncodeNaws(e.cols, e.rows), o);
    assert TraceStep(t, e).sent == t.sent;
  }

  lemma RunSnoc(options: Auth.Options, init: S.Session, before: seq<Event>, e: Event)
    ensures var s := Run(options, init, before);
      && Run(options, init, before + [e]) == Step(options, s, e)
      && Protocol(options, init, before + [e]) == Protocol(options, init, before) + Negotiated(s.negotiator, e)
      && Resizes(before + [e]) == Resizes(before) + (if e.Resize? then 1 else 0)
  {
    assert (before + [e])[..|before|] == before;
  }

  ghost predicate RunMirrors(options: Auth.Options, terminalType: seq<byte>, cols: int, rows: int,
                             events: seq<Event>, o: byte) {
    var init := OpenShell(options, terminalType, cols, rows);
    Mirrors(Run(options, init, events), S.Received(HandlerEvents(events)), Protocol(options, init, events),
            Resizes(events), O.Run(terminalType, Negotiation(cols, rows, events)), o)
  }

  lemma RunMirrorsSnoc(options: Auth.Options, terminalType: seq<byte>, cols: int, rows: int, before: seq<Event>,
                       e: Event, o: byte)
    requires RunMirrors(options, terminalType, cols, rows, before, o)
    ensures RunMirrors(options, terminalType, cols, rows, before + [e], o)
  {
    var init := OpenShell(options, terminalType, cols, rows);
    RunSnoc(options, init, before, e);
    TraceSnoc(terminalType, cols, rows, before, e);
    ReceivedSnoc(before, e);
    StepMirrors(options, Run(options, init, before), S.Received(HandlerEvents(before)),
                Protocol(options, init, before), Resizes(before),
                O.Run(terminalType, Negotiation(cols, rows, before)), e, o);
  }

  lemma OpenMirrors(options: Auth.Options, terminalType: seq<byte>, cols: int, rows: int, o: byte)
    ensures RunMirrors(options, terminalType, cols, rows, [], o)
  {
    var first := [O.Resize(cols, rows)];
    assert Negotiation(cols, rows, []) == first && first[..0] == [];
    assert O.Sent([], o) == O.Zero();
  }

  lemma {:induction false} ShellMirrorsTrace(options: Auth.Options, terminalType: seq<byte>, cols: int, rows: int,
                                             events: seq<Event>, o: byte)
    ensures RunMirrors(options, terminalType, cols, rows, events, o)
  {
    if events == [] {
      OpenMirrors(options, terminalType, cols, rows, o);
    } else {
      var before, e := events[..|events| - 1], events[|events| - 1];
      assert events == before + [e];
      ShellMirrorsTrace(options, terminalType, cols, rows, before, o);
      RunMirrorsSnoc(options, terminalType, cols, rows, before, e, o);
    }
  }

  lemma ReceivedSnoc(before: seq<Event>, e: Event)
    ensures S.Received(HandlerEvents(before + [e])) == S.Received(HandlerEvents(before))
              + (if e.Handled? && e.event.Segment? then e.event.data else [])
  {
    var kept := HandlerEvents(before);
    assert (before + [e])[..|before|] == before;
    if e.Handled? {
      assert (kept + [e.event])[..|kept|] == kept;
    } else {
      assert kept + [] == kept;
    }
  }

  lemma {:induction false} InterleavedTally(whole: seq<seq<byte>>, a: seq<seq<byte>>, b: seq<seq<byte>>, o: byte)
    requires S.Interleaves(whole, a, b)
    ensures O.Sent(whole, o) == O.Plus(O.Sent(a, o), O.Sent(b, o))
    decreases |whole|
  {
    if whole != [] {
      var n := |whole| - 1;
      if a != [] && a[|a| - 1] == whole[n] && S.Interleaves(whole[..n], a[..|a| - 1], b) {
        InterleavedTally(whole[..n], a[..|a| - 1], b, o);
        PlusMore(O.Sent(a[..|a| - 1], o), O.Sent(b, o), O.SentOne(whole[n], o), 0);
      } else {
        InterleavedTally(whole[..n], a, b[..|b| - 1], o);
        PlusMore(O.Sent(a, o), O.Sent(b[..|b| - 1], o), O.SentOne(whole[n], o), 0);
      }
    }
  }

  /**
   The whole socket's books for option `o`, for every order of segments, timers, offers, resizes and typing: the
   negotiation buffers are what is owed to the items received and one report for each resize.
   */
  lemma SocketLedger(options: Auth.Options, terminalType: seq<byte>, cols: int, rows: int, events: seq<Event>, o: byte)
    ensures var init := OpenShell(options, terminalType, cols, rows);
      var s := Run(options, init, events);
      var items := I.Tokenize(S.Received(HandlerEvents(events))).items;
      var owed := O.Plus(O.Owed(O.Heard(items, o), o, O.Left(s.negotiator.core, o)), Reports(Resizes(events)));
      O.Sent(s.socket, o) == O.Plus(owed, O.Sent(Texts(options, init, events), o))
  {
    var init := OpenShell(options, terminalType, cols, rows);
    SocketIsMerged(options, init, events);
    InterleavedTally(Run(options, init, events).socket, Protocol(options, init, events),
                     Texts(options, init, events), o);
    ShellMirrorsTrace(options, terminalType, cols, rows, events, o);
    O.EveryResponseIsAccountedFor(terminalType, Negotiation(cols, rows, events), o);
  }

  // ----- when nobody types commands -------------------------------------------------------------------

  /** No byte 0xFF, as in every text encoded in UTF-8. */
  ghost predicate IsText(buffer: seq<byte>) {
    N.IAC !in buffer
  }

  lemma {:induction false} TextTally(buffers: seq<seq<byte>>, o: byte)
    requires forall i :: 0 <= i < |buffers| ==> IsText(buffers[i])
    ensures O.Sent(buffers, o) == O.Zero()
  {
    if buffers != [] {
      TextTally(buffers[..|buffers| - 1], o);
      assert IsText(buffers[|buffers| - 1]);
    }
  }

  /** User name, password and everything typed are texts. */
  ghost predicate OnlyTexts(options: Auth.Options, events: seq<Event>) {
    && IsText(Auth.Line(options.username)) && IsText(Auth.Line(options.password))
    && forall i :: 0 <= i < |TypedChunks(events)| ==> IsText(TypedChunks(events)[i])
  }

  lemma LinesAreTexts(options: Auth.Options, core: N.Core, events: seq<Event>, i: nat)
    requires IsText(Auth.Line(options.username)) && IsText(Auth.Line(options.password))
    requires i < |Lines(options, Open(options, core), events)|
    ensures IsText(Lines(options, Open(options, core), events)[i])
  {
    var init := Open(options, core);
    Auth.CredentialsAtMostOnceInOrder(options, S.AuthEvents(init.negotiator, HandlerEvents(events)));
    assert Lines(options, init, events)[i] == [Auth.Line(options.username), Auth.Line(options.password)][i];
  }

  lemma TextsAreTexts(options: Auth.Options, core: N.Core, events: seq<Event>, o: byte)
    requires OnlyTexts(options, events)
    ensures O.Sent(Texts(options, Open(options, core), events), o) == O.Zero()
  {
    var init := Open(options, core);
    var lines := Lines(options, init, events);
    TextsAreMerged(options, core, events);
    InterleavedTally(Texts(options, init, events), TypedChunks(events), lines, o);
    forall i | 0 <= i < |lines| ensures IsText(lines[i]) {
      LinesAreTexts(options, core, events, i);
    }
    TextTally(TypedChunks(events), o);
    TextTally(lines, o);
  }

  lemma {:induction false} OffersAreNegotiated(cols: int, rows: int, events: seq<Event>)
    ensures O.MakeOffers in Negotiation(cols, rows, events) <==> MakeOffers in events
  {
    if events != [] {
      var n := |events| - 1;
      OffersAreNegotiated(cols, rows, events[..n]);
      assert events == events[..n] + [events[n]];
    }
  }

  /**
   On a socket where only texts are typed there are as many window reports as DO NAWS received plus resizes, and one
   WILL of each of the options 1, 3, 24 and 31 that was asked for by a DO, or offered, being 24 or 31; no other.
   */
  lemma ReportsOnSocket(options: Auth.Options, terminalType: seq<byte>, cols: int, rows: int, events: seq<Event>,
                        o: byte)
    requires OnlyTexts(options, events)
    ensures var socket := Run(options, OpenShell(options, terminalType, cols, rows), events).socket;
      var items := I.Tokenize(S.Received(HandlerEvents(events))).items;
      var asked := o in {1, 3, 24, 31} && I.Command(N.DO, o) in items;
      var offered := MakeOffers in events && (o == 24 || o == 31);
      && Count(socket, O.IsNawsReport) ==
           Count(items, (item: I.Item) => item == I.Command(N.DO, N.NAWS)) + Resizes(events)
      && Count(socket, (x: seq<byte>) => O.IsCommand(x, N.WILL, o)) == if asked || offered then 1 else 0
  {
    var socket := Run(options, OpenShell(options, terminalType, cols, rows), events).socket;
    SocketLedger(options, terminalType, cols, rows, events, o);
    TextsAreTexts(options, N.Core(map[], cols, rows, terminalType), events, o);
    O.SentCounts(socket, o);
    O.HeardCounts(I.Tokenize(S.Received(HandlerEvents(events))).items, o);
    ShellMirrorsTrace(options, terminalType, cols, rows, events, o);
    O.RunStands(terminalType, Negotiation(cols, rows, events), o);
    OffersAreNegotiated(cols, rows, events);
  }
}
