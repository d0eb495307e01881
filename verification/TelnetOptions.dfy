/**
 Option negotiation over whole runs: proactive offers, window changes and inbound segments in any
 order. Every response the negotiator ever sends is accounted for by the items it received.
 */
module TelnetOptions {
  import opened Basics
  import opened TelnetNegotiation
  import opened TelnetItems

  datatype Event =
    | Inbound(segment: seq<byte>)
    | MakeOffers
    | Resize(cols: int, rows: int)

  /** A negotiator with everything it has sent and received. */
  datatype Trace = Trace(state: State, sent: seq<seq<byte>>, received: seq<byte>)

  function Start(terminalType: seq<byte>): Trace {
    Trace(State(Data, 0, [], Core(map[], 80, 24, terminalType)), [], [])
  }

  function Step(t: Trace, e: Event): Trace {
    match e
    case Inbound(segment) =>
      var out := Process(t.state, segment);
      Trace(out.state, t.sent + out.responses, t.received + segment)
    case MakeOffers =>
      var r := ProactiveOffers(t.state.core);
      t.(state := t.state.(core := r.core), sent := t.sent + r.responses)
    case Resize(cols, rows) => t.(state := t.state.(core := t.state.core.(cols := cols, rows := rows)))
  }

  function Run(terminalType: seq<byte>, events: seq<Event>): Trace {
    if events == [] then Start(terminalType)
    else Step(Run(terminalType, events[..|events| - 1]), events[|events| - 1])
  }

  function Rank(s: OptionState): nat {
    match s
    case Inactive => 0
    case Offered => 1
    case Active => 2
  }

  predicate IsNawsReport(buffer: seq<byte>) {
    |buffer| > 3 && buffer[0] == IAC && buffer[1] == SB && buffer[2] == NAWS
  }

  /** The three-byte command IAC verb o. */
  predicate IsCommand(buffer: seq<byte>, verb: byte, o: byte) {
    |buffer| == 3 && buffer[0] == IAC && buffer[1] == verb && buffer[2] == o
  }

  // ----- one reaction ---------------------------------------------------------------------------

  /** How often a list of buffers announces, accepts, refuses or forbids option `o`, or reports a size. */
  datatype Tally = Tally(will: nat, do: nat, wont: nat, dont: nat, naws: nat)

  ghost function Plus(a: Tally, b: Tally): Tally {
    Tally(a.will + b.will, a.do + b.do, a.wont + b.wont, a.dont + b.dont, a.naws + b.naws)
  }

  ghost function Zero(): Tally {
    Tally(0, 0, 0, 0, 0)
  }

  ghost function SentOne(buffer: seq<byte>, o: byte): Tally {
    Tally(if IsCommand(buffer, WILL, o) then 1 else 0, if IsCommand(buffer, DO, o) then 1 else 0,
          if IsCommand(buffer, WONT, o) then 1 else 0, if IsCommand(buffer, DONT, o) then 1 else 0,
          if IsNawsReport(buffer) then 1 else 0)
  }

  ghost function Sent(buffers: seq<seq<byte>>, o: byte): Tally {
    if buffers == [] then Zero()
    else Plus(Sent(buffers[..|buffers| - 1], o), SentOne(buffers[|buffers| - 1], o))
  }

  lemma PlusFacts(a: Tally, b: Tally, c: Tally)
    ensures Plus(Plus(a, b), c) == Plus(a, Plus(b, c))
    ensures Plus(a, Zero()) == a && Plus(Zero(), a) == a
  {
  }

  lemma {:induction false} SentAppend(xs: seq<seq<byte>>, ys: seq<seq<byte>>, o: byte)
    ensures Sent(xs + ys, o) == Plus(Sent(xs, o), Sent(ys, o))
  {
    if ys == [] {
      assert xs + ys == xs;
      PlusFacts(Sent(xs, o), Zero(), Zero());
    } else {
      assert (xs + ys)[..|xs + ys| - 1] == xs + ys[..|ys| - 1];
      SentAppend(xs, ys[..|ys| - 1], o);
      PlusFacts(Sent(xs, o), Sent(ys[..|ys| - 1], o), SentOne(ys[|ys| - 1], o));
    }
  }

  lemma SentSingle(buffer: seq<byte>, o: byte)
    ensures Sent([buffer], o) == SentOne(buffer, o)
  {
    assert [buffer][..0] == [];
    PlusFacts(SentOne(buffer, o), Zero(), Zero());
  }

  /** A three-byte command counts once, under its own verb and option. */
  lemma SentCommand(verb: byte, option: byte, o: byte)
    ensures Sent([[IAC, verb, option]], o) ==
      Tally(if verb == WILL && option == o then 1 else 0, if verb == DO && option == o then 1 else 0,
            if verb == WONT && option == o then 1 else 0, if verb == DONT && option == o then 1 else 0, 0)
  {
    SentSingle([IAC, verb, option], o);
  }

  /** A subnegotiation counts as nothing but, possibly, a window report. */
  lemma SentSubnegotiation(buffer: seq<byte>, o: byte)
    requires |buffer| > 3
    ensures Sent([buffer], o) == Tally(0, 0, 0, 0, if IsNawsReport(buffer) then 1 else 0)
  {
    SentSingle(buffer, o);
  }

  lemma NawsIsReport(cols: int, rows: int)
    ensures IsNawsReport(EncodeNaws(cols, rows))
  {
    var tail := EscapeByte(HighByte(cols)) + EscapeByte(LowByte(cols))
      + EscapeByte(HighByte(rows)) + EscapeByte(LowByte(rows)) + [IAC, SE];
    assert EncodeNaws(cols, rows) == [IAC, SB, NAWS] + tail && |tail| > 0;
  }

  /** How often option `o` was announced, requested, refused or forbidden, and NAWS requested. */
  ghost function HeardOne(item: Item, o: byte): Tally {
    Tally(if item == Command(WILL, o) then 1 else 0, if item == Command(DO, o) then 1 else 0,
          if item == Command(WONT, o) then 1 else 0, if item == Command(DONT, o) then 1 else 0,
          if item == Command(DO, NAWS) then 1 else 0)
  }

  ghost function Heard(items: seq<Item>, o: byte): Tally {
    if items == [] then Zero()
    else Plus(Heard(items[..|items| - 1], o), HeardOne(items[|items| - 1], o))
  }

  lemma HeardSnoc(items: seq<Item>, item: Item, o: byte)
    ensures Heard(items + [item], o) == Plus(Heard(items, o), HeardOne(item, o))
  {
    assert (items + [item])[..|items|] == items;
  }

  /** What the negotiator owes for option `o` to what it heard, WILL aside. */
  ghost function Owed(heard: Tally, o: byte, will: nat): Tally {
    if Supported(o) then Tally(will, heard.will, heard.dont, heard.wont, heard.naws)
    else Tally(0, 0, heard.dont + heard.do, heard.wont + heard.will, heard.naws)
  }

  lemma OwedPlus(a: Tally, b: Tally, o: byte, m: nat, n: nat)
    ensures Owed(Plus(a, b), o, m + n) == Plus(Owed(a, o, m), Owed(b, o, n))
  {
  }

  /** The two parts of the answer to a DO of a supported option. */
  ghost function Announcement(core: Core, option: byte): seq<seq<byte>> {
    if core.Option(option) == Inactive then [[IAC, WILL, option]] else []
  }

  ghost function SizeReport(core: Core, option: byte): seq<seq<byte>> {
    if option == NAWS then [EncodeNaws(core.cols, core.rows)] else []
  }

  lemma DoAnswers(core: Core, option: byte)
    requires Supported(option)
    ensures HandleDo(core, option).responses == Announcement(core, option) + SizeReport(core, option)
  {
  }

  lemma AnnouncementTally(core: Core, option: byte, o: byte)
    ensures Sent(Announcement(core, option), o) ==
      Tally(if option == o && core.Option(o) == Inactive then 1 else 0, 0, 0, 0, 0)
  {
    if core.Option(option) == Inactive {
      SentCommand(WILL, option, o);
    }
  }

  lemma SizeReportTally(core: Core, option: byte, o: byte)
    ensures Sent(SizeReport(core, option), o) == Tally(0, 0, 0, 0, if option == NAWS then 1 else 0)
  {
    if option == NAWS {
      NawsIsReport(core.cols, core.rows);
      SentSubnegotiation(EncodeNaws(core.cols, core.rows), o);
    }
  }

  lemma DoTally(core: Core, option: byte, o: byte)
    requires Supported(option)
    ensures Sent(HandleDo(core, option).responses, o) ==
      Tally(if option == o && core.Option(o) == Inactive then 1 else 0, 0, 0, 0, if option == NAWS then 1 else 0)
  {
    DoAnswers(core, option);
    AnnouncementTally(core, option, o);
    SizeReportTally(core, option, o);
    SentAppend(Announcement(core, option), SizeReport(core, option), o);
  }

  /** How many WILLs an item provokes for option `o`. */
  ghost function Announced(core: Core, item: Item, o: byte): nat {
    if core.Option(o) == Inactive && item == Command(DO, o) && Supported(o) then 1 else 0
  }

  /** The verb that answers a command other than a DO of a supported option. */
  ghost function Answer(verb: byte, option: byte): byte {
    if verb == WILL then (if Supported(option) then DO else DONT) else if verb == WONT then DONT else WONT
  }

  lemma AnswerTally(core: Core, verb: byte, option: byte, o: byte)
    requires IsVerb(verb) && !(verb == DO && Supported(option))
    ensures React(core, Command(verb, option)).responses == [[IAC, Answer(verb, option), option]]
    ensures Sent([[IAC, Answer(verb, option), option]], o) == Owed(HeardOne(Command(verb, option), o), o, 0)
  {
    SentCommand(Answer(verb, option), option, o);
  }

  lemma DoOwed(core: Core, option: byte, o: byte)
    requires Supported(option)
    ensures var item := Command(DO, option);
      Owed(HeardOne(item, o), o, Announced(core, item, o)) ==
        Tally(if option == o && core.Option(o) == Inactive then 1 else 0, 0, 0, 0, if option == NAWS then 1 else 0)
  {
    assert Command(DO, option) == Command(DO, o) <==> option == o;
    assert Command(DO, option) == Command(DO, NAWS) <==> option == NAWS;
  }

  lemma NothingAnnounced(core: Core, verb: byte, option: byte, o: byte)
    requires !(verb == DO && Supported(option))
    ensures Announced(core, Command(verb, option), o) == 0
  {
    assert Command(verb, option) == Command(DO, o) ==> verb == DO && option == o;
  }

  lemma CommandTally(core: Core, verb: byte, option: byte, o: byte)
    requires IsVerb(verb)
    ensures var item := Command(verb, option);
      Sent(React(core, item).responses, o) == Owed(HeardOne(item, o), o, Announced(core, item, o))
  {
    if verb == DO && Supported(option) {
      DoTally(core, option, o);
      DoOwed(core, option, o);
    } else {
      AnswerTally(core, verb, option, o);
      NothingAnnounced(core, verb, option, o);
    }
  }

  lemma TerminalTally(core: Core, payload: seq<byte>, o: byte)
    ensures Sent(SubnegotiationReplies(core, payload), o) == Zero()
  {
    var buffer := EncodeTerminalType(core.terminalType);
    SentSubnegotiation(buffer, o);
    assert buffer[2] == TERMINAL_TYPE;
  }

  /** What one item makes the negotiator send, option by option. */
  lemma ReactTally(core: Core, item: Item, o: byte)
    requires ValidItem(item)
    ensures Sent(React(core, item).responses, o) == Owed(HeardOne(item, o), o, Announced(core, item, o))
  {
    match item
    case Command(verb, option) => CommandTally(core, verb, option, o);
    case Subnegotiation(payload) => TerminalTally(core, payload, o);
    case _ =>
  }

  /** An item only moves an option forward, and only a DO of a supported option moves it. */
  lemma ReactOption(core: Core, item: Item, o: byte)
    ensures React(core, item).core.Option(o) ==
      if item == Command(DO, o) && Supported(o) then Active else core.Option(o)
  {
  }

  /** One if option `o` has left the inactive state. */
  ghost function Left(core: Core, o: byte): nat {
    if core.Option(o) == Inactive then 0 else 1
  }

  // ----- the ledger of a whole run ---------------------------------------------------------------

  /** The negotiator's books for option `o`, against the items read off the received bytes. */
  ghost predicate Ledger(t: Trace, o: byte) {
    var scan := Tokenize(t.received);
    var items := scan.items;
    && ValidScan(scan) && Agrees(t.state, scan.pending)
    && (!Supported(o) ==> t.state.core.Option(o) == Inactive)
    && Sent(t.sent, o) == Owed(Heard(items, o), o, Left(t.state.core, o))
  }

  function Feed(t: Trace, b: byte): Trace {
    var out := StepByte(t.state, b);
    Trace(out.state, t.sent + out.responses, t.received + [b])
  }

  /** One more byte completes no item, and nothing happens, or one, and the negotiator reacts to it. */
  lemma ByteScans(s: State, scan: Scan, b: byte)
    requires ValidScan(scan) && Agrees(s, scan.pending)
    ensures var out, next := StepByte(s, b), ScanByte(scan, b);
      && Agrees(out.state, next.pending)
      && (next.items == scan.items ==> out.responses == [] && out.state.core == s.core)
      && (next.items != scan.items ==>
            |next.items| == |scan.items| + 1 &&
            var r := React(s.core, next.items[|scan.items|]);
            out.responses == r.responses && out.state.core == r.core)
  {
    ScanByteGrows(scan, b);
    if ScanByte(scan, b).items == scan.items {
      StepInside(s, scan, b);
    } else {
      StepCompletes(s, scan, b);
    }
  }

  lemma FeedScans(t: Trace, b: byte)
    requires ValidScan(Tokenize(t.received)) && Agrees(t.state, Tokenize(t.received).pending)
    ensures var scan, next := Tokenize(t.received), Tokenize(t.received + [b]);
      && ValidScan(next) && Agrees(Feed(t, b).state, next.pending)
      && (next.items == scan.items || next.items == scan.items + [next.items[|scan.items|]])
      && (next.items == scan.items ==>
            StepByte(t.state, b).responses == [] && Feed(t, b).state.core == t.state.core)
      && (next.items != scan.items ==>
            var r := React(t.state.core, next.items[|scan.items|]);
            StepByte(t.state, b).responses == r.responses && Feed(t, b).state.core == r.core)
  {
    assert (t.received + [b])[..|t.received|] == t.received;
    ScanByteGrows(Tokenize(t.received), b);
    ByteScans(t.state, Tokenize(t.received), b);
  }

  lemma FeedKeepsLedger(t: Trace, b: byte, o: byte)
    requires Ledger(t, o)
    ensures Ledger(Feed(t, b), o)
  {
    var scan, next := Tokenize(t.received), Tokenize(t.received + [b]);
    var responses := StepByte(t.state, b).responses;
    FeedScans(t, b);
    SentAppend(t.sent, responses, o);
    if next.items == scan.items {
      assert t.sent + responses == t.sent;
    } else {
      var item := next.items[|scan.items|];
      var core := t.state.core;
      ReactTally(core, item, o);
      ReactOption(core, item, o);
      HeardSnoc(scan.items, item, o);
      OwedPlus(Heard(scan.items, o), HeardOne(item, o), o, Left(core, o), Announced(core, item, o));
      assert Supported(o) ==> Left(React(core, item).core, o) == Left(core, o) + Announced(core, item, o);
    }
  }

  lemma InboundLast(t: Trace, segment: seq<byte>)
    requires segment != []
    ensures var n := |segment| - 1;
      Step(t, Inbound(segment)) == Feed(Step(t, Inbound(segment[..n])), segment[n])
  {
    var n := |segment| - 1;
    var out := Process(t.state, segment[..n]);
    var last := StepByte(out.state, segment[n]).responses;
    assert t.received + segment[..n] + [segment[n]] == t.received + segment;
    assert t.sent + out.responses + last == t.sent + (out.responses + last);
  }

  lemma FeedAdvances(t: Trace, b: byte, o: byte)
    requires Ledger(t, o)
    ensures Rank(t.state.core.Option(o)) <= Rank(Feed(t, b).state.core.Option(o))
  {
    FeedScans(t, b);
    var scan, next := Tokenize(t.received), Tokenize(t.received + [b]);
    if next.items != scan.items {
      ReactOption(t.state.core, next.items[|scan.items|], o);
    }
  }

  lemma {:induction false} InboundKeepsLedger(t: Trace, segment: seq<byte>, o: byte)
    requires Ledger(t, o)
    ensures Ledger(Step(t, Inbound(segment)), o)
    ensures Rank(t.state.core.Option(o)) <= Rank(Step(t, Inbound(segment)).state.core.Option(o))
  {
    if segment == [] {
      assert t.sent + [] == t.sent && t.received + [] == t.received;
    } else {
      var n := |segment| - 1;
      InboundLast(t, segment);
      InboundKeepsLedger(t, segment[..n], o);
      FeedKeepsLedger(Step(t, Inbound(segment[..n])), segment[n], o);
      FeedAdvances(Step(t, Inbound(segment[..n])), segment[n], o);
    }
  }

  /** An offer is the announcement of the option, and marks it offered if it was inactive. */
  lemma OfferAnnounces(core: Core, option: byte, o: byte)
    ensures var r := Offer(core, option);
      && r.responses == Announcement(core, option)
      && r.core.Option(o) == if o == option && core.Option(o) == Inactive then Offered else core.Option(o)
  {
  }

  lemma OwedMore(heard: Tally, o: byte, will: nat, more: nat)
    requires more > 0 ==> Supported(o)
    ensures Owed(heard, o, will + more) == Plus(Owed(heard, o, will), Tally(more, 0, 0, 0, 0))
  {
  }

  /** How many WILLs an offer of `option` sends for option `o`. */
  ghost function Offers(core: Core, option: byte, o: byte): nat {
    if option == o && core.Option(o) == Inactive then 1 else 0
  }

  lemma MoreSent(sent: seq<seq<byte>>, more: seq<seq<byte>>, o: byte, tally: Tally)
    requires Sent(more, o) == tally
    ensures Sent(sent + more, o) == Plus(Sent(sent, o), tally)
  {
    SentAppend(sent, more, o);
  }

  lemma OfferTally(core: Core, sent: seq<seq<byte>>, option: byte, o: byte)
    ensures Sent(sent + Announcement(core, option), o)
         == Plus(Sent(sent, o), Tally(Offers(core, option, o), 0, 0, 0, 0))
  {
    AnnouncementTally(core, option, o);
    MoreSent(sent, Announcement(core, option), o, Tally(Offers(core, option, o), 0, 0, 0, 0));
  }

  lemma OfferLeaves(core: Core, option: byte, o: byte)
    ensures var r := Offer(core, option);
      Left(r.core, o) == Left(core, o) + Offers(core, option, o) && Rank(core.Option(o)) <= Rank(r.core.Option(o))
  {
    OfferAnnounces(core, option, o);
  }

  lemma OfferKeepsLedger(t: Trace, option: byte, o: byte)
    requires Ledger(t, o) && Supported(option)
    ensures var r := Offer(t.state.core, option);
      var u := t.(state := t.state.(core := r.core), sent := t.sent + r.responses);
      Ledger(u, o) && Rank(t.state.core.Option(o)) <= Rank(u.state.core.Option(o))
  {
    var core := t.state.core;
    OfferTally(core, t.sent, option, o);
    OfferLeaves(core, option, o);
    OfferAnnounces(core, option, o);
    OwedMore(Heard(Tokenize(t.received).items, o), o, Left(core, o), Offers(core, option, o));
  }

  lemma StepKeepsLedger(t: Trace, e: Event, o: byte)
    requires Ledger(t, o)
    ensures Ledger(Step(t, e), o)
    ensures Rank(t.state.core.Option(o)) <= Rank(Step(t, e).state.core.Option(o))
  {
    match e
    case Inbound(segment) => InboundKeepsLedger(t, segment, o);
    case MakeOffers =>
      var r := Offer(t.state.core, TERMINAL_TYPE);
      var u := t.(state := t.state.(core := r.core), sent := t.sent + r.responses);
      OfferKeepsLedger(t, TERMINAL_TYPE, o);
      OfferKeepsLedger(u, NAWS, o);
      var second := Offer(r.core, NAWS).responses;
      assert t.sent + r.responses + second == t.sent + (r.responses + second);
    case Resize(_, _) =>
  }

  /**
   Over every run: WILL o goes out exactly once if o has left the inactive state and never otherwise,
   never for an unsupported option; every WILL, WONT and DONT received is answered once; and there is
   exactly one window report for each DO NAWS received.
   */
  lemma {:induction false} EveryResponseIsAccountedFor(terminalType: seq<byte>, events: seq<Event>, o: byte)
    ensures Ledger(Run(terminalType, events), o)
  {
    if events != [] {
      var n := |events| - 1;
      EveryResponseIsAccountedFor(terminalType, events[..n], o);
      StepKeepsLedger(Run(terminalType, events[..n]), events[n], o);
    }
  }

  lemma {:induction false} SentCounts(buffers: seq<seq<byte>>, o: byte)
    ensures Sent(buffers, o).naws == Count(buffers, IsNawsReport)
    ensures Sent(buffers, o).will == Count(buffers, (x: seq<byte>) => IsCommand(x, WILL, o))
  {
    if buffers != [] {
      SentCounts(buffers[..|buffers| - 1], o);
    }
  }

  lemma {:induction false} HeardCounts(items: seq<Item>, o: byte)
    ensures Heard(items, o).naws == Count(items, (item: Item) => item == Command(DO, NAWS))
  {
    if items != [] {
      HeardCounts(items[..|items| - 1], o);
    }
  }

  lemma WillAtMostOnce(terminalType: seq<byte>, events: seq<Event>, o: byte)
    ensures Count(Run(terminalType, events).sent, (x: seq<byte>) => IsCommand(x, WILL, o))
         <= if Supported(o) then 1 else 0
  {
    EveryResponseIsAccountedFor(terminalType, events, o);
    SentCounts(Run(terminalType, events).sent, o);
  }

  lemma OneReportPerDoNaws(terminalType: seq<byte>, events: seq<Event>)
    ensures var t := Run(terminalType, events);
      Count(t.sent, IsNawsReport) == Count(Tokenize(t.received).items, (item: Item) => item == Command(DO, NAWS))
  {
    var t := Run(terminalType, events);
    EveryResponseIsAccountedFor(terminalType, events, NAWS);
    SentCounts(t.sent, NAWS);
    HeardCounts(Tokenize(t.received).items, NAWS);
  }

  /** Between any two moments of a run, no option moves backwards. */
  lemma {:induction false} OptionsOnlyAdvance(terminalType: seq<byte>, events: seq<Event>, k: nat, o: byte)
    requires k <= |events|
    ensures Rank(Run(terminalType, events[..k]).state.core.Option(o))
            <= Rank(Run(terminalType, events).state.core.Option(o))
    decreases |events|
  {
    if k == |events| {
      assert events[..k] == events;
    } else {
      var n := |events| - 1;
      OptionsOnlyAdvance(terminalType, events[..n], k, o);
      assert events[..n][..k] == events[..k];
      EveryResponseIsAccountedFor(terminalType, events[..n], o);
      StepKeepsLedger(Run(terminalType, events[..n]), events[n], o);
    }
  }

  // ----- where each option stands ---------------------------------------------------------------------

  ghost predicate Asked(items: seq<Item>, o: byte) {
    Supported(o) && Command(DO, o) in items
  }

  /** Option `o` after these items, and after an offer if one was made. */
  ghost function Standing(items: seq<Item>, offered: bool, o: byte): OptionState {
    if Asked(items, o) then Active
    else if offered && (o == TERMINAL_TYPE || o == NAWS) then Offered
    else Inactive
  }

  ghost predicate Stands(t: Trace, offered: bool, o: byte) {
    var scan := Tokenize(t.received);
    && ValidScan(scan) && Agrees(t.state, scan.pending)
    && t.state.core.Option(o) == Standing(scan.items, offered, o)
  }

  lemma FeedStands(t: Trace, b: byte, offered: bool, o: byte)
    requires Stands(t, offered, o)
    ensures Stands(Feed(t, b), offered, o)
  {
    FeedScans(t, b);
    var scan, next := Tokenize(t.received), Tokenize(t.received + [b]);
    if next.items != scan.items {
      ReactOption(t.state.core, next.items[|scan.items|], o);
    }
  }

  lemma {:induction false} InboundStands(t: Trace, segment: seq<byte>, offered: bool, o: byte)
    requires Stands(t, offered, o)
    ensures Stands(Step(t, Inbound(segment)), offered, o)
  {
    if segment == [] {
      assert t.received + [] == t.received;
    } else {
      var n := |segment| - 1;
      InboundLast(t, segment);
      InboundStands(t, segment[..n], offered, o);
      FeedStands(Step(t, Inbound(segment[..n])), segment[n], offered, o);
    }
  }

  lemma StepStands(t: Trace, e: Event, offered: bool, o: byte)
    requires Stands(t, offered, o)
    ensures Stands(Step(t, e), offered || e == MakeOffers, o)
  {
    if e.Inbound? {
      InboundStands(t, e.segment, offered, o);
    }
  }

  lemma {:induction false} RunStands(terminalType: seq<byte>, events: seq<Event>, o: byte)
    ensures Stands(Run(terminalType, events), MakeOffers in events, o)
  {
    if events != [] {
      var n := |events| - 1;
      RunStands(terminalType, events[..n], o);
      StepStands(Run(terminalType, events[..n]), events[n], MakeOffers in events[..n], o);
      assert events == events[..n] + [events[n]];
    }
  }

  /**
   After any run option `o` is active if and only if it is one of 1, 3, 24 and 31 and a DO of it was received. It
   was announced, with exactly one WILL, if and only if it is active, or offers were made and it is 24 or 31.
   */
  lemma AnnouncedIff(terminalType: seq<byte>, events: seq<Event>, o: byte)
    ensures var t := Run(terminalType, events);
      var asked := o in {1, 3, 24, 31} && Command(DO, o) in Tokenize(t.received).items;
      var offered := MakeOffers in events && (o == 24 || o == 31);
      && (t.state.core.Option(o) == Active <==> asked)
      && Count(t.sent, (x: seq<byte>) => IsCommand(x, WILL, o)) == if asked || offered then 1 else 0
  {
    RunStands(terminalType, events, o);
    EveryResponseIsAccountedFor(terminalType, events, o);
    SentCounts(Run(terminalType, events).sent, o);
  }

  // ----- what a window report says --------------------------------------------------------------------

  /** The size last set. */
  function LatestSize(events: seq<Event>): (int, int) {
    if events == [] then (80, 24)
    else
      match events[|events| - 1]
      case Resize(cols, rows) => (cols, rows)
      case _ => LatestSize(events[..|events| - 1])
  }

  lemma {:induction false} ProcessKeepsSize(s: State, data: seq<byte>)
    ensures var t := Process(s, data).state.core; t.cols == s.core.cols && t.rows == s.core.rows
  {
    if data != [] {
      ProcessKeepsSize(s, data[..|data| - 1]);
    }
  }

  lemma {:induction false} SizeIsLatest(terminalType: seq<byte>, events: seq<Event>)
    ensures var core := Run(terminalType, events).state.core; (core.cols, core.rows) == LatestSize(events)
  {
    if events != [] {
      var n := |events| - 1;
      SizeIsLatest(terminalType, events[..n]);
      if events[n].Inbound? {
        ProcessKeepsSize(Run(terminalType, events[..n]).state, events[n].segment);
      }
    }
  }

  lemma StepReports(s: State, b: byte)
    ensures forall x :: x in StepByte(s, b).responses && IsNawsReport(x) ==> x == EncodeNaws(s.core.cols, s.core.rows)
  {
    if s.parser.SubnegotiationGotIAC? && b == SE {
      assert EncodeTerminalType(s.core.terminalType)[2] == TERMINAL_TYPE;
    }
  }

  lemma {:induction false} ProcessReports(s: State, data: seq<byte>)
    ensures forall x :: x in Process(s, data).responses && IsNawsReport(x) ==>
              x == EncodeNaws(s.core.cols, s.core.rows)
  {
    if data != [] {
      var init := Process(s, data[..|data| - 1]);
      ProcessReports(s, data[..|data| - 1]);
      ProcessKeepsSize(s, data[..|data| - 1]);
      StepReports(init.state, data[|data| - 1]);
    }
  }

  /** Every window report a segment gives rise to holds the size last set. */
  lemma ReportsHoldLatestSize(terminalType: seq<byte>, events: seq<Event>, segment: seq<byte>)
    ensures forall x :: x in Process(Run(terminalType, events).state, segment).responses && IsNawsReport(x) ==>
              x == EncodeNaws(LatestSize(events).0, LatestSize(events).1)
  {
    SizeIsLatest(terminalType, events);
    ProcessReports(Run(terminalType, events).state, segment);
  }
}
