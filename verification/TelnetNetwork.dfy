/**
 Two negotiators wired to each other by FIFO queues of telnet items. Delivering is asynchronous: at
 each step either side may take the head of its queue.

 The network quiesces if and only if no refusal is in flight. When it does, every schedule takes the
 same number of steps and ends in the same state, which is known in closed form.
 */
module TelnetNetwork {
  import opened Basics
  import opened TelnetNegotiation
  import opened TelnetItems

  // ----- replies as items -----------------------------------------------------------------------

  /** The request that is answered with the terminal name. */
  predicate AsksName(item: Item) {
    item.Subnegotiation? && |item.payload| >= 2 && item.payload[0] == TERMINAL_TYPE && item.payload[1] == SEND
  }

  function Replies(core: Core, item: Item): seq<Item> {
    match item
    case Command(verb, option) =>
      if verb == DO then
        if !Supported(option) then [Command(WONT, option)]
        else (if core.Option(option) == Inactive then [Command(WILL, option)] else [])
             + (if option == NAWS then [Subnegotiation(NawsPayload(core.cols, core.rows))] else [])
      else if verb == DONT then [Command(WONT, option)]
      else if verb == WILL then [Command(if Supported(option) then DO else DONT, option)]
      else if verb == WONT then [Command(DONT, option)]
      else []
    case Subnegotiation(_) =>
      if AsksName(item)
      then [Subnegotiation([TERMINAL_TYPE, IS] + core.terminalType)]
      else []
    case _ => []
  }

  function EncodeEach(items: seq<Item>): seq<seq<byte>> {
    seq(|items|, i requires 0 <= i < |items| => Encode(items[i]))
  }

  lemma EachOfOne(item: Item)
    ensures EncodeEach([item]) == [Encode(item)]
  {
  }

  lemma CommandReplies(core: Core, verb: byte, option: byte)
    requires IsVerb(verb)
    ensures HandleCommand(core, verb, option).responses == EncodeEach(Replies(core, Command(verb, option)))
    ensures forall reply :: reply in Replies(core, Command(verb, option)) ==> ValidItem(reply)
  {
    NawsIsSubnegotiation(core.cols, core.rows);
    EachOfOne(Command(WONT, option));
    EachOfOne(Command(WILL, option));
    EachOfOne(Command(DONT, option));
    EachOfOne(Command(DO, option));
    EachOfOne(Subnegotiation(NawsPayload(core.cols, core.rows)));
  }

  lemma TerminalReplies(core: Core, payload: seq<byte>)
    ensures SubnegotiationReplies(core, payload) == EncodeEach(Replies(core, Subnegotiation(payload)))
       <==> !AsksName(Subnegotiation(payload)) || IAC !in core.terminalType
  {
    var named := [TERMINAL_TYPE, IS] + core.terminalType;
    EscapeWithPrefix(core.terminalType);
    SameFrame(named, EscapeAll(named));
    EachOfOne(Subnegotiation(named));
    assert EncodeTerminalType(core.terminalType) == [IAC, SB] + named + [IAC, SE];
    if AsksName(Subnegotiation(payload)) {
      OneIsOne(EncodeTerminalType(core.terminalType), Encode(Subnegotiation(named)));
    } else {
      assert EncodeEach([]) == [];
    }
  }

  lemma OneIsOne(x: seq<byte>, y: seq<byte>)
    ensures [x] == [y] <==> x == y
  {
    assert [x][0] == x && [y][0] == y;
  }

  /**
   The buffers the negotiator writes are the encodings of these replies, one each, unless the reply is a
   terminal name with a 0xFF in it.
   */
  lemma RepliesAreResponses(core: Core, item: Item)
    requires ValidItem(item)
    ensures React(core, item).responses == EncodeEach(Replies(core, item))
       <==> !AsksName(item) || IAC !in core.terminalType
    ensures forall reply :: reply in Replies(core, item) ==> ValidItem(reply)
  {
    match item
    case Command(verb, option) => CommandReplies(core, verb, option);
    case Subnegotiation(payload) => TerminalReplies(core, payload);
    case _ => assert EncodeEach([]) == [];
  }

  /**
   A whole peer, fed the bytes of one item, writes exactly the bytes of the replies if and only if it is not
   asked for a terminal name that holds a 0xFF.
   */
  lemma PeerAnswersBytes(s: State, item: Item)
    requires s.parser == Data && ValidItem(item)
    ensures var out := Process(s, Encode(item));
      && out.state.parser == Data && out.state.core == React(s.core, item).core
      && out.responses == React(s.core, item).responses
      && (out.responses == EncodeEach(Replies(s.core, item)) <==> !AsksName(item) || IAC !in s.core.terminalType)
  {
    OneItem(item);
    ProcessMeansInterpret(s, Encode(item));
    InterpretSnoc(s.core, [], item);
    assert [] + [item] == [item];
    assert [] + React(s.core, item).responses == React(s.core, item).responses;
    RepliesAreResponses(s.core, item);
  }

  // ----- the network ----------------------------------------------------------------------------

  datatype Side = A | B

  datatype Net = Net(a: Core, b: Core, toA: seq<Item>, toB: seq<Item>)

  predicate Enabled(net: Net, side: Side) {
    if side == A then net.toA != [] else net.toB != []
  }

  predicate Quiet(net: Net) {
    net.toA == [] && net.toB == []
  }

  function Deliver(net: Net, side: Side): Net
    requires Enabled(net, side)
  {
    if side == A then
      Net(React(net.a, net.toA[0]).core, net.b, net.toA[1..], net.toB + Replies(net.a, net.toA[0]))
    else
      Net(net.a, React(net.b, net.toB[0]).core, net.toA + Replies(net.b, net.toB[0]), net.toB[1..])
  }

  ghost predicate Schedule(net: Net, sides: seq<Side>)
    decreases |sides|
  {
    sides == [] || (Enabled(net, sides[0]) && Schedule(Deliver(net, sides[0]), sides[1..]))
  }

  function Run(net: Net, sides: seq<Side>): Net
    requires Schedule(net, sides)
    decreases |sides|
  {
    if sides == [] then net else Run(Deliver(net, sides[0]), sides[1..])
  }

  /** A schedule that leaves nothing in flight. */
  ghost predicate ComesToRest(net: Net, sides: seq<Side>) {
    Schedule(net, sides) && Quiet(Run(net, sides))
  }

  // ----- refusals ---------------------------------------------------------------------------------

  /** DONT and WONT for any option, WILL and DO for an unsupported one. */
  predicate Refusal(item: Item) {
    item.Command? && (item.verb == DONT || item.verb == WONT || (IsVerb(item.verb) && !Supported(item.option)))
  }

  ghost predicate Calm(net: Net) {
    forall item :: item in net.toA + net.toB ==> !Refusal(item)
  }

  lemma RefusalBreedsRefusal(core: Core, item: Item)
    ensures Refusal(item) ==> |Replies(core, item)| == 1 && Refusal(Replies(core, item)[0])
    ensures !Refusal(item) ==> forall reply :: reply in Replies(core, item) ==> !Refusal(reply)
  {
  }

  lemma DeliverKeepsCalm(net: Net, side: Side)
    requires Enabled(net, side)
    ensures Calm(net) <==> Calm(Deliver(net, side))
  {
    var next := Deliver(net, side);
    var core, item := if side == A then net.a else net.b, if side == A then net.toA[0] else net.toB[0];
    RefusalBreedsRefusal(core, item);
    if Calm(net) {
      assert item in net.toA + net.toB;
      forall x | x in next.toA + next.toB ensures !Refusal(x) {
        assert x in net.toA + net.toB || x in Replies(core, item);
      }
    } else {
      var x :| x in net.toA + net.toB && Refusal(x);
      assert x in net.toA || x in net.toB;
      if x != item {
        assert x in next.toA + next.toB;
      } else {
        assert Replies(core, item)[0] in next.toA + next.toB;
      }
    }
  }

  // ----- termination ----------------------------------------------------------------------------

  function Weight(item: Item): nat {
    match item
    case Command(verb, _) => if verb == WILL then 3 else 2
    case Subnegotiation(_) => if AsksName(item) then 2 else 1
    case _ => 1
  }

  function Load(queue: seq<Item>): nat {
    if queue == [] then 0 else Load(queue[..|queue| - 1]) + Weight(queue[|queue| - 1])
  }

  lemma {:induction false} LoadAppend(xs: seq<Item>, ys: seq<Item>)
    ensures Load(xs + ys) == Load(xs) + Load(ys)
  {
    if ys == [] {
      assert xs + ys == xs;
    } else {
      assert (xs + ys)[..|xs + ys| - 1] == xs + ys[..|ys| - 1];
      LoadAppend(xs, ys[..|ys| - 1]);
    }
  }

  lemma LoadOne(item: Item)
    ensures Load([item]) == Weight(item)
  {
    assert [item][..0] == [];
  }

  function Idle(core: Core, o: byte): nat {
    if core.Option(o) == Inactive then 1 else 0
  }

  function IdleOptions(core: Core): nat {
    Idle(core, ECHO) + Idle(core, SGA) + Idle(core, TERMINAL_TYPE) + Idle(core, NAWS)
  }

  /** Three for each option still inactive, plus the weights of the messages in flight. */
  function Potential(net: Net): nat {
    3 * (IdleOptions(net.a) + IdleOptions(net.b)) + Load(net.toA) + Load(net.toB)
  }

  lemma RepliesWeighLess(core: Core, item: Item)
    requires !Refusal(item)
    ensures Load(Replies(core, item)) + 3 * IdleOptions(React(core, item).core) < Weight(item) + 3 * IdleOptions(core)
  {
    match item
    case Command(verb, option) =>
      LoadOne(Command(WILL, option));
      LoadOne(Command(DO, option));
      var report := Subnegotiation(NawsPayload(core.cols, core.rows));
      LoadOne(report);
      LoadAppend([Command(WILL, option)], [report]);
      if verb == DO && core.Option(option) == Inactive {
        assert IdleOptions(React(core, item).core) == IdleOptions(core) - 1;
        assert Replies(core, item) == [Command(WILL, option)] + (if option == NAWS then [report] else []);
      } else if verb == DO {
        assert IdleOptions(React(core, item).core) == IdleOptions(core);
        assert Replies(core, item) == if option == NAWS then [report] else [];
      }
    case Subnegotiation(payload) => LoadOne(Subnegotiation([TERMINAL_TYPE, IS] + core.terminalType));
    case _ =>
  }

  lemma DeliverLosesPotential(net: Net, side: Side)
    requires Enabled(net, side) && Calm(net)
    ensures Potential(Deliver(net, side)) < Potential(net)
  {
    var core, queue := if side == A then net.a else net.b, if side == A then net.toA else net.toB;
    assert queue[0] in net.toA + net.toB;
    RepliesWeighLess(core, queue[0]);
    LoadAppend([queue[0]], queue[1..]);
    LoadOne(queue[0]);
    assert [queue[0]] + queue[1..] == queue;
    LoadAppend(if side == A then net.toB else net.toA, Replies(core, queue[0]));
  }

  /** No schedule of a calm network is longer than its potential. */
  lemma {:induction false} CalmSchedulesAreShort(net: Net, sides: seq<Side>)
    requires Calm(net) && Schedule(net, sides)
    ensures |sides| <= Potential(net) && Calm(Run(net, sides))
    decreases |sides|
  {
    if sides != [] {
      DeliverLosesPotential(net, sides[0]);
      DeliverKeepsCalm(net, sides[0]);
      CalmSchedulesAreShort(Deliver(net, sides[0]), sides[1..]);
    }
  }

  /** With a refusal in flight the two sides answer each other for ever. */
  lemma {:induction false} RefusalsNeverDie(net: Net, sides: seq<Side>)
    requires !Calm(net) && Schedule(net, sides)
    ensures !Calm(Run(net, sides)) && !Quiet(Run(net, sides))
    decreases |sides|
  {
    if sides == [] {
      var x :| x in net.toA + net.toB && Refusal(x);
    } else {
      DeliverKeepsCalm(net, sides[0]);
      RefusalsNeverDie(Deliver(net, sides[0]), sides[1..]);
    }
  }

  /** One DONT and nothing else on the way to A: two deliveries later the network is where it was. */
  lemma DontComesBack(a: Core, b: Core, option: byte)
    ensures var net := Net(a, b, [Command(DONT, option)], []);
      Enabled(net, A) && Enabled(Deliver(net, A), B) && Deliver(Deliver(net, A), B) == net
  {
    var net := Net(a, b, [Command(DONT, option)], []);
    assert [Command(DONT, option)][1..] == [] && [] + [Command(WONT, option)] == [Command(WONT, option)];
    assert Deliver(net, A) == Net(a, b, [], [Command(WONT, option)]);
    assert [Command(WONT, option)][1..] == [] && [] + [Command(DONT, option)] == [Command(DONT, option)];
  }

  /** So it can be delivered any number of times, and the two never come to rest. */
  lemma {:induction false} DontNeverRests(a: Core, b: Core, option: byte, rounds: nat) returns (sides: seq<Side>)
    ensures var net := Net(a, b, [Command(DONT, option)], []);
      |sides| == 2 * rounds && Schedule(net, sides) && Run(net, sides) == net && !exists s :: ComesToRest(net, s)
  {
    var net := Net(a, b, [Command(DONT, option)], []);
    assert Refusal(net.toA[0]) && net.toA[0] in net.toA + net.toB;
    QuiescesIffCalm(net);
    if rounds == 0 {
      sides := [];
    } else {
      var rest := DontNeverRests(a, b, option, rounds - 1);
      DontComesBack(a, b, option);
      sides := [A, B] + rest;
      assert sides[1..][1..] == rest;
    }
  }

  // ----- one fair outcome -------------------------------------------------------------------------

  datatype Settled = Settled(net: Net, steps: nat)

  /** Deliver to A while A has anything to read, else to B. */
  ghost function Settle(net: Net): (out: Settled)
    requires Calm(net)
    ensures Quiet(out.net)
    decreases Potential(net)
  {
    if Quiet(net) then Settled(net, 0)
    else
      var side := if net.toA != [] then A else B;
      DeliverLosesPotential(net, side);
      DeliverKeepsCalm(net, side);
      var rest := Settle(Deliver(net, side));
      Settled(rest.net, rest.steps + 1)
  }

  /** Deliveries to the two sides commute. */
  lemma DeliveriesCommute(net: Net)
    requires Enabled(net, A) && Enabled(net, B)
    ensures Deliver(Deliver(net, A), B) == Deliver(Deliver(net, B), A)
  {
    var x, y := Replies(net.a, net.toA[0]), Replies(net.b, net.toB[0]);
    assert (net.toA + y)[1..] == net.toA[1..] + y;
    assert (net.toB + x)[1..] == net.toB[1..] + x;
  }

  /** Whichever side is served first, the outcome is the same. */
  lemma {:induction false} SettleIgnoresOrder(net: Net, side: Side)
    requires Calm(net) && Enabled(net, side)
    ensures Calm(Deliver(net, side))
    ensures Settle(net) == Settled(Settle(Deliver(net, side)).net, Settle(Deliver(net, side)).steps + 1)
    decreases Potential(net)
  {
    DeliverKeepsCalm(net, side);
    if side == B && net.toA != [] {
      DeliverKeepsCalm(net, A);
      DeliverLosesPotential(net, A);
      DeliveriesCommute(net);
      SettleIgnoresOrder(Deliver(net, A), B);
    }
  }

  /** Any schedule that leaves nothing in flight reaches the one outcome in the one number of steps. */
  lemma {:induction false} AllSchedulesAgree(net: Net, sides: seq<Side>)
    requires Calm(net) && ComesToRest(net, sides)
    ensures Settle(net) == Settled(Run(net, sides), |sides|)
    decreases |sides|
  {
    if sides != [] {
      SettleIgnoresOrder(net, sides[0]);
      AllSchedulesAgree(Deliver(net, sides[0]), sides[1..]);
    }
  }

  lemma {:induction false} SettleIsASchedule(net: Net) returns (sides: seq<Side>)
    requires Calm(net)
    ensures ComesToRest(net, sides)
    decreases Potential(net)
  {
    if Quiet(net) {
      sides := [];
    } else {
      var side := if net.toA != [] then A else B;
      DeliverLosesPotential(net, side);
      DeliverKeepsCalm(net, side);
      var rest := SettleIsASchedule(Deliver(net, side));
      sides := [side] + rest;
    }
  }

  /**
   From any option states and any finite queues: some schedule comes to rest if and only if no
   refusal is in flight, and in that case every schedule is bounded by the potential.
   */
  lemma QuiescesIffCalm(net: Net)
    ensures (exists sides :: ComesToRest(net, sides)) <==> Calm(net)
    ensures Calm(net) ==> forall sides :: Schedule(net, sides) ==> |sides| <= Potential(net)
  {
    if Calm(net) {
      var sides := SettleIsASchedule(net);
      assert ComesToRest(net, sides);
      forall s | Schedule(net, s) ensures |s| <= Potential(net) {
        CalmSchedulesAreShort(net, s);
      }
    } else {
      forall s | Schedule(net, s) ensures !Quiet(Run(net, s)) {
        RefusalsNeverDie(net, s);
      }
    }
  }

  // ----- what the peers agree on ------------------------------------------------------------------

  /** `o` is, or is bound to become, active at `side`: a DO is on its way, or a WILL that earns one. */
  ghost predicate Destined(net: Net, side: Side, o: byte) {
    if side == A
    then net.a.Option(o) == Active || Command(DO, o) in net.toA || Command(WILL, o) in net.toB
    else net.b.Option(o) == Active || Command(DO, o) in net.toB || Command(WILL, o) in net.toA
  }

  ghost function OptionAt(net: Net, side: Side, o: byte): OptionState {
    if side == A then net.a.Option(o) else net.b.Option(o)
  }

  lemma RepliesCarry(core: Core, item: Item, o: byte)
    requires Supported(o)
    ensures Command(DO, o) in Replies(core, item) <==> item == Command(WILL, o)
    ensures Command(WILL, o) in Replies(core, item) ==> item == Command(DO, o)
    ensures React(core, item).core.Option(o) == if item == Command(DO, o) then Active else core.Option(o)
  {
  }

  lemma DeliverKeepsDestiny(net: Net, side: Side, at: Side, o: byte)
    requires Enabled(net, side) && Supported(o)
    ensures Destined(net, at, o) <==> Destined(Deliver(net, side), at, o)
    ensures OptionAt(Deliver(net, side), at, o) == OptionAt(net, at, o) || Destined(net, at, o)
  {
    var core, queue := if side == A then net.a else net.b, if side == A then net.toA else net.toB;
    RepliesCarry(core, queue[0], o);
    assert forall x :: x in queue <==> x == queue[0] || x in queue[1..];
  }

  /**
   The outcome of negotiation in closed form: once quiet, a supported option is active at a side if it
   was active there, or a DO for it was on the way there, or a WILL for it was on the way to the peer;
   otherwise it is as it was.
   */
  lemma {:induction false} NegotiatedOptions(net: Net, sides: seq<Side>, at: Side, o: byte)
    requires ComesToRest(net, sides) && Supported(o)
    ensures OptionAt(Run(net, sides), at, o) == if Destined(net, at, o) then Active else OptionAt(net, at, o)
    decreases |sides|
  {
    if sides != [] {
      DeliverKeepsDestiny(net, sides[0], at, o);
      NegotiatedOptions(Deliver(net, sides[0]), sides[1..], at, o);
    }
  }
}
