/**
 Two negotiators wired to each other by FIFO queues of bytes, delivered in segments of any size. Every run of
 this network follows a run of the network of items, so it settles under the same condition and in the same
 state. (app/services/telnet/telnet-negotiation.ts)
 */
module TelnetWire {
  import opened Arithmetic
  import opened Basics
  import opened TelnetNegotiation
  import opened TelnetItems
  import opened TelnetNetwork
  import Options = TelnetOptions

  datatype Wire = Wire(a: State, b: State, toA: seq<byte>, toB: seq<byte>)

  predicate Readable(w: Wire, side: Side) {
    if side == A then w.toA != [] else w.toB != []
  }

  predicate Drained(w: Wire) {
    w.toA == [] && w.toB == []
  }

  /** One side reads the first `n` bytes of its queue and writes its responses. */
  function ReadSegment(w: Wire, side: Side, n: nat): Wire
    requires n <= if side == A then |w.toA| else |w.toB|
  {
    if side == A then
      var out := Process(w.a, w.toA[..n]);
      Wire(out.state, w.b, w.toA[n..], w.toB + Concat(out.responses))
    else
      var out := Process(w.b, w.toB[..n]);
      Wire(w.a, out.state, w.toA + Concat(out.responses), w.toB[n..])
  }

  /** One side reads one byte. */
  function ReadByte(w: Wire, side: Side): Wire
    requires Readable(w, side)
  {
    if side == A then
      var out := StepByte(w.a, w.toA[0]);
      Wire(out.state, w.b, w.toA[1..], w.toB + Concat(out.responses))
    else
      var out := StepByte(w.b, w.toB[0]);
      Wire(w.a, out.state, w.toA + Concat(out.responses), w.toB[1..])
  }

  ghost predicate ByteSchedule(w: Wire, sides: seq<Side>)
    decreases |sides|
  {
    sides == [] || (Readable(w, sides[0]) && ByteSchedule(ReadByte(w, sides[0]), sides[1..]))
  }

  function ByteRun(w: Wire, sides: seq<Side>): Wire
    requires ByteSchedule(w, sides)
    decreases |sides|
  {
    if sides == [] then w else ByteRun(ReadByte(w, sides[0]), sides[1..])
  }

  /** A schedule after which nothing is on the way. */
  ghost predicate Drains(w: Wire, sides: seq<Side>) {
    ByteSchedule(w, sides) && Drained(ByteRun(w, sides))
  }

  // ----- a segment is its bytes -----------------------------------------------------------------------

  function Times(side: Side, n: nat): seq<Side> {
    if n == 0 then [] else [side] + Times(side, n - 1)
  }

  /** A byte read first, then the rest of the segment. */
  lemma SegmentStarts(w: Wire, side: Side, n: nat)
    requires 0 < n <= if side == A then |w.toA| else |w.toB|
    ensures ReadSegment(w, side, n) == ReadSegment(ReadByte(w, side), side, n - 1)
  {
    var s, queue := if side == A then w.a else w.b, if side == A then w.toA else w.toB;
    var out := StepByte(s, queue[0]);
    var rest := Process(out.state, queue[1..n]);
    assert queue[..n] == [queue[0]] + queue[1..n];
    assert queue[1..][..n - 1] == queue[1..n] && queue[1..][n - 1..] == queue[n..];
    ProcessSplits(s, [queue[0]], queue[1..n]);
    ProcessOne(s, queue[0]);
    ConcatAppend(out.responses, rest.responses);
    Assoc(if side == A then w.toB else w.toA, Concat(out.responses), Concat(rest.responses));
  }

  lemma ProcessOne(s: State, b: byte)
    ensures Process(s, [b]) == StepByte(s, b)
  {
    assert [b][..0] == [];
    var out := StepByte(s, b);
    assert [] + out.clean == out.clean && [] + out.responses == out.responses;
  }

  /** Reading a segment is reading its bytes one after the other. */
  lemma {:induction false} SegmentIsBytes(w: Wire, side: Side, n: nat)
    requires n <= if side == A then |w.toA| else |w.toB|
    ensures ByteSchedule(w, Times(side, n)) && ByteRun(w, Times(side, n)) == ReadSegment(w, side, n)
    decreases n
  {
    if n == 0 {
      NothingRead(w, side);
    } else {
      SegmentStarts(w, side, n);
      SegmentIsBytes(ReadByte(w, side), side, n - 1);
      assert Times(side, n)[1..] == Times(side, n - 1);
    }
  }

  lemma NothingRead(w: Wire, side: Side)
    ensures ReadSegment(w, side, 0) == w
  {
    var queue := if side == A then w.toA else w.toB;
    assert queue[..0] == [] && queue[0..] == queue;
    assert w.toA + [] == w.toA && w.toB + [] == w.toB && Concat<byte>([]) == [];
  }

  // ----- queues of bytes as queues of items -----------------------------------------------------------

  /** What the parser has read of an item it has not finished. */
  function PendingOf(s: State): Pending {
    match s.parser
    case Data => Nothing
    case GotIAC => SeenIAC
    case GotCommand => SeenVerb(s.command)
    case InSubnegotiation => Inside(s.subneg)
    case SubnegotiationGotIAC => InsideIAC(s.subneg)
  }

  ghost predicate AllValid(items: seq<Item>) {
    forall i :: 0 <= i < |items| ==> ValidItem(items[i])
  }

  /** The unfinished item and the bytes on the way are the encoding of these items. */
  ghost predicate Aligned(s: State, queue: seq<byte>, items: seq<Item>) {
    && (s.parser == GotCommand ==> IsVerb(s.command)) && AllValid(items)
    && EncodePending(PendingOf(s)) + queue == EncodeAll(items)
  }

  /** The name holds no 0xFF, or nobody asks for it. */
  ghost predicate NameIsSafe(core: Core, items: seq<Item>) {
    IAC !in core.terminalType || forall i :: 0 <= i < |items| ==> !AsksName(items[i])
  }

  /** A network of bytes that stands for a network of items; no name with a 0xFF is asked for. */
  ghost predicate Wired(w: Wire, net: Net) {
    && w.a.core == net.a && w.b.core == net.b
    && Aligned(w.a, w.toA, net.toA) && Aligned(w.b, w.toB, net.toB)
    && NameIsSafe(net.a, net.toA) && NameIsSafe(net.b, net.toB)
  }

  lemma {:induction false} EncodeAppend(xs: seq<Item>, ys: seq<Item>)
    ensures EncodeAll(xs + ys) == EncodeAll(xs) + EncodeAll(ys)
  {
    if ys == [] {
      assert xs + ys == xs;
    } else {
      var n := |ys| - 1;
      assert (xs + ys)[..|xs + ys| - 1] == xs + ys[..n];
      EncodeAppend(xs, ys[..n]);
      Assoc(EncodeAll(xs), EncodeAll(ys[..n]), Encode(ys[n]));
    }
  }

  lemma EncodeOne(item: Item)
    ensures EncodeAll([item]) == Encode(item)
  {
    EncodeSnoc([], item);
    assert [] + [item] == [item] && [] + Encode(item) == Encode(item);
  }

  lemma EncodeCons(items: seq<Item>)
    requires items != []
    ensures EncodeAll(items) == Encode(items[0]) + EncodeAll(items[1..])
  {
    assert items == [items[0]] + items[1..];
    EncodeAppend([items[0]], items[1..]);
    EncodeOne(items[0]);
  }

  /** What has been read stays read. */
  lemma {:induction false} ScanKeeps(scan: Scan, data: seq<byte>)
    ensures scan.items <= ScanAll(scan, data).items
  {
    if data != [] {
      ScanKeeps(scan, data[..|data| - 1]);
    }
  }

  lemma Cancel(p: seq<byte>, x: seq<byte>, y: seq<byte>)
    requires p + x == p + y
    ensures x == y
  {
    assert (p + x)[|p|..] == x && (p + y)[|p|..] == y;
  }

  lemma AllValidIn(items: seq<Item>)
    requires AllValid(items)
    ensures forall item :: item in items ==> ValidItem(item)
  {
  }

  /** A stream of items that starts with the bytes of an item starts with that item. */
  lemma FirstItem(item: Item, rest: seq<byte>, items: seq<Item>)
    requires ValidItem(item) && AllValid(items) && Encode(item) + rest == EncodeAll(items)
    ensures items != [] && items[0] == item && rest == EncodeAll(items[1..])
  {
    var start := Scan([], Nothing);
    AllValidIn(items);
    TokenizeUndoesEncode(items);
    ScanSplits(start, Encode(item), rest);
    ScanItem(start, item);
    assert [] + [item] == [item];
    ScanKeeps(Scan([item], Nothing), rest);
    assert [item] <= items && [item][0] == item;
    EncodeCons(items);
    Cancel(Encode(item), rest, EncodeAll(items[1..]));
  }

  lemma AgreesIsPending(s: State, pending: Pending)
    ensures Agrees(s, PendingOf(s)) && (Agrees(s, pending) ==> PendingOf(s) == pending)
  {
  }

  /** A byte that completes no item is one more of the unfinished one. */
  lemma PendingGrows(s: State, b: byte)
    requires (s.parser == GotCommand ==> IsVerb(s.command)) && ScanByte(Scan([], PendingOf(s)), b).items == []
    ensures var out := StepByte(s, b);
      && out.responses == [] && out.state.core == s.core
      && (out.state.parser == GotCommand ==> IsVerb(out.state.command))
      && EncodePending(PendingOf(out.state)) == EncodePending(PendingOf(s)) + [b]
  {
    var scan := Scan([], PendingOf(s));
    AgreesIsPending(s, PendingOf(s));
    ScanByteGrows(scan, b);
    StepInside(s, scan, b);
    AgreesIsPending(StepByte(s, b).state, ScanByte(scan, b).pending);
  }

  lemma ByteInside(s: State, queue: seq<byte>, items: seq<Item>)
    requires Aligned(s, queue, items) && queue != [] && ScanByte(Scan([], PendingOf(s)), queue[0]).items == []
    ensures var out := StepByte(s, queue[0]);
      out.responses == [] && out.state.core == s.core && Aligned(out.state, queue[1..], items)
  {
    PendingGrows(s, queue[0]);
    Assoc(EncodePending(PendingOf(s)), [queue[0]], queue[1..]);
    assert [queue[0]] + queue[1..] == queue;
  }

  lemma ByteCompletes(s: State, queue: seq<byte>, items: seq<Item>)
    requires Aligned(s, queue, items) && queue != [] && ScanByte(Scan([], PendingOf(s)), queue[0]).items != []
    ensures var out := StepByte(s, queue[0]);
      && items != [] && out.state.core == React(s.core, items[0]).core
      && out.responses == React(s.core, items[0]).responses && Aligned(out.state, queue[1..], items[1..])
  {
    var scan, out := Scan([], PendingOf(s)), StepByte(s, queue[0]);
    var next := ScanByte(scan, queue[0]);
    AgreesIsPending(s, PendingOf(s));
    ScanByteGrows(scan, queue[0]);
    StepCompletes(s, scan, queue[0]);
    var item := next.items[0];
    assert item in next.items && Encode(item) == EncodePending(PendingOf(s)) + [queue[0]];
    Assoc(EncodePending(PendingOf(s)), [queue[0]], queue[1..]);
    assert [queue[0]] + queue[1..] == queue;
    FirstItem(item, queue[1..], items);
    assert [] + queue[1..] == queue[1..];
  }

  lemma {:induction false} ConcatEncodeEach(items: seq<Item>)
    ensures Concat(EncodeEach(items)) == EncodeAll(items)
  {
    if items != [] {
      var n := |items| - 1;
      assert EncodeEach(items)[..n] == EncodeEach(items[..n]);
      ConcatEncodeEach(items[..n]);
    }
  }

  lemma MoreOnTheWay(s: State, queue: seq<byte>, items: seq<Item>, more: seq<Item>)
    requires Aligned(s, queue, items) && AllValid(more)
    ensures Aligned(s, queue + EncodeAll(more), items + more)
  {
    EncodeAppend(items, more);
    Assoc(EncodePending(PendingOf(s)), queue, EncodeAll(more));
  }

  /** The bytes of a reaction are the bytes of the replies. */
  lemma ReplyBytes(core: Core, item: Item)
    requires ValidItem(item) && (!AsksName(item) || IAC !in core.terminalType)
    ensures Concat(React(core, item).responses) == EncodeAll(Replies(core, item)) && AllValid(Replies(core, item))
    ensures React(core, item).core.terminalType == core.terminalType
  {
    RepliesAreResponses(core, item);
    ConcatEncodeEach(Replies(core, item));
  }

  /** No reply asks for a name. */
  lemma RepliesAskNothing(core: Core, item: Item)
    ensures forall i :: 0 <= i < |Replies(core, item)| ==> !AsksName(Replies(core, item)[i])
  {
  }

  lemma DeliveryKeepsNamesSafe(net: Net, side: Side)
    requires Enabled(net, side) && NameIsSafe(net.a, net.toA) && NameIsSafe(net.b, net.toB)
    ensures NameIsSafe(Deliver(net, side).a, Deliver(net, side).toA)
    ensures NameIsSafe(Deliver(net, side).b, Deliver(net, side).toB)
    ensures Deliver(net, side).a.terminalType == net.a.terminalType
    ensures Deliver(net, side).b.terminalType == net.b.terminalType
  {
    RepliesAskNothing(net.a, if net.toA != [] then net.toA[0] else Text(0));
    RepliesAskNothing(net.b, if net.toB != [] then net.toB[0] else Text(0));
  }

  /** One byte completes no item, or the first item of the queue. */
  lemma ReadByteFollows(w: Wire, net: Net, side: Side)
    requires Wired(w, net) && Readable(w, side)
    ensures Wired(ReadByte(w, side), net)
      || (Enabled(net, side) && Wired(ReadByte(w, side), Deliver(net, side)))
  {
    if ScanByte(Scan([], PendingOf(if side == A then w.a else w.b)),
                (if side == A then w.toA else w.toB)[0]).items == [] {
      InsideSpends(w, net, side);
    } else {
      CompletionDelivers(w, net, side);
    }
  }

  /** Every run of bytes follows a run of items. */
  lemma {:induction false} BytesFollowItems(w: Wire, net: Net, sides: seq<Side>) returns (items: seq<Side>)
    requires Wired(w, net) && ByteSchedule(w, sides)
    ensures Schedule(net, items) && Wired(ByteRun(w, sides), Run(net, items))
    decreases |sides|
  {
    if sides == [] {
      items := [];
    } else {
      var next := ReadByte(w, sides[0]);
      ReadByteFollows(w, net, sides[0]);
      if Wired(next, net) {
        items := BytesFollowItems(next, net, sides[1..]);
      } else {
        var rest := BytesFollowItems(next, Deliver(net, sides[0]), sides[1..]);
        items := [sides[0]] + rest;
        assert items[1..] == rest;
      }
    }
  }

  // ----- when nothing is left to read -----------------------------------------------------------------

  lemma PendingReadsBack(pending: Pending)
    requires pending.SeenVerb? ==> IsVerb(pending.verb)
    ensures Tokenize(EncodePending(pending)) == Scan([], pending)
  {
    var start := Scan([], Nothing);
    match pending
    case Nothing =>
    case SeenIAC => ScanOne(start, IAC);
    case SeenVerb(verb) => ScanTwo(start, IAC, verb);
    case Inside(payload) => ScanInside(start, payload);
    case InsideIAC(payload) =>
      ScanInside(start, payload);
      ScanSplits(start, [IAC, SB] + EscapeAll(payload), [IAC]);
      ScanOne(start.(pending := Inside(payload)), IAC);
  }

  lemma NothingLeft(s: State, items: seq<Item>)
    requires Aligned(s, [], items)
    ensures items == [] && s.parser == Data
  {
    AllValidIn(items);
    assert EncodePending(PendingOf(s)) + [] == EncodePending(PendingOf(s));
    PendingReadsBack(PendingOf(s));
    TokenizeUndoesEncode(items);
  }

  // ----- termination ----------------------------------------------------------------------------------

  /** No reaction writes more bytes than this. */
  function Room(net: Net): nat {
    22 + |net.a.terminalType| + |net.b.terminalType|
  }

  ghost function Budget(w: Wire, net: Net): nat {
    Room(net) * Potential(net) + |w.toA| + |w.toB|
  }

  lemma NawsLength(cols: int, rows: int)
    ensures |EncodeNaws(cols, rows)| <= 13
  {
  }

  lemma ConcatOfOne(x: seq<byte>)
    ensures Concat([x]) == x
  {
    assert [x][..0] == [] && [] + x == x;
  }

  lemma DoIsShort(core: Core, option: byte)
    requires Supported(option)
    ensures |Concat(HandleDo(core, option).responses)| <= 16
  {
    Options.DoAnswers(core, option);
    ConcatAppend(Options.Announcement(core, option), Options.SizeReport(core, option));
    ConcatOfOne([IAC, WILL, option]);
    ConcatOfOne(EncodeNaws(core.cols, core.rows));
    NawsLength(core.cols, core.rows);
  }

  lemma ReactionIsShort(core: Core, item: Item)
    ensures |Concat(React(core, item).responses)| <= 22 + |core.terminalType|
  {
    match item
    case Command(verb, option) =>
      if verb == DO && Supported(option) {
        DoIsShort(core, option);
      } else {
        ConcatOfOne([IAC, WONT, option]);
        ConcatOfOne([IAC, DO, option]);
        ConcatOfOne([IAC, DONT, option]);
      }
    case Subnegotiation(payload) => ConcatOfOne(EncodeTerminalType(core.terminalType));
    case _ =>
  }

  lemma LessByOne(room: nat, p: nat, q: nat)
    requires q < p && room > 0
    ensures room * q + room <= room * p
  {
    MulGap(room, p, q);
  }

  /** A byte that completes no item: one byte less on the way. */
  lemma InsideSpends(w: Wire, net: Net, side: Side)
    requires Wired(w, net) && Readable(w, side)
    requires ScanByte(Scan([], PendingOf(if side == A then w.a else w.b)),
                      (if side == A then w.toA else w.toB)[0]).items == []
    ensures Wired(ReadByte(w, side), net) && Budget(ReadByte(w, side), net) == Budget(w, net) - 1
  {
    if side == A { ByteInside(w.a, w.toA, net.toA); } else { ByteInside(w.b, w.toB, net.toB); }
    assert Concat<byte>([]) == [] && w.toA + [] == w.toA && w.toB + [] == w.toB;
  }

  /** A byte that completes an item: the item is delivered, and its replies are written. */
  lemma CompletionDelivers(w: Wire, net: Net, side: Side)
    requires Wired(w, net) && Readable(w, side)
    requires ScanByte(Scan([], PendingOf(if side == A then w.a else w.b)),
                      (if side == A then w.toA else w.toB)[0]).items != []
    ensures Enabled(net, side) && Wired(ReadByte(w, side), Deliver(net, side))
    ensures Room(Deliver(net, side)) == Room(net)
    ensures |ReadByte(w, side).toA| + |ReadByte(w, side).toB| < |w.toA| + |w.toB| + Room(net)
  {
    var s, queue := if side == A then w.a else w.b, if side == A then w.toA else w.toB;
    var items, others := if side == A then net.toA else net.toB, if side == A then net.toB else net.toA;
    var peer, back := if side == A then w.b else w.a, if side == A then w.toB else w.toA;
    ByteCompletes(s, queue, items);
    ReplyBytes(s.core, items[0]);
    DeliveryKeepsNamesSafe(net, side);
    ReactionIsShort(s.core, items[0]);
    MoreOnTheWay(peer, back, others, Replies(s.core, items[0]));
  }

  /** One byte read lowers the budget, whether it completes an item or not, and changes nothing of the outcome. */
  lemma ReadByteSpends(w: Wire, net: Net, side: Side) returns (next: Net)
    requires Wired(w, net) && Readable(w, side) && Calm(net)
    ensures Wired(ReadByte(w, side), next) && Calm(next) && Budget(ReadByte(w, side), next) < Budget(w, net)
    ensures Settle(next).net == Settle(net).net
  {
    if ScanByte(Scan([], PendingOf(if side == A then w.a else w.b)),
                (if side == A then w.toA else w.toB)[0]).items == [] {
      next := net;
      InsideSpends(w, net, side);
    } else {
      CompletionDelivers(w, net, side);
      next := Deliver(net, side);
      DeliverKeepsCalm(net, side);
      DeliverLosesPotential(net, side);
      LessByOne(Room(net), Potential(net), Potential(next));
      SettleIgnoresOrder(net, side);
    }
  }

  /** No schedule of bytes is longer than the budget, and each that drains the queues ends as the items do. */
  lemma {:induction false} WireSettles(w: Wire, net: Net, sides: seq<Side>)
    requires Wired(w, net) && Calm(net) && ByteSchedule(w, sides)
    ensures |sides| <= Budget(w, net)
    ensures var end, settled := ByteRun(w, sides), Settle(net).net;
      Drained(end) ==>
        end.a.core == settled.a && end.b.core == settled.b && end.a.parser == Data && end.b.parser == Data
    decreases |sides|
  {
    if sides == [] {
      if Drained(w) {
        NothingLeft(w.a, net.toA);
        NothingLeft(w.b, net.toB);
      }
    } else {
      var next := ReadByteSpends(w, net, sides[0]);
      WireSettles(ReadByte(w, sides[0]), next, sides[1..]);
    }
  }

  lemma {:induction false} DrainingSchedule(w: Wire, net: Net) returns (sides: seq<Side>)
    requires Wired(w, net) && Calm(net)
    ensures Drains(w, sides)
    decreases Budget(w, net)
  {
    if Drained(w) {
      sides := [];
    } else {
      var side := if w.toA != [] then A else B;
      var next := ReadByteSpends(w, net, side);
      var rest := DrainingSchedule(ReadByte(w, side), next);
      sides := [side] + rest;
      assert sides[1..] == rest;
    }
  }

  lemma RefusalsOnTheWire(w: Wire, net: Net, sides: seq<Side>)
    requires Wired(w, net) && !Calm(net)
    ensures !Drains(w, sides)
  {
    if Drains(w, sides) {
      var items := BytesFollowItems(w, net, sides);
      RefusalsNeverDie(net, items);
      NothingLeft(ByteRun(w, sides).a, Run(net, items).toA);
      NothingLeft(ByteRun(w, sides).b, Run(net, items).toB);
    }
  }

  /**
   Two peers exchanging bytes, whatever the segments and whoever reads first, can fall silent if and only if no
   refusal is on the way; and then no schedule is longer than the budget.
   */
  lemma WireQuiescesIffCalm(w: Wire, net: Net)
    requires Wired(w, net)
    ensures (exists sides :: Drains(w, sides)) <==> Calm(net)
    ensures Calm(net) ==> forall sides :: ByteSchedule(w, sides) ==> |sides| <= Budget(w, net)
  {
    if Calm(net) {
      var sides := DrainingSchedule(w, net);
      CalmWireIsShort(w, net);
    } else {
      forall s ensures !Drains(w, s) {
        RefusalsOnTheWire(w, net, s);
      }
    }
  }

  lemma CalmWireIsShort(w: Wire, net: Net)
    requires Wired(w, net) && Calm(net)
    ensures forall sides :: ByteSchedule(w, sides) ==> |sides| <= Budget(w, net)
  {
    forall s | ByteSchedule(w, s) ensures |s| <= Budget(w, net) {
      WireSettles(w, net, s);
    }
  }

  /** Any two peers between items, with any items on the way that ask for no name with a 0xFF. */
  lemma AnyItemsAreWired(a: State, b: State, toA: seq<Item>, toB: seq<Item>)
    requires a.parser == Data && b.parser == Data && AllValid(toA) && AllValid(toB)
    requires NameIsSafe(a.core, toA) && NameIsSafe(b.core, toB)
    ensures Wired(Wire(a, b, EncodeAll(toA), EncodeAll(toB)), Net(a.core, b.core, toA, toB))
  {
    assert [] + EncodeAll(toA) == EncodeAll(toA) && [] + EncodeAll(toB) == EncodeAll(toB);
  }

  // ----- a name with a 0xFF ---------------------------------------------------------------------------

  /** The request for a terminal name. */
  const ASK: Item := Subnegotiation([TERMINAL_TYPE, SEND])

  /** A name that ends its own subnegotiation and goes on with a refusal. */
  const UNSAFE_NAME: seq<byte> := [IAC, SE, IAC, DONT, ECHO]

  /** What the peer reads of it. */
  const MISREAD: seq<Item> := [Subnegotiation([TERMINAL_TYPE, IS]), Command(DONT, ECHO), Other(SE)]

  lemma EncodePlain(x: byte, y: byte)
    requires x != IAC && y != IAC
    ensures Encode(Subnegotiation([x, y])) == [IAC, SB, x, y, IAC, SE]
  {
    EscapeSnoc([], x);
    EscapeSnoc([x], y);
    assert [] + [x] == [x] && [x] + [y] == [x, y];
  }

  lemma UnsafeBytes()
    ensures EncodeTerminalType(UNSAFE_NAME) == EncodeAll(MISREAD) && AllValid(MISREAD)
  {
    var named, dont, other := Subnegotiation([TERMINAL_TYPE, IS]), Command(DONT, ECHO), Other(SE);
    EncodePlain(TERMINAL_TYPE, IS);
    EncodeOne(named);
    EncodeSnoc([named], dont);
    EncodeSnoc([named, dont], other);
    assert [named] + [dont] == [named, dont] && [named, dont] + [other] == MISREAD;
  }

  lemma AskedPeer(a: State)
    requires a.parser == Data && a.core.terminalType == UNSAFE_NAME
    ensures var out := Process(a, Encode(ASK));
      out.state == a.(subneg := out.state.subneg, command := out.state.command)
      && Concat(out.responses) == EncodeTerminalType(UNSAFE_NAME)
  {
    PeerAnswersBytes(a, ASK);
    ConcatOfOne(EncodeTerminalType(UNSAFE_NAME));
  }

  lemma AskIsRead(a: State, b: State)
    requires a.parser == Data && a.core.terminalType == UNSAFE_NAME
    ensures var next := ReadSegment(Wire(a, b, Encode(ASK), []), A, |Encode(ASK)|);
      next.a.parser == Data && next == Wire(next.a, b, [], EncodeAll(MISREAD))
  {
    AskedPeer(a);
    UnsafeBytes();
    assert Encode(ASK)[..|Encode(ASK)|] == Encode(ASK) && Encode(ASK)[|Encode(ASK)|..] == [];
    assert [] + EncodeAll(MISREAD) == EncodeAll(MISREAD);
  }

  lemma MisreadNeverDrains(a: State, b: State, more: seq<Side>)
    requires a.parser == Data && b.parser == Data
    ensures !Drains(Wire(a, b, [], EncodeAll(MISREAD)), more)
  {
    var net := Net(a.core, b.core, [], MISREAD);
    UnsafeBytes();
    assert EncodeAll([]) == [];
    AnyItemsAreWired(a, b, [], MISREAD);
    assert Refusal(MISREAD[1]) && MISREAD[1] in net.toA + net.toB;
    RefusalsOnTheWire(Wire(a, b, [], EncodeAll(MISREAD)), net, more);
  }

  /**
   Names with a 0xFF really are an exception: no refusal is on the way, a peer of this name is asked for it, and
   once it has read the request no schedule drains the queues any more.
   */
  lemma UnsafeNameNeverRests(a: State, b: State)
    requires a.parser == Data && b.parser == Data && a.core.terminalType == UNSAFE_NAME
    ensures var w, sides := Wire(a, b, Encode(ASK), []), Times(A, |Encode(ASK)|);
      && Calm(Net(a.core, b.core, [ASK], [])) && ByteSchedule(w, sides)
      && forall more :: !Drains(ByteRun(w, sides), more)
  {
    var w := Wire(a, b, Encode(ASK), []);
    SegmentIsBytes(w, A, |Encode(ASK)|);
    AskIsRead(a, b);
    forall more ensures !Drains(ByteRun(w, Times(A, |Encode(ASK)|)), more) {
      MisreadNeverDrains(ReadSegment(w, A, |Encode(ASK)|).a, b, more);
    }
  }
}
