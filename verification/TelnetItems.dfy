/**
 The telnet byte stream as a sequence of items, and what the negotiator makes of it.

 `Tokenize` cuts any stream into complete items and an unfinished rest; `EncodeAll` writes them
 back. They are inverse to each other, and the parser computes exactly the reactions to the items.
 */
module TelnetItems {
  import opened Basics
  import opened TelnetNegotiation

  datatype Item =
    | Text(value: byte)
    | Command(verb: byte, option: byte)
    | Subnegotiation(payload: seq<byte>)
    | Other(code: byte)                               // IAC and a byte with no meaning here
    | Broken(payload: seq<byte>, code: byte)          // a subnegotiation cut off by IAC code

  datatype Pending =
    | Nothing
    | SeenIAC
    | SeenVerb(verb: byte)
    | Inside(payload: seq<byte>)
    | InsideIAC(payload: seq<byte>)

  datatype Scan = Scan(items: seq<Item>, pending: Pending)

  predicate ValidItem(item: Item) {
    match item
    case Text(_) => true
    case Command(verb, _) => IsVerb(verb)
    case Subnegotiation(_) => true
    case Other(code) => code != IAC && code != SB && !IsVerb(code)
    case Broken(_, code) => code != IAC && code != SE
  }

  ghost predicate ValidScan(scan: Scan) {
    && (forall item :: item in scan.items ==> ValidItem(item))
    && (scan.pending.SeenVerb? ==> IsVerb(scan.pending.verb))
  }

  // ----- writing items --------------------------------------------------------------------------

  /** Data with every IAC doubled. */
  function EscapeAll(data: seq<byte>): seq<byte> {
    if data == [] then [] else EscapeAll(data[..|data| - 1]) + EscapeByte(data[|data| - 1])
  }

  function Encode(item: Item): seq<byte> {
    match item
    case Text(b) => EscapeByte(b)
    case Command(verb, option) => [IAC, verb, option]
    case Subnegotiation(payload) => [IAC, SB] + EscapeAll(payload) + [IAC, SE]
    case Other(code) => [IAC, code]
    case Broken(payload, code) => [IAC, SB] + EscapeAll(payload) + [IAC, code]
  }

  function EncodeAll(items: seq<Item>): seq<byte> {
    if items == [] then [] else EncodeAll(items[..|items| - 1]) + Encode(items[|items| - 1])
  }

  function EncodePending(pending: Pending): seq<byte> {
    match pending
    case Nothing => []
    case SeenIAC => [IAC]
    case SeenVerb(verb) => [IAC, verb]
    case Inside(payload) => [IAC, SB] + EscapeAll(payload)
    case InsideIAC(payload) => [IAC, SB] + EscapeAll(payload) + [IAC]
  }

  // ----- reading items --------------------------------------------------------------------------

  function Emit(scan: Scan, item: Item): Scan {
    Scan(scan.items + [item], Nothing)
  }

  function ScanByte(scan: Scan, b: byte): Scan {
    match scan.pending
    case Nothing => if b == IAC then scan.(pending := SeenIAC) else Emit(scan, Text(b))
    case SeenIAC =>
      if b == IAC then Emit(scan, Text(IAC))
      else if b == SB then scan.(pending := Inside([]))
      else if IsVerb(b) then scan.(pending := SeenVerb(b))
      else Emit(scan, Other(b))
    case SeenVerb(verb) => Emit(scan, Command(verb, b))
    case Inside(payload) =>
      scan.(pending := if b == IAC then InsideIAC(payload) else Inside(payload + [b]))
    case InsideIAC(payload) =>
      if b == SE then Emit(scan, Subnegotiation(payload))
      else if b == IAC then scan.(pending := Inside(payload + [IAC]))
      else Emit(scan, Broken(payload, b))
  }

  function ScanAll(scan: Scan, data: seq<byte>): Scan {
    if data == [] then scan else ScanByte(ScanAll(scan, data[..|data| - 1]), data[|data| - 1])
  }

  function Tokenize(data: seq<byte>): Scan {
    ScanAll(Scan([], Nothing), data)
  }

  // ----- tokenizing loses nothing, and undoes encoding -------------------------------------------

  lemma EscapeSnoc(data: seq<byte>, b: byte)
    ensures EscapeAll(data + [b]) == EscapeAll(data) + EscapeByte(b)
  {
    assert (data + [b])[..|data|] == data;
  }

  lemma EncodeSnoc(items: seq<Item>, item: Item)
    ensures EncodeAll(items + [item]) == EncodeAll(items) + Encode(item)
  {
    assert (items + [item])[..|items|] == items;
  }

  ghost function Written(scan: Scan): seq<byte> {
    EncodeAll(scan.items) + EncodePending(scan.pending)
  }

  /** The bytes of the item a scan step completed, or of its unfinished rest. */
  ghost function Latest(scan: Scan, next: Scan): seq<byte>
    requires |next.items| == |scan.items| || |next.items| == |scan.items| + 1
  {
    if |next.items| == |scan.items| then EncodePending(next.pending) else Encode(next.items[|scan.items|])
  }

  /** One more byte of a subnegotiation, plain or escaped, and its two ends. */
  lemma SubnegotiationGrows(payload: seq<byte>, b: byte)
    ensures b != IAC ==> EncodePending(Inside(payload + [b])) == EncodePending(Inside(payload)) + [b]
    ensures EncodePending(InsideIAC(payload)) == EncodePending(Inside(payload)) + [IAC]
    ensures EncodePending(Inside(payload + [IAC])) == EncodePending(InsideIAC(payload)) + [IAC]
  {
    var head := [IAC, SB];
    EscapeSnoc(payload, b);
    EscapeSnoc(payload, IAC);
    Assoc(head, EscapeAll(payload), [b]);
    Assoc(head, EscapeAll(payload), [IAC, IAC]);
    Assoc(head + EscapeAll(payload), [IAC], [IAC]);
    assert [IAC] + [IAC] == [IAC, IAC];
  }

  lemma SubnegotiationEnds(payload: seq<byte>, code: byte)
    ensures Encode(Subnegotiation(payload)) == EncodePending(InsideIAC(payload)) + [SE]
    ensures Encode(Broken(payload, code)) == EncodePending(InsideIAC(payload)) + [code]
  {
    var open := [IAC, SB] + EscapeAll(payload);
    Assoc(open, [IAC], [SE]);
    Assoc(open, [IAC], [code]);
    assert [IAC] + [SE] == [IAC, SE] && [IAC] + [code] == [IAC, code];
  }

  lemma ScanByteGrows(scan: Scan, b: byte)
    requires ValidScan(scan)
    ensures var next := ScanByte(scan, b);
      && ValidScan(next)
      && (next.items == scan.items || (next.pending == Nothing && |next.items| == |scan.items| + 1
                                       && next == Emit(scan, next.items[|scan.items|])))
      && Latest(scan, next) == EncodePending(scan.pending) + [b]
  {
    match scan.pending
    case Inside(payload) => SubnegotiationGrows(payload, b);
    case InsideIAC(payload) =>
      SubnegotiationGrows(payload, b);
      SubnegotiationEnds(payload, b);
    case _ =>
  }

  lemma ScanByteWrites(scan: Scan, b: byte)
    requires ValidScan(scan)
    ensures ValidScan(ScanByte(scan, b)) && Written(ScanByte(scan, b)) == Written(scan) + [b]
  {
    var next := ScanByte(scan, b);
    ScanByteGrows(scan, b);
    if next.items != scan.items {
      EncodeSnoc(scan.items, next.items[|scan.items|]);
    }
    assert Written(next) == EncodeAll(scan.items) + Latest(scan, next);
  }

  lemma ScanSnoc(scan: Scan, init: seq<byte>, b: byte)
    ensures ScanAll(scan, init + [b]) == ScanByte(ScanAll(scan, init), b)
  {
    assert (init + [b])[..|init|] == init;
  }

  lemma ScanSnocWrites(scan: Scan, init: seq<byte>, b: byte)
    requires var middle := ScanAll(scan, init); ValidScan(middle) && Written(middle) == Written(scan) + init
    ensures var after := ScanAll(scan, init + [b]); ValidScan(after) && Written(after) == Written(scan) + (init + [b])
  {
    ScanSnoc(scan, init, b);
    ScanByteWrites(ScanAll(scan, init), b);
    Assoc(Written(scan), init, [b]);
  }

  lemma {:induction false} ScanAllWrites(scan: Scan, data: seq<byte>)
    requires ValidScan(scan)
    ensures ValidScan(ScanAll(scan, data)) && Written(ScanAll(scan, data)) == Written(scan) + data
  {
    if data == [] {
      assert Written(scan) + data == Written(scan);
    } else {
      var init, b := data[..|data| - 1], data[|data| - 1];
      assert data == init + [b];
      ScanAllWrites(scan, init);
      ScanSnocWrites(scan, init, b);
    }
  }

  /** Every stream is the encoding of its items followed by its unfinished rest. */
  lemma TokenizeIsLossless(data: seq<byte>)
    ensures ValidScan(Tokenize(data)) && Written(Tokenize(data)) == data
  {
    ScanAllWrites(Scan([], Nothing), data);
    assert Written(Scan([], Nothing)) == [] && [] + data == data;
  }

  lemma {:induction false} ScanSplits(scan: Scan, a: seq<byte>, b: seq<byte>)
    ensures ScanAll(scan, a + b) == ScanAll(ScanAll(scan, a), b)
  {
    if b == [] {
      assert a + b == a;
    } else {
      var n := |b| - 1;
      ScanSplits(scan, a, b[..n]);
      assert (a + b)[..|a + b| - 1] == a + b[..n];
    }
  }

  lemma ScanOne(scan: Scan, b: byte)
    ensures ScanAll(scan, [b]) == ScanByte(scan, b)
  {
    assert [b][..0] == [];
  }

  lemma ScanTwo(scan: Scan, b: byte, c: byte)
    ensures ScanAll(scan, [b, c]) == ScanByte(ScanByte(scan, b), c)
  {
    assert [b, c][..1] == [b];
    ScanOne(scan, b);
  }

  lemma {:induction false} ScanEscaped(scan: Scan, payload: seq<byte>, data: seq<byte>)
    requires scan.pending == Inside(payload)
    ensures ScanAll(scan, EscapeAll(data)) == scan.(pending := Inside(payload + data))
  {
    if data == [] {
      assert payload + data == payload;
    } else {
      var n := |data| - 1;
      ScanEscaped(scan, payload, data[..n]);
      var middle := scan.(pending := Inside(payload + data[..n]));
      ScanSplits(scan, EscapeAll(data[..n]), EscapeByte(data[n]));
      if data[n] == IAC { ScanTwo(middle, IAC, IAC); } else { ScanOne(middle, data[n]); }
      assert payload + data[..n] + [data[n]] == payload + data;
    }
  }

  lemma ScanInside(scan: Scan, data: seq<byte>)
    requires scan.pending == Nothing
    ensures ScanAll(scan, [IAC, SB] + EscapeAll(data)) == scan.(pending := Inside(data))
  {
    ScanSplits(scan, [IAC, SB], EscapeAll(data));
    ScanTwo(scan, IAC, SB);
    ScanEscaped(scan.(pending := Inside([])), [], data);
    assert [] + data == data;
  }

  lemma ScanItem(scan: Scan, item: Item)
    requires scan.pending == Nothing && ValidItem(item)
    ensures ScanAll(scan, Encode(item)) == Emit(scan, item)
  {
    match item
    case Text(b) => if b == IAC { ScanTwo(scan, IAC, IAC); } else { ScanOne(scan, b); }
    case Command(verb, option) =>
      assert [IAC, verb, option] == [IAC, verb] + [option];
      ScanSplits(scan, [IAC, verb], [option]);
      ScanTwo(scan, IAC, verb);
      ScanOne(scan.(pending := SeenVerb(verb)), option);
    case Other(code) => ScanTwo(scan, IAC, code);
    case Subnegotiation(payload) =>
      ScanInside(scan, payload);
      ScanSplits(scan, [IAC, SB] + EscapeAll(payload), [IAC, SE]);
      ScanTwo(scan.(pending := Inside(payload)), IAC, SE);
    case Broken(payload, code) =>
      ScanInside(scan, payload);
      ScanSplits(scan, [IAC, SB] + EscapeAll(payload), [IAC, code]);
      ScanTwo(scan.(pending := Inside(payload)), IAC, code);
  }

  lemma ScanItemsSnoc(scan: Scan, items: seq<Item>, item: Item)
    requires ValidItem(item) && ScanAll(scan, EncodeAll(items)) == Scan(scan.items + items, Nothing)
    ensures ScanAll(scan, EncodeAll(items + [item])) == Scan(scan.items + (items + [item]), Nothing)
  {
    EncodeSnoc(items, item);
    ScanSplits(scan, EncodeAll(items), Encode(item));
    ScanItem(Scan(scan.items + items, Nothing), item);
    Assoc(scan.items, items, [item]);
  }

  lemma {:induction false} ScanItems(scan: Scan, items: seq<Item>)
    requires scan.pending == Nothing && forall item :: item in items ==> ValidItem(item)
    ensures ScanAll(scan, EncodeAll(items)) == Scan(scan.items + items, Nothing)
  {
    if items == [] {
      assert scan.items + items == scan.items;
    } else {
      var n := |items| - 1;
      assert items == items[..n] + [items[n]];
      ScanItems(scan, items[..n]);
      ScanItemsSnoc(scan, items[..n], items[n]);
    }
  }

  /** Items read back as written, whatever they carry. */
  lemma TokenizeUndoesEncode(items: seq<Item>)
    requires forall item :: item in items ==> ValidItem(item)
    ensures Tokenize(EncodeAll(items)) == Scan(items, Nothing)
  {
    ScanItems(Scan([], Nothing), items);
    assert [] + items == items;
  }

  // ----- the parser computes the reactions to the items ------------------------------------------

  datatype Meaning = Meaning(core: Core, clean: seq<byte>, responses: seq<seq<byte>>)

  function React(core: Core, item: Item): Reaction {
    match item
    case Command(verb, option) => HandleCommand(core, verb, option)
    case Subnegotiation(payload) => Reaction(core, SubnegotiationReplies(core, payload))
    case _ => Reaction(core, [])
  }

  /** The whole meaning of a sequence of items: data bytes, reactions in order, final core. */
  function Interpret(core: Core, items: seq<Item>): Meaning {
    if items == [] then Meaning(core, [], [])
    else
      var init := Interpret(core, items[..|items| - 1]);
      var item := items[|items| - 1];
      var r := React(init.core, item);
      Meaning(r.core, init.clean + (if item.Text? then [item.value] else []), init.responses + r.responses)
  }

  /** The parser's state is the tokenizer's unfinished rest. */
  ghost predicate Agrees(s: State, pending: Pending) {
    match pending
    case Nothing => s.parser == Data
    case SeenIAC => s.parser == GotIAC
    case SeenVerb(verb) => s.parser == GotCommand && s.command == verb
    case Inside(payload) => s.parser == InSubnegotiation && s.subneg == payload
    case InsideIAC(payload) => s.parser == SubnegotiationGotIAC && s.subneg == payload
  }

  ghost predicate Means(out: Outcome, core: Core, scan: Scan) {
    var m := Interpret(core, scan.items);
    Agrees(out.state, scan.pending) && out.state.core == m.core && out.clean == m.clean && out.responses == m.responses
  }

  lemma InterpretSnoc(core: Core, items: seq<Item>, item: Item)
    ensures var init := Interpret(core, items);
      var r := React(init.core, item);
      Interpret(core, items + [item]) ==
        Meaning(r.core, init.clean + (if item.Text? then [item.value] else []), init.responses + r.responses)
  {
    assert (items + [item])[..|items|] == items;
  }

  /** A step that completes no item only moves the parser. */
  lemma StepInside(s: State, scan: Scan, b: byte)
    requires Agrees(s, scan.pending) && ValidScan(scan) && ScanByte(scan, b).items == scan.items
    ensures var step := StepByte(s, b);
      && Agrees(step.state, ScanByte(scan, b).pending) && step.state.core == s.core
      && step.clean == [] && step.responses == []
  {
    match scan.pending
    case Nothing =>
    case SeenIAC =>
    case Inside(payload) =>
    case InsideIAC(payload) =>
    case SeenVerb(_) =>
  }

  /** A step that completes an item yields the reaction to it. */
  lemma StepCompletes(s: State, scan: Scan, b: byte)
    requires Agrees(s, scan.pending) && ValidScan(scan) && |ScanByte(scan, b).items| == |scan.items| + 1
    ensures var step, item := StepByte(s, b), ScanByte(scan, b).items[|scan.items|];
      var r := React(s.core, item);
      && step.state.parser == Data && step.state.core == r.core && step.responses == r.responses
      && step.clean == (if item.Text? then [item.value] else [])
  {
    match scan.pending
    case Nothing =>
    case SeenIAC =>
    case SeenVerb(verb) =>
    case InsideIAC(payload) =>
    case Inside(_) =>
  }

  lemma StepMeans(out: Outcome, core: Core, scan: Scan, b: byte)
    requires Means(out, core, scan) && ValidScan(scan)
    ensures Means(Then(out, StepByte(out.state, b)), core, ScanByte(scan, b))
  {
    var next := ScanByte(scan, b);
    ScanByteGrows(scan, b);
    if next.items == scan.items {
      StepInside(out.state, scan, b);
      assert out.clean + [] == out.clean && out.responses + [] == out.responses;
    } else {
      StepCompletes(out.state, scan, b);
      InterpretSnoc(core, scan.items, next.items[|scan.items|]);
    }
  }

  /** For every byte stream the parser's output is the meaning of the stream's items. */
  lemma {:induction false} ProcessMeansInterpret(s: State, data: seq<byte>)
    requires s.parser == Data
    ensures Means(Process(s, data), s.core, Tokenize(data))
  {
    if data != [] {
      var n := |data| - 1;
      ProcessMeansInterpret(s, data[..n]);
      TokenizeIsLossless(data[..n]);
      StepMeans(Process(s, data[..n]), s.core, Tokenize(data[..n]), data[n]);
    }
  }

  // ----- round trips ----------------------------------------------------------------------------

  lemma {:induction false} EscapedIsText(data: seq<byte>)
    ensures EscapeAll(data) == EncodeAll(seq(|data|, i requires 0 <= i < |data| => Text(data[i])))
  {
    if data != [] {
      var n := |data| - 1;
      EscapedIsText(data[..n]);
      var items := seq(|data|, i requires 0 <= i < |data| => Text(data[i]));
      assert items[..n] == seq(n, i requires 0 <= i < n => Text(data[..n][i]));
    }
  }

  lemma {:induction false} InterpretText(core: Core, data: seq<byte>, items: seq<Item>)
    requires |items| == |data| && forall i :: 0 <= i < |data| ==> items[i] == Text(data[i])
    ensures Interpret(core, items) == Meaning(core, data, [])
  {
    if data != [] {
      var n := |data| - 1;
      InterpretText(core, data[..n], items[..n]);
    }
  }

  /** Data sent with IAC doubled comes out of the parser exactly, with no response. */
  lemma EscapedDataComesBack(s: State, data: seq<byte>)
    requires s.parser == Data
    ensures var out := Process(s, EscapeAll(data));
      out.clean == data && out.responses == [] && out.state.parser == Data && out.state.core == s.core
  {
    var items := seq(|data|, i requires 0 <= i < |data| => Text(data[i]));
    EscapedIsText(data);
    TokenizeUndoesEncode(items);
    ProcessMeansInterpret(s, EscapeAll(data));
    InterpretText(s.core, data, items);
  }

  function NawsPayload(cols: int, rows: int): seq<byte> {
    [NAWS, HighByte(cols), LowByte(cols), HighByte(rows), LowByte(rows)]
  }

  lemma EscapeTwo(p: seq<byte>, a: byte, b: byte)
    ensures EscapeAll(p + [a, b]) == EscapeAll(p) + EscapeByte(a) + EscapeByte(b)
  {
    EscapeSnoc(p, a);
    EscapeSnoc(p + [a], b);
    assert p + [a] + [b] == p + [a, b];
  }

  lemma EscapeFive(a: byte, b: byte, c: byte, d: byte, e: byte)
    ensures EscapeAll([a, b, c, d, e]) == EscapeByte(a) + EscapeByte(b) + EscapeByte(c) + EscapeByte(d) + EscapeByte(e)
  {
    var x := EscapeByte(a);
    EscapeSnoc([], a);
    assert [] + [a] == [a] && EscapeAll([]) + x == x;
    EscapeTwo([a], b, c);
    assert [a] + [b, c] == [a, b, c];
    EscapeTwo([a, b, c], d, e);
    assert [a, b, c] + [d, e] == [a, b, c, d, e];
  }

  lemma Frame(w: seq<byte>, x: seq<byte>, y: seq<byte>, z: seq<byte>)
    ensures [IAC, SB, NAWS] + w + x + y + z + [IAC, SE] == [IAC, SB] + ([NAWS] + w + x + y + z) + [IAC, SE]
  {
  }

  lemma NawsIsSubnegotiation(cols: int, rows: int)
    ensures EncodeNaws(cols, rows) == Encode(Subnegotiation(NawsPayload(cols, rows)))
  {
    EscapeFive(NAWS, HighByte(cols), LowByte(cols), HighByte(rows), LowByte(rows));
    Frame(EscapeByte(HighByte(cols)), EscapeByte(LowByte(cols)), EscapeByte(HighByte(rows)), EscapeByte(LowByte(rows)));
  }

  function BigEndian(high: int, low: int): int {
    256 * high + low
  }

  /**
   A window report reads back as one subnegotiation with no response; its two big-endian numbers are
   the dimensions if and only if those fit in 16 bits.
   */
  lemma NawsRoundTrip(s: State, cols: int, rows: int)
    requires s.parser == Data
    ensures Tokenize(EncodeNaws(cols, rows)) == Scan([Subnegotiation(NawsPayload(cols, rows))], Nothing)
    ensures var out := Process(s, EncodeNaws(cols, rows));
      out.state.parser == Data && out.state.core == s.core && out.clean == [] && out.responses == []
    ensures var p := NawsPayload(cols, rows);
      BigEndian(p[1], p[2]) == cols && BigEndian(p[3], p[4]) == rows <==>
      0 <= cols < 65536 && 0 <= rows < 65536
  {
    var item := Subnegotiation(NawsPayload(cols, rows));
    NawsIsSubnegotiation(cols, rows);
    OneItem(item);
    ProcessMeansInterpret(s, EncodeNaws(cols, rows));
    InterpretSnoc(s.core, [], item);
    assert [] + [item] == [item];
    BytesOf(cols);
    BytesOf(rows);
  }

  lemma BytesOf(n: int)
    ensures BigEndian(HighByte(n), LowByte(n)) == n <==> 0 <= n < 65536
  {
    assert n == 256 * (n / 256) + n % 256;
  }

  lemma {:induction false} PlainEscape(name: seq<byte>)
    ensures EscapeAll(name) == name <==> IAC !in name
    ensures |EscapeAll(name)| >= |name|
    ensures IAC in name ==> |EscapeAll(name)| > |name|
  {
    if name != [] {
      var n := |name| - 1;
      PlainEscape(name[..n]);
      assert name == name[..n] + [name[n]];
    }
  }

  lemma OneItem(item: Item)
    requires ValidItem(item)
    ensures EncodeAll([item]) == Encode(item)
    ensures Tokenize(Encode(item)) == Scan([item], Nothing)
  {
    EncodeSnoc([], item);
    assert [] + [item] == [item];
    TokenizeUndoesEncode([item]);
  }

  lemma EscapeWithPrefix(name: seq<byte>)
    ensures EscapeAll([TERMINAL_TYPE, IS] + name) == [TERMINAL_TYPE, IS] + name <==> IAC !in name
  {
    var payload := [TERMINAL_TYPE, IS] + name;
    PlainEscape(payload);
    assert IAC in payload <==> IAC in name by {
      if IAC in name {
        var i :| 0 <= i < |name| && name[i] == IAC;
        assert payload[i + 2] == IAC;
      }
    }
  }

  lemma SameFrame(x: seq<byte>, y: seq<byte>)
    ensures [IAC, SB] + x + [IAC, SE] == [IAC, SB] + y + [IAC, SE] <==> x == y
  {
    var a, b := [IAC, SB] + x + [IAC, SE], [IAC, SB] + y + [IAC, SE];
    assert a[2..|a| - 2] == x && b[2..|b| - 2] == y;
  }

  /** The terminal type reads back as one IS subnegotiation exactly when its name holds no 0xFF. */
  lemma TerminalTypeRoundTripIff(name: seq<byte>)
    ensures Tokenize(EncodeTerminalType(name)) == Scan([Subnegotiation([TERMINAL_TYPE, IS] + name)], Nothing)
            <==> IAC !in name
  {
    var payload := [TERMINAL_TYPE, IS] + name;
    var item := Subnegotiation(payload);
    OneItem(item);
    EscapeWithPrefix(name);
    SameFrame(EscapeAll(payload), payload);
    assert EncodeTerminalType(name) == [IAC, SB] + payload + [IAC, SE];
    TokenizeIsLossless(EncodeTerminalType(name));
  }
}
