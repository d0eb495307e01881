/**
 The telnet IAC parser and option negotiator.
 (app/services/telnet/telnet-negotiation.ts; RFC 854 "TELNET COMMAND STRUCTURE", RFC 1073 section 2,
 RFC 1091 section 2)

 `StepByte` is the effect of one inbound byte; the class `Negotiator` is the imperative object.
 */
module TelnetNegotiation {
  import opened Basics

  const IAC: byte := 0xFF
  const DONT: byte := 0xFE
  const DO: byte := 0xFD
  const WONT: byte := 0xFC
  const WILL: byte := 0xFB
  const SB: byte := 0xFA
  const SE: byte := 0xF0

  const ECHO: byte := 1
  const SGA: byte := 3
  const TERMINAL_TYPE: byte := 24
  const NAWS: byte := 31

  const IS: byte := 0
  const SEND: byte := 1

  predicate Supported(option: byte) {
    option in {ECHO, SGA, TERMINAL_TYPE, NAWS}
  }

  predicate IsVerb(b: byte) {
    b == DO || b == DONT || b == WILL || b == WONT
  }

  datatype OptionState = Inactive | Offered | Active

  datatype ParserState = Data | GotIAC | GotCommand | InSubnegotiation | SubnegotiationGotIAC

  /** What negotiation depends on: option states, window size and terminal type. */
  datatype Core = Core(options: map<byte, OptionState>, cols: int, rows: int, terminalType: seq<byte>) {
    function Option(o: byte): OptionState {
      if o in options then options[o] else Inactive
    }
  }

  /** The whole negotiator: the parser, its two registers, and the core. */
  datatype State = State(parser: ParserState, command: byte, subneg: seq<byte>, core: Core)

  /** The result of an inbound step: next state, stripped data, and response buffers. */
  datatype Outcome = Outcome(state: State, clean: seq<byte>, responses: seq<seq<byte>>)

  datatype Reaction = Reaction(core: Core, responses: seq<seq<byte>>)

  // ----- encoders -------------------------------------------------------------------------------

  function EscapeByte(b: byte): seq<byte> {
    if b == IAC then [IAC, IAC] else [b]
  }

  /** `(n >> 8) & 0xFF` and `n & 0xFF`, for any JavaScript integer. */
  function HighByte(n: int): byte {
    n / 256 % 256
  }

  function LowByte(n: int): byte {
    n % 256
  }

  function EncodeNaws(cols: int, rows: int): seq<byte> {
    [IAC, SB, NAWS] + EscapeByte(HighByte(cols)) + EscapeByte(LowByte(cols))
    + EscapeByte(HighByte(rows)) + EscapeByte(LowByte(rows)) + [IAC, SE]
  }

  /** Unlike NAWS, the terminal name is sent as it is. */
  function EncodeTerminalType(name: seq<byte>): seq<byte> {
    [IAC, SB, TERMINAL_TYPE, IS] + name + [IAC, SE]
  }

  // ----- reactions ------------------------------------------------------------------------------

  function HandleDo(core: Core, option: byte): Reaction {
    if !Supported(option) then Reaction(core, [[IAC, WONT, option]])
    else
      Reaction(core.(options := core.options[option := Active]),
               (if core.Option(option) == Inactive then [[IAC, WILL, option]] else [])
               + (if option == NAWS then [EncodeNaws(core.cols, core.rows)] else []))
  }

  function HandleCommand(core: Core, command: byte, option: byte): Reaction {
    if command == DO then HandleDo(core, option)
    else if command == DONT then Reaction(core, [[IAC, WONT, option]])
    else if command == WILL then Reaction(core, [[IAC, if Supported(option) then DO else DONT, option]])
    else if command == WONT then Reaction(core, [[IAC, DONT, option]])
    else Reaction(core, [])
  }

  function SubnegotiationReplies(core: Core, payload: seq<byte>): seq<seq<byte>> {
    if |payload| >= 2 && payload[0] == TERMINAL_TYPE && payload[1] == SEND
    then [EncodeTerminalType(core.terminalType)]
    else []
  }

  // ----- one byte, and a buffer of bytes ---------------------------------------------------------

  function AfterIAC(s: State, b: byte): Outcome {
    if b == IAC then Outcome(s.(parser := Data), [IAC], [])
    else if b == SB then Outcome(s.(parser := InSubnegotiation, subneg := []), [], [])
    else if IsVerb(b) then Outcome(s.(parser := GotCommand, command := b), [], [])
    else Outcome(s.(parser := Data), [], [])
  }

  function AfterSubnegotiationIAC(s: State, b: byte): Outcome {
    if b == SE then
      Outcome(s.(parser := Data, subneg := if |s.subneg| < 2 then s.subneg else []),
              [], SubnegotiationReplies(s.core, s.subneg))
    else if b == IAC then Outcome(s.(parser := InSubnegotiation, subneg := s.subneg + [IAC]), [], [])
    else Outcome(s.(parser := Data), [], [])
  }

  function StepByte(s: State, b: byte): Outcome {
    match s.parser
    case Data =>
      if b == IAC then Outcome(s.(parser := GotIAC), [], []) else Outcome(s, [b], [])
    case GotIAC => AfterIAC(s, b)
    case GotCommand =>
      var r := HandleCommand(s.core, s.command, b);
      Outcome(s.(parser := Data, core := r.core), [], r.responses)
    case InSubnegotiation =>
      if b == IAC then Outcome(s.(parser := SubnegotiationGotIAC), [], [])
      else Outcome(s.(subneg := s.subneg + [b]), [], [])
    case SubnegotiationGotIAC => AfterSubnegotiationIAC(s, b)
  }

  function Process(s: State, data: seq<byte>): Outcome {
    if data == [] then Outcome(s, [], [])
    else
      var init := Process(s, data[..|data| - 1]);
      Then(init, StepByte(init.state, data[|data| - 1]))
  }

  /** What two consecutive outcomes amount to. */
  function Then(first: Outcome, second: Outcome): Outcome {
    Outcome(second.state, first.clean + second.clean, first.responses + second.responses)
  }

  function Offer(core: Core, option: byte): Reaction {
    if core.Option(option) == Inactive
    then Reaction(core.(options := core.options[option := Offered]), [[IAC, WILL, option]])
    else Reaction(core, [])
  }

  function ProactiveOffers(core: Core): Reaction {
    var first := Offer(core, TERMINAL_TYPE);
    var second := Offer(first.core, NAWS);
    Reaction(second.core, first.responses + second.responses)
  }

  // ----- segmentation ---------------------------------------------------------------------------

  /** Feeding a stream in two pieces is feeding it whole. */
  lemma {:induction false} ProcessSplits(s: State, a: seq<byte>, b: seq<byte>)
    ensures Process(s, a + b) == Then(Process(s, a), Process(Process(s, a).state, b))
  {
    if b == [] {
      assert a + b == a;
    } else {
      var n := |b| - 1;
      ProcessSplits(s, a, b[..n]);
      assert (a + b)[..|a + b| - 1] == a + b[..n];
      var first := Process(s, a);
      var middle := Process(first.state, b[..n]);
      var last := StepByte(middle.state, b[n]);
      ThenIsAssociative(first, middle, last);
    }
  }

  lemma ThenIsAssociative(x: Outcome, y: Outcome, z: Outcome)
    ensures Then(Then(x, y), z) == Then(x, Then(y, z))
  {
    assert (x.clean + y.clean) + z.clean == x.clean + (y.clean + z.clean);
    assert (x.responses + y.responses) + z.responses == x.responses + (y.responses + z.responses);
  }

  /** Feeding a stream in segments, one `processInbound` call each. */
  function ProcessSegments(s: State, segments: seq<seq<byte>>): Outcome {
    if segments == [] then Outcome(s, [], [])
    else
      var init := ProcessSegments(s, segments[..|segments| - 1]);
      Then(init, Process(init.state, segments[|segments| - 1]))
  }

  /** However the stream is cut up, clean data, responses and final state are those of the whole. */
  lemma {:induction false} SegmentationIndependence(s: State, segments: seq<seq<byte>>)
    ensures ProcessSegments(s, segments) == Process(s, Concat(segments))
  {
    if segments != [] {
      var n := |segments| - 1;
      SegmentationIndependence(s, segments[..n]);
      ProcessSplits(s, Concat(segments[..n]), segments[n]);
    }
  }

  // ----- on the wire ------------------------------------------------------------------------------

  /** The bytes of a refusal: WONT for DO and DONT, DONT for WILL and WONT. */
  function Refusing(verb: byte): byte {
    if verb == 253 || verb == 254 then 252 else 254
  }

  /**
   In the numbers of RFC 854: IAC verb option is answered with WILL (251), DO (253) or a refusal; options 1, 3, 24 and
   31 are agreed to, and a DO of 31 also brings the window report of RFC 1073, here of 80 columns and 24 rows.
   */
  lemma AnswersInBytes(s: State, verb: byte, option: byte)
    requires s.parser == Data && s.core.options == map[] && s.core.cols == 80 && s.core.rows == 24
    requires 251 <= verb <= 254
    ensures Process(s, [255, verb, option]).responses ==
      if (verb == 253 || verb == 251) && option in {1, 3, 24, 31}
      then [[255, if verb == 253 then 251 else 253, option]]
           + (if verb == 253 && option == 31 then [[255, 250, 31, 0, 80, 0, 24, 255, 240]] else [])
      else [[255, Refusing(verb), option]]
    ensures Process(s, [255, verb, option]).clean == []
  {
    var one, two, three := [255], [255, verb], [255, verb, option];
    assert one[..0] == [] && two[..1] == one && three[..2] == two;
    assert Process(s, []) == Outcome(s, [], []);
    assert Process(s, one) == Outcome(s.(parser := GotIAC), [], []);
    assert Process(s, two) == Outcome(s.(parser := GotCommand, command := verb), [], []);
    var r := HandleCommand(s.core, verb, option);
    assert Process(s, three).responses == [] + r.responses == r.responses;
    assert EncodeNaws(80, 24) == [255, 250, 31, 0, 80, 0, 24, 255, 240];
  }

  /** The offers of a fresh negotiator, and the answer to a request for the terminal name, in bytes. */
  lemma OffersInBytes(s: State)
    requires s.parser == Data && s.core.options == map[]
    ensures ProactiveOffers(s.core).responses == [[255, 251, 24], [255, 251, 31]]
    ensures EncodeTerminalType(s.core.terminalType) == [255, 250, 24, 0] + s.core.terminalType + [255, 240]
  {
  }

  // ----- the object -----------------------------------------------------------------------------

  class Negotiator {
    const terminalType: seq<byte>
    var cols: int
    var rows: int
    var state: ParserState
    var currentCommand: byte
    var subnegBuffer: seq<byte>
    var optionStates: map<byte, OptionState>

    ghost function Abs(): State
      reads this
    {
      State(state, currentCommand, subnegBuffer, Core(optionStates, cols, rows, terminalType))
    }

    constructor (terminalType: seq<byte>)
      ensures Abs() == State(Data, 0, [], Core(map[], 80, 24, terminalType))
    {
      this.terminalType := terminalType;
      cols, rows := 80, 24;
      state, currentCommand, subnegBuffer, optionStates := Data, 0, [], map[];
    }

    method SetWindowSize(cols: int, rows: int)
      modifies this`cols, this`rows
      ensures Abs() == old(Abs()).(core := old(Abs()).core.(cols := cols, rows := rows))
    {
      this.cols, this.rows := cols, rows;
    }

    method BuildProactiveOffers() returns (offers: seq<seq<byte>>)
      modifies this`optionStates
      ensures var r := ProactiveOffers(old(Abs()).core);
        offers == r.responses && Abs() == old(Abs()).(core := r.core)
    {
      offers := [];
      var announced := [TERMINAL_TYPE, NAWS];
      ghost var first := Offer(Abs().core, TERMINAL_TYPE);
      for i := 0 to |announced|
        invariant i == 0 ==> offers == [] && Abs() == old(Abs())
        invariant i == 1 ==> offers == first.responses && Abs() == old(Abs()).(core := first.core)
        invariant i == 2 ==> offers == ProactiveOffers(old(Abs()).core).responses
                             && Abs() == old(Abs()).(core := ProactiveOffers(old(Abs()).core).core)
      {
        var option := announced[i];
        if option !in optionStates || optionStates[option] == Inactive {
          offers := offers + [[IAC, WILL, option]];
          optionStates := optionStates[option := Offered];
        }
      }
    }

    method ProcessOneByte(b: byte) returns (clean: seq<byte>, responses: seq<seq<byte>>)
      modifies this`state, this`currentCommand, this`subnegBuffer, this`optionStates
      ensures Outcome(Abs(), clean, responses) == StepByte(old(Abs()), b)
    {
      clean, responses := [], [];
      match state {
        case Data =>
          if b == IAC { state := GotIAC; } else { clean := [b]; }
        case GotIAC =>
          if b == IAC {
            clean := [IAC];
            state := Data;
          } else if b == SB {
            subnegBuffer := [];
            state := InSubnegotiation;
          } else if IsVerb(b) {
            currentCommand := b;
            state := GotCommand;
          } else {
            state := Data;
          }
        case GotCommand =>
          responses := HandleOptionByte(b);
        case InSubnegotiation =>
          if b == IAC { state := SubnegotiationGotIAC; } else { subnegBuffer := subnegBuffer + [b]; }
        case SubnegotiationGotIAC =>
          if b == SE {
            if |subnegBuffer| >= 2 {
              if subnegBuffer[0] == TERMINAL_TYPE && subnegBuffer[1] == SEND {
                responses := [EncodeTerminalType(terminalType)];
              }
              subnegBuffer := [];
            }
            state := Data;
          } else if b == IAC {
            subnegBuffer := subnegBuffer + [IAC];
            state := InSubnegotiation;
          } else {
            state := Data;
          }
      }
    }

    method HandleOptionByte(option: byte) returns (responses: seq<seq<byte>>)
      requires state == GotCommand
      modifies this`state, this`optionStates
      ensures Outcome(Abs(), [], responses) == StepByte(old(Abs()), option)
    {
      responses := [];
      state := Data;
      if currentCommand == DO {
        if !Supported(option) {
          responses := [[IAC, WONT, option]];
          return;
        }
        if option !in optionStates || optionStates[option] == Inactive {
          responses := responses + [[IAC, WILL, option]];
        }
        optionStates := optionStates[option := Active];
        if option == NAWS {
          responses := responses + [EncodeNaws(cols, rows)];
        }
      } else if currentCommand == DONT {
        responses := [[IAC, WONT, option]];
      } else if currentCommand == WILL {
        responses := [[IAC, if Supported(option) then DO else DONT, option]];
      } else if currentCommand == WONT {
        responses := [[IAC, DONT, option]];
      }
    }

    method ProcessInbound(data: seq<byte>) returns (clean: seq<byte>, responses: seq<seq<byte>>)
      modifies this`state, this`currentCommand, this`subnegBuffer, this`optionStates
      ensures Outcome(Abs(), clean, responses) == Process(old(Abs()), data)
    {
      clean, responses := [], [];
      for i := 0 to |data|
        invariant Outcome(Abs(), clean, responses) == Process(old(Abs()), data[..i])
      {
        var moreClean, moreResponses := ProcessOneByte(data[i]);
        clean, responses := clean + moreClean, responses + moreResponses;
        assert data[..i + 1][..i] == data[..i];
      }
      assert data[..|data|] == data;
    }
  }
}
