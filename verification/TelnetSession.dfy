/**
 The socket data handler of a telnet shell: the negotiator strips the stream, the authenticator may
 hold it back, the rest is pushed to the shell stream. (app/services/telnet/telnet-service.ts)
 */
module TelnetSession {
  import opened Basics
  import N = TelnetNegotiation
  import Auth = TelnetAuth

  datatype Event =
    | Segment(data: seq<byte>)
    | Timeout
    | Settle

  /** The handler's collaborators, and what it wrote to the socket and pushed to the shell. */
  datatype Session = Session(
    negotiator: N.State,
    authenticator: Option<Auth.State>,
    socket: seq<seq<byte>>,
    pushed: seq<seq<byte>>
  )

  function PushIfAny(pushed: seq<seq<byte>>, data: Option<seq<byte>>): seq<seq<byte>> {
    if data.Some? && |data.value| > 0 then pushed + [data.value] else pushed
  }

  function OnSegment(options: Auth.Options, s: Session, data: seq<byte>): Session {
    var out := N.Process(s.negotiator, data);
    var t := s.(negotiator := out.state, socket := s.socket + out.responses);
    if |out.clean| == 0 then t
    else if s.authenticator.Some? && Auth.Waiting(s.authenticator.value.phase) then
      var r := Auth.OnData(options, s.authenticator.value, out.clean);
      t.(authenticator := Some(r.state),
         socket := t.socket + (if r.write.Some? then [r.write.value] else []),
         pushed := PushIfAny(s.pushed, r.forward))
    else t.(pushed := s.pushed + [out.clean])
  }

  function OnTimer(s: Session, e: Event): Session {
    if s.authenticator.None? then s
    else
      var r := if e == Timeout then Auth.OnTimeout(s.authenticator.value) else Auth.OnSettle(s.authenticator.value);
      s.(authenticator := Some(r.state), pushed := PushIfAny(s.pushed, r.forward))
  }

  /** The offers made once a shell is open. */
  function OnOffers(s: Session): Session {
    var r := N.ProactiveOffers(s.negotiator.core);
    s.(negotiator := s.negotiator.(core := r.core), socket := s.socket + r.responses)
  }

  /** A resized window: the new size is kept and reported. */
  function OnResize(s: Session, cols: int, rows: int): Session {
    s.(negotiator := s.negotiator.(core := s.negotiator.core.(cols := cols, rows := rows)),
       socket := s.socket + [N.EncodeNaws(cols, rows)])
  }

  function Step(options: Auth.Options, s: Session, e: Event): Session {
    if e.Segment? then OnSegment(options, s, e.data) else OnTimer(s, e)
  }

  function Run(options: Auth.Options, init: Session, events: seq<Event>): Session {
    if events == [] then init
    else Step(options, Run(options, init, events[..|events| - 1]), events[|events| - 1])
  }

  /** The raw bytes the socket delivered. */
  function Received(events: seq<Event>): seq<byte> {
    if events == [] then []
    else Received(events[..|events| - 1]) + (if events[|events| - 1].Segment? then events[|events| - 1].data else [])
  }

  function Open(negotiator: N.State, authenticator: Option<Auth.State>): Session {
    Session(negotiator, authenticator, [], [])
  }

  // ----- without an authenticator ---------------------------------------------------------------

  lemma {:induction false} NegotiatorSeesWholeStream(options: Auth.Options, init: Session, events: seq<Event>)
    ensures Run(options, init, events).negotiator == N.Process(init.negotiator, Received(events)).state
  {
    if events != [] {
      var n := |events| - 1;
      NegotiatorSeesWholeStream(options, init, events[..n]);
      if events[n].Segment? {
        N.ProcessSplits(init.negotiator, Received(events[..n]), events[n].data);
      } else {
        assert Received(events) == Received(events[..n]);
      }
    }
  }

  /**
   Without an authenticator, however the socket cuts the stream up, the shell gets exactly the stripped
   stream and the socket exactly the negotiation responses.
   */
  lemma {:induction false} ShellGetsStrippedStream(options: Auth.Options, negotiator: N.State, events: seq<Event>)
    ensures var s := Run(options, Open(negotiator, None), events);
      var whole := N.Process(negotiator, Received(events));
      s.authenticator.None? && Concat(s.pushed) == whole.clean && s.socket == whole.responses
  {
    if events != [] {
      var n := |events| - 1;
      var init := Open(negotiator, None);
      ShellGetsStrippedStream(options, negotiator, events[..n]);
      NegotiatorSeesWholeStream(options, init, events[..n]);
      var s := Run(options, init, events[..n]);
      if events[n].Segment? {
        N.ProcessSplits(negotiator, Received(events[..n]), events[n].data);
        ConcatSnoc(s.pushed, N.Process(s.negotiator, events[n].data).clean);
      } else {
        assert Received(events) == Received(events[..n]);
      }
    }
  }

  // ----- with one -------------------------------------------------------------------------------

  /** The authenticator events a session's events amount to: the stripped segments and the timers. */
  function AuthEvents(negotiator: N.State, events: seq<Event>): seq<Auth.Event> {
    if events == [] then []
    else
      var n := |events| - 1;
      var before := AuthEvents(negotiator, events[..n]);
      match events[n]
      case Segment(data) =>
        var clean := N.Process(N.Process(negotiator, Received(events[..n])).state, data).clean;
        if clean == [] then before else before + [Auth.Arrive(clean)]
      case Timeout => before + [Auth.Timeout]
      case Settle => before + [Auth.Settle]
  }

  lemma {:induction false} StrippedStreamArrives(options: Auth.Options, negotiator: N.State, events: seq<Event>)
    ensures Auth.Run(options, AuthEvents(negotiator, events)).arrived == N.Process(negotiator, Received(events)).clean
  {
    if events != [] {
      var n := |events| - 1;
      StrippedStreamArrives(options, negotiator, events[..n]);
      var before, all := AuthEvents(negotiator, events[..n]), AuthEvents(negotiator, events);
      if all != before {
        assert all[..|all| - 1] == before;
      }
      if events[n].Segment? {
        N.ProcessSplits(negotiator, Received(events[..n]), events[n].data);
      } else {
        assert Received(events) == Received(events[..n]);
      }
    }
  }

  lemma PushedConcat(pushed: seq<seq<byte>>, data: Option<seq<byte>>)
    ensures Concat(PushIfAny(pushed, data)) == Concat(pushed) + Auth.Optional(data)
  {
    ConcatSnoc(pushed, Auth.Optional(data));
  }

  /** One session event against the authenticator event it amounts to. */
  lemma StepFollows(options: Auth.Options, s: Session, e: Event, ae: Auth.Event)
    requires s.authenticator.Some?
    requires match e
      case Segment(data) =>
        N.Process(s.negotiator, data).clean != [] && ae == Auth.Arrive(N.Process(s.negotiator, data).clean)
      case Timeout => ae == Auth.Timeout
      case Settle => ae == Auth.Settle
    ensures var r := Auth.React(options, s.authenticator.value, ae);
      var t := Step(options, s, e);
      && t.authenticator == Some(r.state) && Concat(t.pushed) == Concat(s.pushed) + Auth.Optional(r.forward)
      && t.socket == s.socket + (if e.Segment? then N.Process(s.negotiator, e.data).responses else [])
                              + (if r.write.Some? then [r.write.value] else [])
  {
    PushedConcat(s.pushed, Auth.React(options, s.authenticator.value, ae).forward);
    assert s.socket + [] + [] == s.socket;
  }

  /** The session pushes what the authenticator forwards, also after authentication is over. */
  lemma {:induction false} SessionFollowsAuthenticator(options: Auth.Options, negotiator: N.State, events: seq<Event>)
    ensures var s := Run(options, Open(negotiator, Some(Auth.Initial(options))), events);
      var t := Auth.Run(options, AuthEvents(negotiator, events));
      s.authenticator == Some(t.state) && Concat(s.pushed) == t.forwarded
  {
    if events != [] {
      var n := |events| - 1;
      var init := Open(negotiator, Some(Auth.Initial(options)));
      SessionFollowsAuthenticator(options, negotiator, events[..n]);
      NegotiatorSeesWholeStream(options, init, events[..n]);
      var before, all := AuthEvents(negotiator, events[..n]), AuthEvents(negotiator, events);
      if all != before {
        assert all[..|all| - 1] == before;
        StepFollows(options, Run(options, init, events[..n]), events[n], all[|all| - 1]);
      }
    }
  }

  /** `whole` consists of the elements of `a` and of `b`, each in their order. */
  ghost predicate Interleaves(whole: seq<seq<byte>>, a: seq<seq<byte>>, b: seq<seq<byte>>)
    decreases |whole|
  {
    if whole == [] then a == [] && b == []
    else
      var n := |whole| - 1;
      || (a != [] && a[|a| - 1] == whole[n] && Interleaves(whole[..n], a[..|a| - 1], b))
      || (b != [] && b[|b| - 1] == whole[n] && Interleaves(whole[..n], a, b[..|b| - 1]))
  }

  lemma {:induction false} InterleavesLeft(whole: seq<seq<byte>>, a: seq<seq<byte>>, b: seq<seq<byte>>,
                                           more: seq<seq<byte>>)
    requires Interleaves(whole, a, b)
    ensures Interleaves(whole + more, a + more, b)
  {
    if more == [] {
      assert whole + more == whole && a + more == a;
    } else {
      var n := |more| - 1;
      InterleavesLeft(whole, a, b, more[..n]);
      assert (whole + more)[..|whole + more| - 1] == whole + more[..n];
      assert (a + more)[..|a + more| - 1] == a + more[..n];
    }
  }

  lemma InterleavesRight(whole: seq<seq<byte>>, a: seq<seq<byte>>, b: seq<seq<byte>>, last: seq<byte>)
    requires Interleaves(whole, a, b)
    ensures Interleaves(whole + [last], a, b + [last])
  {
    assert (whole + [last])[..|whole|] == whole && (b + [last])[..|b|] == b;
  }

  lemma InterleavesStep(whole: seq<seq<byte>>, a: seq<seq<byte>>, b: seq<seq<byte>>, more: seq<seq<byte>>,
                        write: Option<seq<byte>>)
    requires Interleaves(whole, a, b)
    ensures var w := if write.Some? then [write.value] else []; Interleaves(whole + more + w, a + more, b + w)
  {
    InterleavesLeft(whole, a, b, more);
    if write.Some? {
      InterleavesRight(whole + more, a + more, b, write.value);
    } else {
      assert whole + more + [] == whole + more && b + [] == b;
    }
  }

  /**
   Whatever the segmentation and the timing, the socket gets the negotiation responses of the whole stream and
   the authenticator's lines, each in their order and nothing else.
   */
  lemma {:induction false} SocketInterleaves(options: Auth.Options, negotiator: N.State, events: seq<Event>)
    ensures var s := Run(options, Open(negotiator, Some(Auth.Initial(options))), events);
      Interleaves(s.socket, N.Process(negotiator, Received(events)).responses,
                  Auth.Run(options, AuthEvents(negotiator, events)).writes)
  {
    if events != [] {
      var n := |events| - 1;
      SocketInterleaves(options, negotiator, events[..n]);
      SocketSnoc(options, negotiator, events);
    }
  }

  /** What the last event of a run adds to the socket, the responses and the lines. */
  lemma SocketSnoc(options: Auth.Options, negotiator: N.State, events: seq<Event>)
    requires events != []
    requires var init := events[..|events| - 1];
      Interleaves(Run(options, Open(negotiator, Some(Auth.Initial(options))), init).socket,
                  N.Process(negotiator, Received(init)).responses,
                  Auth.Run(options, AuthEvents(negotiator, init)).writes)
    ensures Interleaves(Run(options, Open(negotiator, Some(Auth.Initial(options))), events).socket,
                        N.Process(negotiator, Received(events)).responses,
                        Auth.Run(options, AuthEvents(negotiator, events)).writes)
  {
    var n := |events| - 1;
    var open := Open(negotiator, Some(Auth.Initial(options)));
    var s := Run(options, open, events[..n]);
    var before, all := AuthEvents(negotiator, events[..n]), AuthEvents(negotiator, events);
    var responses, writes := N.Process(negotiator, Received(events[..n])).responses, Auth.Run(options, before).writes;
    SessionFollowsAuthenticator(options, negotiator, events[..n]);
    NegotiatorSeesWholeStream(options, open, events[..n]);
    var more := if events[n].Segment? then N.Process(s.negotiator, events[n].data).responses else [];
    ResponsesSnoc(negotiator, events);
    if all == before {
      InterleavesLeft(s.socket, responses, writes, more);
    } else {
      assert all[..|all| - 1] == before;
      StepFollows(options, s, events[n], all[|all| - 1]);
      InterleavesStep(s.socket, responses, writes, more,
                      Auth.React(options, s.authenticator.value, all[|all| - 1]).write);
    }
  }

  lemma ResponsesSnoc(negotiator: N.State, events: seq<Event>)
    requires events != []
    ensures var n := |events| - 1;
      var before := N.Process(negotiator, Received(events[..n]));
      N.Process(negotiator, Received(events)).responses == before.responses
        + (if events[n].Segment? then N.Process(before.state, events[n].data).responses else [])
  {
    var n := |events| - 1;
    if events[n].Segment? {
      N.ProcessSplits(negotiator, Received(events[..n]), events[n].data);
    } else {
      assert Received(events) == Received(events[..n]);
    }
  }

  /** Beside the negotiation responses the socket gets the user name and the password at most once, in that order. */
  lemma CredentialsOnSocket(options: Auth.Options, negotiator: N.State, events: seq<Event>)
    ensures var s := Run(options, Open(negotiator, Some(Auth.Initial(options))), events);
      exists lines :: lines <= [Auth.Line(options.username), Auth.Line(options.password)]
        && Interleaves(s.socket, N.Process(negotiator, Received(events)).responses, lines)
  {
    SocketInterleaves(options, negotiator, events);
    Auth.CredentialsAtMostOnceInOrder(options, AuthEvents(negotiator, events));
  }

  /** The authenticator has seen the stripped stream. */
  lemma {:induction false} AuthBytes(negotiator: N.State, events: seq<Event>)
    ensures Auth.Bytes(AuthEvents(negotiator, events)) == N.Process(negotiator, Received(events)).clean
    ensures Auth.Timeout in AuthEvents(negotiator, events) <==> Timeout in events
    ensures N.Process(negotiator, Received(events)).clean != [] ==> Auth.HasChunk(AuthEvents(negotiator, events))
  {
    if events != [] {
      var n := |events| - 1;
      var before, all := AuthEvents(negotiator, events[..n]), AuthEvents(negotiator, events);
      assert events == events[..n] + [events[n]];
      AuthBytes(negotiator, events[..n]);
      if all != before {
        assert all == before + [all[|before|]];
        Auth.HitSnoc(None, before, all[|before|]);
        Auth.ChunkSnoc(before, all[|before|]);
      }
      if events[n].Segment? {
        N.ProcessSplits(negotiator, Received(events[..n]), events[n].data);
      } else {
        assert Received(events) == Received(events[..n]);
      }
    }
  }

  /** Beside the responses the socket gets exactly the lines that the stripped segments and the timers tell. */
  lemma LinesOnSocket(options: Auth.Options, negotiator: N.State, events: seq<Event>)
    ensures var s := Run(options, Open(negotiator, Some(Auth.Initial(options))), events);
      Interleaves(s.socket, N.Process(negotiator, Received(events)).responses,
                  Auth.Lines(options, AuthEvents(negotiator, events)))
  {
    SocketInterleaves(options, negotiator, events);
    Auth.WritesAsTold(options, AuthEvents(negotiator, events));
  }

  /**
   With a prompt that stays matched, and before a timeout: the user name is written if and only if the stripped
   stream holds the prompt, however the socket cut it up.
   */
  lemma UserNameWrittenIff(options: Auth.Options, negotiator: N.State, events: seq<Event>)
    requires options.username.Some? && Auth.Lasting(options.loginPrompt) && Timeout !in events
    requires 0 < |N.Process(negotiator, Received(events)).clean| <= 65536
    ensures Auth.Lines(options, AuthEvents(negotiator, events)) != [] <==>
            Auth.Matches(options.loginPrompt, N.Process(negotiator, Received(events)).clean)
  {
    AuthBytes(negotiator, events);
    Auth.WritesAsTold(options, AuthEvents(negotiator, events));
    Auth.UserNameIff(options, AuthEvents(negotiator, events));
  }

  /**
   End to end, for every segmentation of the socket stream and every timing: the bytes pushed to the
   shell, followed by the authenticator's buffer, are the stripped stream from the end of the segment
   that last matched a prompt, if and only if the failure pattern never matched behind buffered bytes.
   */
  lemma SessionLosesNothing(options: Auth.Options, negotiator: N.State, events: seq<Event>)
    ensures var s := Run(options, Open(negotiator, Some(Auth.Initial(options))), events);
      var t := Auth.Run(options, AuthEvents(negotiator, events));
      var stripped := N.Process(negotiator, Received(events)).clean;
      && s.authenticator.Some?
      && t.matchedAt <= |stripped|
      && t.dropped + Concat(s.pushed) + s.authenticator.value.buffer == stripped[t.matchedAt..]
      && (Concat(s.pushed) + s.authenticator.value.buffer == stripped[t.matchedAt..] <==>
            !exists k: nat :: Auth.DropsAt(options, AuthEvents(negotiator, events), k))
  {
    SessionFollowsAuthenticator(options, negotiator, events);
    StrippedStreamArrives(options, negotiator, events);
    Auth.NothingIsLost(options, AuthEvents(negotiator, events));
  }

  // ----- the handler ----------------------------------------------------------------------------

  class Handler {
    const options: Auth.Options
    const negotiator: N.Negotiator
    const authenticator: Auth.Authenticator?
    var socket: seq<seq<byte>>
    var pushed: seq<seq<byte>>

    ghost predicate Valid()
      reads this
    {
      authenticator != null ==> authenticator.options == options
    }

    ghost function Abs(): Session
      reads this, negotiator, if authenticator == null then {} else {authenticator}
    {
      Session(negotiator.Abs(), if authenticator == null then None else Some(authenticator.Abs()), socket, pushed)
    }

    constructor (options: Auth.Options, negotiator: N.Negotiator, authenticator: Auth.Authenticator?)
      requires authenticator != null ==> authenticator.options == options
      ensures Valid() && this.options == options && this.negotiator == negotiator && this.authenticator == authenticator
      ensures Abs() == Open(negotiator.Abs(), if authenticator == null then None else Some(authenticator.Abs()))
    {
      this.options, this.negotiator, this.authenticator := options, negotiator, authenticator;
      socket, pushed := [], [];
    }

    method HandleData(data: seq<byte>)
      requires Valid()
      modifies this, negotiator, if authenticator == null then {} else {authenticator}
      ensures Valid() && Abs() == OnSegment(options, old(Abs()), data)
    {
      var clean, responses := negotiator.ProcessInbound(data);
      ghost var before := socket;
      for i := 0 to |responses|
        invariant socket == before + responses[..i]
        invariant pushed == old(pushed) && negotiator.Abs() == N.Process(old(negotiator.Abs()), data).state
        invariant authenticator != null ==> authenticator.Abs() == old(authenticator.Abs())
      {
        socket := socket + [responses[i]];
      }
      assert responses[..|responses|] == responses;
      if |clean| == 0 {
        return;
      }
      if authenticator != null && Auth.Waiting(authenticator.currentState) {
        var write, forward := authenticator.ProcessData(clean);
        if write.Some? {
          socket := socket + [write.value];
        }
        if forward.Some? && |forward.value| > 0 {
          pushed := pushed + [forward.value];
        }
        return;
      }
      pushed := pushed + [clean];
    }

    method SendOffers()
      modifies this`socket, negotiator
      ensures Abs() == OnOffers(old(Abs()))
    {
      var offers := negotiator.BuildProactiveOffers();
      ghost var before := socket;
      for i := 0 to |offers|
        invariant socket == before + offers[..i] && pushed == old(pushed)
        invariant negotiator.Abs() == old(OnOffers(Abs())).negotiator
      {
        socket := socket + [offers[i]];
      }
      assert offers[..|offers|] == offers;
    }

    method Resize(cols: int, rows: int)
      modifies this`socket, negotiator
      ensures Abs() == OnResize(old(Abs()), cols, rows)
    {
      negotiator.SetWindowSize(cols, rows);
      socket := socket + [N.EncodeNaws(cols, rows)];
    }
  }
}
