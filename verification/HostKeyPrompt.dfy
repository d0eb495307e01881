/**
 Asking the client about an unknown host key: a race of its answer, its disconnect and a timer, any number
 of prompts sharing one socket. (app/services/host-key/host-key-verifier.ts)
 */
module HostKeyPrompt {
  import opened Basics

  /** The client's answer, or a payload that is none. */
  datatype Answer = Accept | Trusted | Reject | Other | Malformed

  predicate Accepts(a: Answer) {
    a.Accept? || a.Trusted?
  }

  datatype PromptId = PromptId(number: nat)

  /** One prompt: its timer, its two listeners on the socket, and every value `verify` was called with. */
  datatype Prompt = Prompt(timer: bool, onResponse: bool, onDisconnect: bool, verdicts: seq<bool>)

  function Asked(): Prompt {
    Prompt(true, true, true, [])
  }

  /** Timer cleared, listeners removed, `verify` called. */
  function Settled(p: Prompt, verdict: bool): Prompt {
    Prompt(false, false, false, p.verdicts + [verdict])
  }

  datatype Event = Ask(id: PromptId) | Respond(answer: Answer) | Disconnect | Timeout(id: PromptId)

  type World = map<PromptId, Prompt>

  predicate Enabled(w: World, e: Event) {
    match e
    case Ask(id) => id !in w
    case Timeout(id) => id in w && w[id].timer
    case _ => true
  }

  function Step(w: World, e: Event): World {
    match e
    case Ask(id) => w[id := Asked()]
    case Respond(answer) => map id | id in w :: if w[id].onResponse then Settled(w[id], Accepts(answer)) else w[id]
    case Disconnect => map id | id in w :: if w[id].onDisconnect then Settled(w[id], false) else w[id]
    case Timeout(id) => if id in w then w[id := Settled(w[id], false)] else w
  }

  ghost function Run(events: seq<Event>): World {
    if events == [] then map[] else Step(Run(events[..|events| - 1]), events[|events| - 1])
  }

  ghost predicate IsRun(events: seq<Event>) {
    events == [] ||
    (IsRun(events[..|events| - 1]) && Enabled(Run(events[..|events| - 1]), events[|events| - 1]))
  }

  // ----- the specification: the first event after the question decides -------------------------------

  function Deciding(e: Event, id: PromptId): Option<bool> {
    match e
    case Respond(answer) => Some(answer in {Accept, Trusted})
    case Disconnect => Some(false)
    case Timeout(other) => if other == id then Some(false) else None
    case Ask(_) => None
  }

  function Decision(events: seq<Event>, id: PromptId): Option<bool> {
    if events == [] then None
    else
      var before := events[..|events| - 1];
      if Decision(before, id).Some? then Decision(before, id)
      else if Ask(id) in before then Deciding(events[|events| - 1], id)
      else None
  }

  function Verdicts(decision: Option<bool>): seq<bool> {
    if decision.Some? then [decision.value] else []
  }

  /** A prompt agrees with the specification, and is registered exactly while undecided. */
  ghost predicate Agrees(w: World, events: seq<Event>, id: PromptId) {
    && (id in w <==> Ask(id) in events)
    && (id !in w ==> Decision(events, id).None?)
    && (id in w ==>
          var decision := Decision(events, id);
          && w[id].verdicts == Verdicts(decision)
          && w[id].timer == w[id].onResponse == w[id].onDisconnect == decision.None?)
  }

  /**
   In every interleaving `verify` is called at most once for each prompt, with what the first answer,
   disconnect or timeout after the question says; until then the timer and both listeners stand, and from
   then on nothing of the prompt is left on the socket.
   */
  lemma {:induction false} FirstEventDecides(events: seq<Event>, id: PromptId)
    requires IsRun(events)
    ensures Agrees(Run(events), events, id)
  {
    if events != [] {
      var before, e := events[..|events| - 1], events[|events| - 1];
      FirstEventDecides(before, id);
      assert events == before + [e];
      assert Ask(id) in events <==> Ask(id) in before || e == Ask(id);
      if e.Ask? || e.Timeout? {
        FirstEventDecides(before, e.id);
      }
      assert forall b: bool :: [] + [b] == [b];
    }
  }

  // ----- an answer names no prompt --------------------------------------------------------------------

  /** The prompts still waiting for an answer. */
  ghost function Undecided(w: World): set<PromptId> {
    set id | id in w && w[id].verdicts == []
  }

  lemma WaitingIsRegistered(events: seq<Event>, id: PromptId)
    requires IsRun(events) && id in Run(events)
    ensures Run(events)[id].onResponse <==> id in Undecided(Run(events))
  {
    FirstEventDecides(events, id);
  }

  lemma RespondSettles(w: World, answer: Answer, meant: PromptId)
    requires meant in Undecided(w)
    requires forall id :: id in w ==> (w[id].onResponse <==> id in Undecided(w))
    ensures var t := Step(w, Respond(answer));
      && t.Keys == w.Keys
      && (forall id :: id in w ==>
            t[id] == if id in Undecided(w) then Settled(w[id], answer in {Accept, Trusted}) else w[id])
      && ((forall id :: id in w && id != meant ==> t[id] == w[id]) <==> Undecided(w) == {meant})
  {
    var t := Step(w, Respond(answer));
    assert forall id :: id in Undecided(w) ==> |t[id].verdicts| == 1;
  }

  /**
   One answer settles every prompt of the socket that is still undecided, all alike, and no other. So it settles
   the prompt it was meant for alone if and only if no other prompt is undecided.
   */
  lemma AnswerSettlesAll(events: seq<Event>, answer: Answer, meant: PromptId)
    requires IsRun(events) && meant in Undecided(Run(events))
    ensures var w, t := Run(events), Run(events + [Respond(answer)]);
      && IsRun(events + [Respond(answer)]) && t.Keys == w.Keys
      && (forall id :: id in w ==>
            t[id] == if id in Undecided(w) then Settled(w[id], answer in {Accept, Trusted}) else w[id])
      && ((forall id :: id in w && id != meant ==> t[id] == w[id]) <==> Undecided(w) == {meant})
  {
    assert (events + [Respond(answer)])[..|events|] == events;
    forall id | id in Run(events) ensures Run(events)[id].onResponse <==> id in Undecided(Run(events)) {
      WaitingIsRegistered(events, id);
    }
    RespondSettles(Run(events), answer, meant);
  }

  /** Two prompts, perhaps for two hosts, and one Accept: both keys are accepted. */
  lemma AcceptSettlesBoth(first: PromptId, second: PromptId) returns (w: World)
    requires first != second
    ensures var events := [Ask(first), Ask(second), Respond(Accept)]; IsRun(events) && w == Run(events)
    ensures first in w && second in w && w[first].verdicts == w[second].verdicts == [true]
  {
    var one, two, three := [Ask(first)], [Ask(first), Ask(second)], [Ask(first), Ask(second), Respond(Accept)];
    var none: seq<Event> := [];
    assert one[..0] == none && two[..1] == one && three[..2] == two && IsRun(none) && Run(none) == map[];
    assert IsRun(one) && IsRun(two);
    assert Run(one) == map[][first := Asked()] && Run(two) == Run(one)[second := Asked()];
    w := Run(three);
    assert w == Step(Run(two), Respond(Accept));
  }

  class PromptObject {
    var timer: bool
    var onResponse: bool
    var onDisconnect: bool
    var verdicts: seq<bool>

    ghost function Abs(): Prompt
      reads this
    {
      Prompt(timer, onResponse, onDisconnect, verdicts)
    }

    constructor ()
      ensures Abs() == Asked()
    {
      timer, onResponse, onDisconnect, verdicts := true, true, true, [];
    }

    method Cleanup()
      modifies this
      ensures Abs() == Prompt(false, false, false, old(verdicts))
    {
      timer, onResponse, onDisconnect := false, false, false;
    }

    method HandleResponse(answer: Answer)
      modifies this
      ensures Abs() == Settled(old(Abs()), Accepts(answer))
    {
      Cleanup();
      if answer.Malformed? {
        verdicts := verdicts + [false];
        return;
      }
      if answer.Accept? || answer.Trusted? {
        verdicts := verdicts + [true];
        return;
      }
      verdicts := verdicts + [false];
    }

    method HandleDisconnect()
      modifies this
      ensures Abs() == Settled(old(Abs()), false)
    {
      Cleanup();
      verdicts := verdicts + [false];
    }

    /** The timer has fired, so there is none to clear. */
    method HandleTimeout()
      modifies this
      ensures Abs() == Settled(old(Abs()), false)
    {
      timer, onResponse, onDisconnect := false, false, false;
      verdicts := verdicts + [false];
    }
  }

  // ----- the key's algorithm name ---------------------------------------------------------------------

  function Unsigned32(bytes: seq<byte>): nat
    requires |bytes| >= 4
  {
    0x1000000 * bytes[0] as int + 0x10000 * bytes[1] as int + 0x100 * bytes[2] as int + bytes[3] as int
  }

  /** Decoding as ASCII drops the high bit of every byte. */
  function Ascii(bytes: seq<byte>): string {
    seq(|bytes|, i requires 0 <= i < |bytes| => (bytes[i] as int % 128) as char)
  }

  function ExtractAlgorithm(key: seq<byte>): string {
    if |key| < 4 then "unknown"
    else if |key| < 4 + Unsigned32(key) then "unknown"
    else Ascii(key[4..4 + Unsigned32(key)])
  }

  /** The wire form: a four-byte length, then the name. */
  function Prefixed(name: seq<byte>): seq<byte>
    requires |name| < 0x1_0000_0000
  {
    var n := |name|;
    [(n / 256 / 256 / 256) as byte, (n / 256 / 256 % 256) as byte, (n / 256 % 256) as byte, (n % 256) as byte] + name
  }

  /** The name in front of any key data is read back; any cut through it is reported as unknown. */
  lemma AlgorithmReadsBack(name: seq<byte>, rest: seq<byte>, cut: nat)
    requires |name| < 0x1_0000_0000 && cut <= |Prefixed(name) + rest|
    ensures ExtractAlgorithm((Prefixed(name) + rest)[..cut]) ==
            if cut < 4 + |name| then "unknown" else Ascii(name)
  {
    var key := (Prefixed(name) + rest)[..cut];
    if cut >= 4 {
      assert Unsigned32(key) == |name| by { Digits(|name|); }
      if cut >= 4 + |name| {
        assert Prefixed(name)[4..] == name;
        assert key[4..4 + |name|] == Prefixed(name)[4..];
      }
    }
  }

  lemma Digits(n: nat)
    ensures n == 0x1000000 * (n / 256 / 256 / 256) + 0x10000 * (n / 256 / 256 % 256) + 0x100 * (n / 256 % 256) + n % 256
  {
    var q := n / 256;
    var r := q / 256;
    assert n == 256 * q + n % 256 && q == 256 * r + q % 256 && r == 256 * (r / 256) + r % 256;
  }
}
