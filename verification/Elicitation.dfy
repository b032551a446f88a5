/** The elicitation gate: a tool call is confirmed over several rounds before it runs upstream. */
module Elicitation {
  import opened Descriptors

  // ----- the state that binds an answer to a call -----

  predicate IsNameChar(c: char) {
    'a' <= c <= 'z' || 'A' <= c <= 'Z' || '0' <= c <= '9' || c == '_' || c == '-' || c == '.'
  }

  const LOWER := "abcdefghijklmnopqrstuvwxyz"
  const UPPER := "ABCDEFGHIJKLMNOPQRSTUVWXYZ"
  const DIGITS := "0123456789"
  const ALLOWED := LOWER + UPPER + DIGITS + "_-."

  lemma AllowedChars(c: char)
    ensures IsNameChar(c) <==> c in ALLOWED
  {
    LowerRun(c);
    UpperRun(c);
    RunOf('0', DIGITS, c);
    assert c in "_-." <==> c == '_' || c == '-' || c == '.';
  }

  lemma LowerRun(c: char)
    ensures c in LOWER <==> 'a' <= c <= 'z'
  {
    assert |LOWER| == 26;
    RunOf('a', LOWER, c);
  }

  lemma UpperRun(c: char)
    ensures c in UPPER <==> 'A' <= c <= 'Z'
  {
    assert |UPPER| == 26;
    RunOf('A', UPPER, c);
  }

  /** A run of consecutive characters. */
  lemma RunOf(first: char, run: string, c: char)
    requires first as int + |run| <= 128 && forall k :: 0 <= k < |run| ==> run[k] as int == first as int + k
    ensures c in run <==> first as int <= c as int < first as int + |run|
  {
    if first as int <= c as int < first as int + |run| { assert run[c as int - first as int] == c; }
  }

  predicate AllAllowed(s: string) { forall k :: 0 <= k < |s| ==> s[k] in ALLOWED }

  lemma AllowedNames(s: string)
    ensures ValidName(s) <==> 1 <= |s| <= 128 && AllAllowed(s)
  {
    hide IsNameChar;
    forall k | 0 <= k < |s| ensures IsNameChar(s[k]) <==> s[k] in ALLOWED { AllowedChars(s[k]); }
  }

  /** The names the generator accepts: 1 to 128 letters, digits, underscores, hyphens and dots. */
  method ValidateMCPIdentifier(s: string) returns (ok: bool)
    ensures ok <==> ValidName(s)
    ensures ok <==> 1 <= |s| <= 128 && AllAllowed(s)
  {
    AllowedNames(s);
    hide AllAllowed;
    if s == "" || |s| > 128 {
      return false;
    }
    for i := 0 to |s|
      invariant forall k :: 0 <= k < i ==> IsNameChar(s[k])
    {
      if !IsNameChar(s[i]) {
        return false;
      }
    }
    return true;
  }

  predicate ValidName(s: string) {
    0 < |s| <= 128 && forall k :: 0 <= k < |s| ==> IsNameChar(s[k])
  }

  function NameBytes(s: string): Bytes { seq(|s|, i requires 0 <= i < |s| => s[i] as nat) }

  /** What is hashed: the tool name, a NUL, the raw arguments. */
  function Preimage(tool: string, raw: Bytes): Bytes { NameBytes(tool) + [0] + raw }

  lemma NameHasNoNul(s: string, k: nat)
    requires ValidName(s) && k < |s|
    ensures NameBytes(s)[k] != 0
  {
    assert IsNameChar(s[k]);
  }

  lemma NameComesFirst(s: string, raw: Bytes, k: nat)
    requires k < |s|
    ensures Preimage(s, raw)[k] == s[k] as nat
  {
  }

  /** Byte by byte: the name, one zero, the arguments as they came. */
  lemma PreimageBytes(s: string, raw: Bytes, k: nat)
    requires k < |Preimage(s, raw)|
    ensures |Preimage(s, raw)| == |s| + 1 + |raw|
    ensures Preimage(s, raw)[k] ==
      if k < |s| then s[k] as nat else if k == |s| then 0 else raw[k - |s| - 1]
  {
  }

  /** Different calls are hashed from different bytes. */
  lemma PreimageInjective(t1: string, raw1: Bytes, t2: string, raw2: Bytes)
    requires ValidName(t1) && ValidName(t2)
    ensures Preimage(t1, raw1) == Preimage(t2, raw2) <==> t1 == t2 && raw1 == raw2
  {
    if Preimage(t1, raw1) == Preimage(t2, raw2) {
      var p := Preimage(t1, raw1);
      assert p[|t1|] == 0 && p[|t2|] == 0;
      assert |t1| == |t2| by {
        forall k | 0 <= k < |t1| ensures Preimage(t1, raw1)[k] != 0 { NameHasNoNul(t1, k); }
        forall k | 0 <= k < |t2| ensures Preimage(t2, raw2)[k] != 0 { NameHasNoNul(t2, k); }
      }
      forall k | 0 <= k < |t1| ensures t1[k] == t2[k] {
        NameComesFirst(t1, raw1, k);
        NameComesFirst(t2, raw2, k);
      }
      assert raw1 == p[|t1| + 1..] == raw2;
    }
  }

  /** The hash, which must not collide. */
  type Digest = Bytes
  type Hash = Bytes -> Digest

  ghost predicate CollisionFree(h: Hash) {
    forall a, b :: h(a) == h(b) ==> a == b
  }

  function ElicitationState(h: Hash, tool: string, raw: Bytes): Digest { h(Preimage(tool, raw)) }

  /** A state identifies the call it was made for. */
  lemma StateIdentifiesCall(h: Hash, t1: string, raw1: Bytes, t2: string, raw2: Bytes)
    requires CollisionFree(h) && ValidName(t1) && ValidName(t2)
    ensures ElicitationState(h, t1, raw1) == ElicitationState(h, t2, raw2) <==> t1 == t2 && raw1 == raw2
  {
    PreimageInjective(t1, raw1, t2, raw2);
  }

  // ----- the gate -----

  /** What a request carries under the confirmation's key. */
  datatype Response = NotElicit | Elicit(action: string)

  /** The parameters of a tools/call; clients reuse and mutate these between calls. */
  datatype CallParams = CallParams(tool: string, raw: Bytes, responses: map<string, Response>, requestState: Digest)

  datatype Reply = InputRequired(state: Digest) | Declined | Upstream

  const CONFIRM := "confirm"
  const ACCEPT := "accept"

  // ----- runs -----

  /** What happens in a run: the handler prompts for a call, the user answers a prompt (which the
      client identifies by its state), the handler forwards a call. */
  datatype Event =
    | Prompted(tool: string, raw: Bytes, state: Digest)
    | Answered(state: Digest, action: string)
    | Forwarded(tool: string, raw: Bytes)

  /** An honest client sends an accepting answer only with the state of the prompt the user
      accepted; it may send it with any call, any number of times. */
  ghost predicate Honest(p: CallParams, log: seq<Event>) {
    CONFIRM in p.responses && p.responses[CONFIRM] == Elicit(ACCEPT) ==> Answered(p.requestState, ACCEPT) in log
  }

  /** The user only answers prompts that were shown. */
  ghost predicate Shown(state: Digest, log: seq<Event>) {
    exists e :: e in log && e.Prompted? && e.state == state
  }

  /** The event at `i` was preceded by a prompt for this very call, and after it an accepting
      answer to that prompt. */
  ghost predicate Confirmed(h: Hash, log: seq<Event>, i: nat)
    requires i < |log| && log[i].Forwarded?
  {
    exists p, a :: 0 <= p < a < i
      && log[p] == Prompted(log[i].tool, log[i].raw, ElicitationState(h, log[i].tool, log[i].raw))
      && log[a] == Answered(ElicitationState(h, log[i].tool, log[i].raw), ACCEPT)
  }

  ghost predicate PromptsCarryTheirState(h: Hash, log: seq<Event>) {
    forall i :: 0 <= i < |log| && log[i].Prompted? ==>
      ValidName(log[i].tool) && log[i].state == ElicitationState(h, log[i].tool, log[i].raw)
  }

  ghost predicate AnswersFollowPrompts(log: seq<Event>) {
    forall i :: 0 <= i < |log| && log[i].Answered? ==>
      exists p :: 0 <= p < i && log[p].Prompted? && log[p].state == log[i].state
  }

  ghost predicate Safe(h: Hash, log: seq<Event>) {
    forall i :: 0 <= i < |log| && log[i].Forwarded? ==> Confirmed(h, log, i)
  }

  ghost predicate Inv(h: Hash, log: seq<Event>) {
    PromptsCarryTheirState(h, log) && AnswersFollowPrompts(log) && Safe(h, log)
  }

  /** What the gate decides. */
  function Decide(h: Hash, p: CallParams): Reply {
    var state := ElicitationState(h, p.tool, p.raw);
    if CONFIRM !in p.responses || p.requestState != state then InputRequired(state)
    else if p.responses[CONFIRM] != Elicit(ACCEPT) then Declined
    else Upstream
  }

  /** The gate is not too strict either: an accepting answer lets through the call it was asked
      for, and re-prompts for every other. */
  lemma AnswerFitsItsCall(h: Hash, asked: CallParams, answered: CallParams)
    requires CollisionFree(h) && ValidName(asked.tool) && ValidName(answered.tool)
    requires Decide(h, asked).InputRequired? && answered.requestState == Decide(h, asked).state
    requires CONFIRM in answered.responses && answered.responses[CONFIRM] == Elicit(ACCEPT)
    ensures Decide(h, answered) ==
      if answered.tool == asked.tool && answered.raw == asked.raw then Upstream
      else InputRequired(ElicitationState(h, answered.tool, answered.raw))
  {
    StateIdentifiesCall(h, asked.tool, asked.raw, answered.tool, answered.raw);
  }

  /** What the user makes of a prompt, as the handler reads it under the key "confirm": no answer, an
      acceptance, or a refusal of some kind, a response that is no elicitation included. */
  datatype Verdict = NoAnswer | Accepted | Refused

  function VerdictOf(p: CallParams): Verdict {
    if "confirm" !in p.responses then NoAnswer
    else
      match p.responses["confirm"]
      case Elicit(action) => if action == "accept" then Accepted else Refused
      case NotElicit => Refused
  }

  /** Every call, whatever it carries: an answer to the prompt for this very call decides it, for or
      against; any other call is prompted for, with its own state. A refusal leaves no trace. */
  lemma DecidesByAnswer(h: Hash, log: seq<Event>, asked: CallParams, p: CallParams)
    requires CollisionFree(h) && ValidName(asked.tool) && ValidName(p.tool)
    requires p.requestState == ElicitationState(h, asked.tool, asked.raw)
    ensures var same, state := p.tool == asked.tool && p.raw == asked.raw, ElicitationState(h, p.tool, p.raw);
      var after := Next(h, log, Call(p));
      if same && VerdictOf(p).Accepted? then Decide(h, p) == Upstream && after == log + [Forwarded(p.tool, p.raw)]
      else if same && VerdictOf(p).Refused? then Decide(h, p) == Declined && after == log
      else Decide(h, p) == InputRequired(state) && after == log + [Prompted(p.tool, p.raw, state)]
  {
    StateIdentifiesCall(h, asked.tool, asked.raw, p.tool, p.raw);
    assert log + [] == log;
  }

  /** A state that was made for no call prompts. */
  lemma UnknownStatePrompts(h: Hash, p: CallParams)
    requires p.requestState != ElicitationState(h, p.tool, p.raw)
    ensures Decide(h, p) == InputRequired(ElicitationState(h, p.tool, p.raw))
  {
  }

  function Record(p: CallParams, r: Reply): seq<Event> {
    match r
    case InputRequired(state) => [Prompted(p.tool, p.raw, state)]
    case Declined => []
    case Upstream => [Forwarded(p.tool, p.raw)]
  }

  /** One step of a run: some client's call reaches the handler, or the user answers a prompt. */
  datatype Action = Call(p: CallParams) | Answer(state: Digest, action: string)

  ghost predicate Enabled(log: seq<Event>, a: Action) {
    match a
    case Call(p) => ValidName(p.tool) && Honest(p, log)
    case Answer(state, _) => Shown(state, log)
  }

  function Next(h: Hash, log: seq<Event>, a: Action): seq<Event> {
    match a
    case Call(p) => log + Record(p, Decide(h, p))
    case Answer(state, action) => log + [Answered(state, action)]
  }

  /** A run from the empty log: any interleaving of calls and answers. */
  ghost predicate IsRun(h: Hash, actions: seq<Action>, log: seq<Event>)
    decreases |actions|
  {
    if actions == [] then log == []
    else
      var before := actions[..|actions| - 1];
      var last := actions[|actions| - 1];
      exists prev :: IsRun(h, before, prev) && Enabled(prev, last) && log == Next(h, prev, last)
  }

  /** Earlier events keep their confirmations as the log grows. */
  lemma AppendKeeps(h: Hash, log: seq<Event>, e: Event)
    requires Inv(h, log)
    requires e.Prompted? ==> ValidName(e.tool) && e.state == ElicitationState(h, e.tool, e.raw)
    requires e.Answered? ==> Shown(e.state, log)
    requires e.Forwarded? ==> Confirmed(h, log + [e], |log|)
    ensures Inv(h, log + [e])
  {
    var log' := log + [e];
    forall i | 0 <= i < |log'| && log'[i].Answered?
      ensures exists p :: 0 <= p < i && log'[p].Prompted? && log'[p].state == log'[i].state
    {
      if i < |log| {
        var p :| 0 <= p < i && log[p].Prompted? && log[p].state == log[i].state;
        assert log'[p] == log[p];
      } else {
        var shown :| shown in log && shown.Prompted? && shown.state == e.state;
        var p :| 0 <= p < |log| && log[p] == shown;
        assert log'[p] == shown;
      }
    }
    forall i | 0 <= i < |log'| && log'[i].Forwarded? ensures Confirmed(h, log', i) {
      if i < |log| {
        assert Confirmed(h, log, i);
        var p, a :| 0 <= p < a < i
          && log[p] == Prompted(log[i].tool, log[i].raw, ElicitationState(h, log[i].tool, log[i].raw))
          && log[a] == Answered(ElicitationState(h, log[i].tool, log[i].raw), ACCEPT);
        assert log'[p] == log[p] && log'[a] == log[a] && log'[i] == log[i];
      }
    }
  }

  /** A call the gate forwards was prompted for and accepted, whoever sends it. */
  lemma ForwardedIsConfirmed(h: Hash, log: seq<Event>, p: CallParams)
    requires CollisionFree(h) && Inv(h, log) && ValidName(p.tool) && Honest(p, log)
    requires Decide(h, p) == Upstream
    ensures Confirmed(h, log + [Forwarded(p.tool, p.raw)], |log|)
  {
    var state, log' := ElicitationState(h, p.tool, p.raw), log + [Forwarded(p.tool, p.raw)];
    assert Answered(state, ACCEPT) in log;
    var a :| 0 <= a < |log| && log[a] == Answered(state, ACCEPT);
    var q :| 0 <= q < a && log[q].Prompted? && log[q].state == log[a].state;
    StateIdentifiesCall(h, log[q].tool, log[q].raw, p.tool, p.raw);
    assert log'[q] == log[q] && log'[a] == log[a];
  }

  lemma NextKeepsInv(h: Hash, log: seq<Event>, act: Action)
    requires CollisionFree(h) && Inv(h, log) && Enabled(log, act)
    ensures Inv(h, Next(h, log, act))
  {
    match act
    case Call(p) =>
      match Decide(h, p) {
        case InputRequired(state) => AppendKeeps(h, log, Prompted(p.tool, p.raw, state));
        case Declined => assert log + [] == log;
        case Upstream =>
          ForwardedIsConfirmed(h, log, p);
          AppendKeeps(h, log, Forwarded(p.tool, p.raw));
      }
    case Answer(state, action) => AppendKeeps(h, log, Answered(state, action));
  }

  lemma {:induction false} RunsKeepInv(h: Hash, actions: seq<Action>, log: seq<Event>)
    requires CollisionFree(h) && IsRun(h, actions, log)
    ensures Inv(h, log)
    decreases |actions|
  {
    if actions != [] {
      var last := actions[|actions| - 1];
      var prev :| IsRun(h, actions[..|actions| - 1], prev) && Enabled(prev, last) && log == Next(h, prev, last);
      RunsKeepInv(h, actions[..|actions| - 1], prev);
      NextKeepsInv(h, prev, last);
    }
  }

  /** Over every run, each upstream call was prompted for with the same tool and the same bytes,
      and that prompt was accepted. */
  lemma ElicitationSafety(h: Hash, actions: seq<Action>, log: seq<Event>, i: nat)
    requires CollisionFree(h) && IsRun(h, actions, log) && i < |log| && log[i].Forwarded?
    ensures Confirmed(h, log, i)
  {
    RunsKeepInv(h, actions, log);
  }

  /** The generated handler, on the log of what it prompted for and forwarded. */
  class Handler {
    var log: seq<Event>

    constructor ()
      ensures log == []
    {
      log := [];
    }

    method HandleCall(h: Hash, p: CallParams) returns (reply: Reply)
      modifies this
      ensures reply == Decide(h, p)
      ensures log == Next(h, old(log), Call(p))
      ensures CollisionFree(h) && old(Inv(h, log)) && old(Enabled(log, Call(p))) ==> Inv(h, log)
    {
      ghost var was := log;
      var elicitState := ElicitationState(h, p.tool, p.raw);
      var answered := CONFIRM in p.responses;
      if !answered || p.requestState != elicitState {
        log := log + [Prompted(p.tool, p.raw, elicitState)];
        reply := InputRequired(elicitState);
      } else if p.responses[CONFIRM].NotElicit? || p.responses[CONFIRM].action != ACCEPT {
        reply := Declined;
        assert log == log + [];
      } else {
        log := log + [Forwarded(p.tool, p.raw)];
        reply := Upstream;
      }
      if CollisionFree(h) && Inv(h, was) && Enabled(was, Call(p)) { NextKeepsInv(h, was, Call(p)); }
    }
  }

  /** The gate is not a nonce: an honest client may repeat an accepted call, and it is forwarded
      again without another prompt. */
  lemma AcceptedCallRepeats(h: Hash, log: seq<Event>, p: CallParams)
    requires ValidName(p.tool) && Honest(p, log) && Decide(h, p) == Upstream
    ensures Enabled(Next(h, log, Call(p)), Call(p))
    ensures Next(h, Next(h, log, Call(p)), Call(p)) == log + [Forwarded(p.tool, p.raw), Forwarded(p.tool, p.raw)]
  {
  }
}
