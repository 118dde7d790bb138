/** The strict fake provider: a script of exchanges, a cursor, and a first violation that sticks. */
module FakeProvider {
  import opened Options
  import P = Provider

  const MAX_EXCHANGES := 64

  // A scripted outcome; an exchange built by hand may have none, or parts of both kinds.
  datatype OutcomeKind = NoOutcome | ResultOutcome | FailureOutcome

  datatype Exchange = Exchange(
    expected: P.Request,
    result: P.Result,
    failure: Option<P.Failure>,
    outcome: OutcomeKind)

  predicate ValidExchange(e: Exchange) {
    P.ValidRequest(e.expected)
    && match e.outcome
       case NoOutcome => false
       case ResultOutcome => e.failure.None? && P.ValidResult(e.result)
       case FailureOutcome =>
         e.result == P.ZERO_RESULT && e.failure.Some? && P.ValidFailure(e.failure.value)
  }

  /** `Exchange.validate` */
  method Validate(e: Exchange) returns (ok: bool)
    ensures ok <==> ValidExchange(e)
  {
    hide P.ValidRequest, P.ValidResult, P.ValidFailure;
    var requestError := P.Validate(e.expected);
    if requestError.Some? {
      return false;
    }
    match e.outcome
    case NoOutcome => return false;
    case ResultOutcome =>
      if e.failure.Some? {
        return false;
      }
      ok := P.ValidateResult(e.result);
    case FailureOutcome =>
      return e.result == P.ZERO_RESULT && e.failure.Some? && P.ValidFailure(e.failure.value);
  }

  /** An exchange is valid exactly when it expects a valid request and its one outcome is what an invoker may
      return, with nothing of the other outcome beside it. */
  lemma ExchangeExact(e: Exchange)
    ensures ValidExchange(e) <==>
      P.ValidRequest(e.expected)
      && ((e.outcome == ResultOutcome && e.failure.None? && P.ValidInvocation(None, e.result, P.NoError))
          || (e.outcome == FailureOutcome && e.failure.Some?
              && P.ValidInvocation(None, e.result, P.ProviderFailure(e.failure))))
  {
    hide P.ValidRequest, P.ValidResult, P.ValidFailure;
  }

  // Where two requests first differ, in the order the fake compares them.
  datatype Mismatch =
    | ConversationLength | MessageRole(index: nat) | MessageContent(index: nat)
    | InstructionsLength | InstructionSource(index: nat) | InstructionContent(index: nat)
    | CapabilitiesLength | CapabilityAt(index: nat)

  // The named place differs and everything compared before it agrees.
  ghost predicate DiffersAt(a: P.Request, b: P.Request, m: Mismatch) {
    match m
    case ConversationLength => |a.conversation| != |b.conversation|
    case MessageRole(i) => |a.conversation| == |b.conversation| && i < |a.conversation|
      && a.conversation[..i] == b.conversation[..i] && a.conversation[i].role != b.conversation[i].role
    case MessageContent(i) => |a.conversation| == |b.conversation| && i < |a.conversation|
      && a.conversation[..i] == b.conversation[..i] && a.conversation[i].role == b.conversation[i].role
      && a.conversation[i].content != b.conversation[i].content
    case InstructionsLength => a.conversation == b.conversation && |a.instructions| != |b.instructions|
    case InstructionSource(i) => a.conversation == b.conversation
      && |a.instructions| == |b.instructions| && i < |a.instructions|
      && a.instructions[..i] == b.instructions[..i] && a.instructions[i].source != b.instructions[i].source
    case InstructionContent(i) => a.conversation == b.conversation
      && |a.instructions| == |b.instructions| && i < |a.instructions|
      && a.instructions[..i] == b.instructions[..i] && a.instructions[i].source == b.instructions[i].source
      && a.instructions[i].content != b.instructions[i].content
    case CapabilitiesLength => a.conversation == b.conversation && a.instructions == b.instructions
      && |a.capabilities| != |b.capabilities|
    case CapabilityAt(i) =>
      a.conversation == b.conversation && a.instructions == b.instructions
      && |a.capabilities| == |b.capabilities| && i < |a.capabilities|
      && a.capabilities[..i] == b.capabilities[..i] && a.capabilities[i] != b.capabilities[i]
  }

  /** `firstRequestMismatch`: no mismatch exactly for equal requests, and otherwise the first. */
  method FirstRequestMismatch(expected: P.Request, actual: P.Request) returns (mismatch: Option<Mismatch>)
    ensures mismatch.None? <==> expected == actual
    ensures mismatch.Some? ==> DiffersAt(expected, actual, mismatch.value)
  {
    var a, b := expected.conversation, actual.conversation;
    if |a| != |b| {
      return Some(ConversationLength);
    }
    for i := 0 to |a|
      invariant a[..i] == b[..i]
    {
      if a[i].role != b[i].role {
        return Some(MessageRole(i));
      }
      if a[i].content != b[i].content {
        return Some(MessageContent(i));
      }
    }
    assert a == a[..|a|] == b[..|b|] == b;
    var c, d := expected.instructions, actual.instructions;
    if |c| != |d| {
      return Some(InstructionsLength);
    }
    for i := 0 to |c|
      invariant c[..i] == d[..i]
    {
      if c[i].source != d[i].source {
        return Some(InstructionSource(i));
      }
      if c[i].content != d[i].content {
        return Some(InstructionContent(i));
      }
    }
    assert c == c[..|c|] == d[..|d|] == d;
    var e, f := expected.capabilities, actual.capabilities;
    if |e| != |f| {
      return Some(CapabilitiesLength);
    }
    for i := 0 to |e|
      invariant e[..i] == f[..i]
    {
      if e[i] != f[i] {
        return Some(CapabilityAt(i));
      }
    }
    assert e == e[..|e|] == f[..|f|] == f;
    return None;
  }

  // The first interaction error of a test.
  datatype Violation =
    | ContextMissing
    | Unexpected(number: nat)
    | Differs(number: nat, mismatch: Mismatch)

  // One call: a request with or without a context. Its reply, or the panic it recovers from.
  datatype Call = Call(hasContext: bool, request: P.Request)
  datatype Reply = Returned(result: P.Result, failure: Option<P.Failure>) | Panicked(violation: Violation)

  datatype State = State(exchanges: seq<Exchange>, next: nat, violation: Option<Violation>)

  // A mismatch report is not a function of the requests here, only constrained to be the first.
  ghost predicate Step(s: State, call: Call, s': State, reply: Reply)
    requires s.next <= |s.exchanges|
  {
    if s.violation.Some? then s' == s && reply == Panicked(s.violation.value)
    else if !call.hasContext then Fails(s, s', reply) && s'.violation == Some(ContextMissing)
    else if s.next == |s.exchanges| then Fails(s, s', reply) && s'.violation == Some(Unexpected(s.next + 1))
    else if s.exchanges[s.next].expected != call.request then
      Fails(s, s', reply) && s'.violation.value.Differs? && s'.violation.value.number == s.next + 1
      && DiffersAt(s.exchanges[s.next].expected, call.request, s'.violation.value.mismatch)
    else s' == s.(next := s.next + 1) && reply == Scripted(s.exchanges[s.next])
  }

  ghost predicate Fails(s: State, s': State, reply: Reply) {
    s'.exchanges == s.exchanges && s'.next == s.next && s'.violation.Some?
    && reply == Panicked(s'.violation.value)
  }

  function Scripted(e: Exchange): Reply {
    if e.outcome == ResultOutcome then Returned(e.result, None) else Returned(P.ZERO_RESULT, e.failure)
  }

  // `VerifyComplete`: nothing to report.
  predicate Complete(s: State) { s.violation.None? && s.next >= |s.exchanges| }

  class Provider {
    const exchanges: seq<Exchange>
    var next: nat
    var violation: Option<Violation>

    ghost function Now(): State
      reads this
    {
      State(exchanges, next, violation)
    }

    ghost predicate Valid()
      reads this
    {
      next <= |exchanges|
    }

    constructor (exchanges: seq<Exchange>)
      ensures Valid() && Now() == State(exchanges, 0, None)
    {
      this.exchanges := exchanges;
      next, violation := 0, None;
    }

    // `fail`: record the first violation; the caller then panics with whatever is recorded.
    method Fail(diagnostic: Violation) returns (reply: Reply)
      requires violation.None? || violation == Some(diagnostic)
      modifies this`violation
      ensures violation == Some(diagnostic) && reply == Panicked(diagnostic)
    {
      if violation.None? {
        violation := Some(diagnostic);
      }
      reply := Panicked(violation.value);
    }

    /** `Invoke`, with the panic of a violation returned to the test that recovers it. */
    method Invoke(call: Call) returns (reply: Reply)
      requires Valid()
      modifies this`next, this`violation
      ensures Valid() && Step(old(Now()), call, Now(), reply)
    {
      if violation.Some? {
        return Panicked(violation.value);
      }
      if !call.hasContext {
        reply := Fail(ContextMissing);
        return;
      }
      if next >= |exchanges| {
        reply := Fail(Unexpected(next + 1));
        return;
      }
      var exchange := exchanges[next];
      var mismatch := FirstRequestMismatch(exchange.expected, call.request);
      if mismatch.Some? {
        reply := Fail(Differs(next + 1, mismatch.value));
        return;
      }
      next := next + 1;
      if exchange.outcome == ResultOutcome {
        return Returned(exchange.result, None);
      }
      return Returned(P.ZERO_RESULT, exchange.failure);
    }

    method VerifyComplete() returns (ok: bool)
      ensures ok <==> Complete(Now())
    {
      return violation.None? && next >= |exchanges|;
    }
  }

  /** `New`: scripts of bounded length whose every exchange is valid. */
  method New(exchanges: seq<Exchange>) returns (fake: Option<Provider>)
    ensures fake.Some? <==>
      |exchanges| <= 64 && forall i :: 0 <= i < |exchanges| ==> ValidExchange(exchanges[i])
    ensures fake.Some? ==> fresh(fake.value) && fake.value.Valid() && fake.value.Now() == State(exchanges, 0, None)
  {
    hide ValidExchange;
    if |exchanges| > MAX_EXCHANGES {
      return None;
    }
    for i := 0 to |exchanges|
      invariant forall j :: 0 <= j < i ==> ValidExchange(exchanges[j])
    {
      var ok := Validate(exchanges[i]);
      if !ok {
        return None;
      }
    }
    var provider := new Provider(exchanges);
    return Some(provider);
  }

  // ---- every run ----

  // A run: the states before and after each call, from a fresh provider.
  ghost predicate IsRun(exchanges: seq<Exchange>, calls: seq<Call>, states: seq<State>, replies: seq<Reply>) {
    |states| == |calls| + 1 && |replies| == |calls|
    && states[0] == State(exchanges, 0, None)
    && forall i :: 0 <= i < |calls| ==>
         states[i].next <= |states[i].exchanges| && Step(states[i], calls[i], states[i + 1], replies[i])
  }

  // The first k calls follow the script.
  ghost predicate Matches(exchanges: seq<Exchange>, calls: seq<Call>, k: nat)
    requires k <= |calls|
  {
    k <= |exchanges| && forall i :: 0 <= i < k ==> calls[i] == Call(true, exchanges[i].expected)
  }

  // A reply is the exchange's own result, or its own failure beside a zero result.
  predicate Replayed(e: Exchange, reply: Reply) {
    match e.outcome
    case ResultOutcome => reply == Returned(e.result, None)
    case _ => reply == Returned(P.Result([], P.Usage(0, 0), false), e.failure)
  }

  /** After any k calls: either all of them matched, the cursor is k, and the replies are the first k
      scripted outcomes; or some violation is recorded. */
  lemma {:induction false} RunPrefix(exchanges: seq<Exchange>, calls: seq<Call>, states: seq<State>,
                                     replies: seq<Reply>, k: nat)
    requires IsRun(exchanges, calls, states, replies) && k <= |calls|
    ensures states[k].exchanges == exchanges
    ensures states[k].violation.None? <==> Matches(exchanges, calls, k)
    ensures states[k].violation.None? ==>
      states[k].next == k && forall i :: 0 <= i < k ==> Replayed(exchanges[i], replies[i])
  {
    if k > 0 {
      RunPrefix(exchanges, calls, states, replies, k - 1);
      assert Step(states[k - 1], calls[k - 1], states[k], replies[k - 1]);
      StepFollows(states[k - 1], calls[k - 1], states[k], replies[k - 1]);
      hide Step, Replayed;
    }
  }

  // One call keeps to the script or leaves it.
  lemma StepFollows(s: State, call: Call, s': State, reply: Reply)
    requires s.next <= |s.exchanges| && Step(s, call, s', reply)
    ensures s'.exchanges == s.exchanges
    ensures s.violation.Some? ==> s'.violation.Some?
    ensures s.violation.None? ==>
      (s'.violation.None? <==> s.next < |s.exchanges| && call == Call(true, s.exchanges[s.next].expected))
    ensures s'.violation.None? ==> s'.next == s.next + 1 && Replayed(s.exchanges[s.next], reply)
  {
    hide DiffersAt;
  }

  /** The run verifies complete exactly when the calls are the script's requests, in order and
      number, each with a context. */
  lemma {:induction false} CompleteExact(exchanges: seq<Exchange>, calls: seq<Call>, states: seq<State>,
                                         replies: seq<Reply>)
    requires IsRun(exchanges, calls, states, replies)
    ensures Complete(states[|calls|]) <==>
      |calls| == |exchanges| && forall i :: 0 <= i < |calls| ==> calls[i] == Call(true, exchanges[i].expected)
  {
    RunPrefix(exchanges, calls, states, replies, |calls|);
  }

  /** The first call that leaves the script is recorded as what it is: without a context, past the end, or
      different at the first differing place, under its number in the run. */
  lemma {:induction false} FirstViolation(exchanges: seq<Exchange>, calls: seq<Call>, states: seq<State>,
                                          replies: seq<Reply>, k: nat)
    requires IsRun(exchanges, calls, states, replies) && k < |calls|
    requires Matches(exchanges, calls, k) && !Matches(exchanges, calls, k + 1)
    ensures states[k + 1].violation.Some? && replies[k] == Panicked(states[k + 1].violation.value)
    ensures match states[k + 1].violation.value
      case ContextMissing => !calls[k].hasContext
      case Unexpected(number) => calls[k].hasContext && k == |exchanges| && number == k + 1
      case Differs(number, mismatch) =>
        calls[k].hasContext && k < |exchanges| && number == k + 1
        && DiffersAt(exchanges[k].expected, calls[k].request, mismatch)
  {
    RunPrefix(exchanges, calls, states, replies, k);
    RunPrefix(exchanges, calls, states, replies, k + 1);
    assert Step(states[k], calls[k], states[k + 1], replies[k]);
    hide DiffersAt;
  }

  /** The first violation never changes, and every later call panics with it. */
  lemma {:induction false} ViolationSticks(exchanges: seq<Exchange>, calls: seq<Call>, states: seq<State>,
                                           replies: seq<Reply>, i: nat, j: nat)
    requires IsRun(exchanges, calls, states, replies) && i <= j <= |calls|
    requires states[i].violation.Some?
    ensures states[j] == states[i]
    ensures j < |calls| ==> replies[j] == Panicked(states[i].violation.value)
  {
    if i < j {
      ViolationSticks(exchanges, calls, states, replies, i, j - 1);
      assert Step(states[j - 1], calls[j - 1], states[j], replies[j - 1]);
    }
    if j < |calls| {
      assert Step(states[j], calls[j], states[j + 1], replies[j]);
    }
    hide DiffersAt;
  }

  /** Whatever a valid script returns satisfies the provider boundary for any context. */
  lemma ScriptedValid(e: Exchange, context: Option<P.Termination>)
    requires ValidExchange(e)
    ensures Scripted(e).Returned?
    ensures P.ValidInvocation(context, Scripted(e).result,
              if Scripted(e).failure.None? then P.NoError else P.ProviderFailure(Scripted(e).failure))
  {
    hide P.ValidRequest;
  }
}
