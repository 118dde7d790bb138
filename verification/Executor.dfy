/** `Execute`: admission of one body and at most one provider invocation. */
module Executor {
  import opened Json
  import opened Options
  import opened Outcomes
  import opened Utf8
  import B = BodyReader
  import D = WireDocument
  import P = Provider
  import S = SurrogateScan
  import T = TokenWalk
  import W = WireRequest

  // The lexer inside `json.Decoder`: the token stream of a document's bytes.
  type Lexer = seq<Byte> -> T.Stream

  /** A caller context: once ended it stays ended. */
  class Context {
    var ended: Option<P.Termination>

    constructor (ended: Option<P.Termination>)
      ensures this.ended == ended
    {
      this.ended := ended;
    }
  }

  datatype Answer = Answer(result: P.Result, error: P.InvokeError, ended: Option<P.Termination>)

  // The answer to a numbered call with a request, given how the caller context stands.
  type Behaviour = (nat, P.Request, Option<P.Termination>) -> Answer

  // A context that has ended keeps its first end; otherwise it may end during the call.
  function Ended(before: Option<P.Termination>, answer: Answer): Option<P.Termination> {
    if before.Some? then before else answer.ended
  }

  /** Any invoker: its answer may depend on the call number, the request and the context, and the
      context may end while it works. */
  class Invoker {
    const behaviour: Behaviour
    ghost var log: seq<P.Request>
    var calls: nat

    constructor (behaviour: Behaviour)
      ensures this.behaviour == behaviour && log == [] && calls == 0
    {
      this.behaviour := behaviour;
      log, calls := [], 0;
    }

    method Invoke(context: Context, request: P.Request) returns (result: P.Result, error: P.InvokeError)
      modifies this, context
      ensures log == old(log) + [request] && calls == old(calls) + 1
      ensures var answer := behaviour(old(calls), request, old(context.ended));
        result == answer.result && error == answer.error
        && context.ended == Ended(old(context.ended), answer)
    {
      var answer := behaviour(calls, request, context.ended);
      log, calls := log + [request], calls + 1;
      context.ended := Ended(context.ended, answer);
      return answer.result, answer.error;
    }
  }

  // ---- the decision, as a function of the bytes ----

  // UTF-8, paired surrogate escapes, and one strict tree of tokens.
  predicate StrictDocument(raw: seq<Byte>, lexer: Lexer) {
    Decode(raw).Some? && S.Scan(raw, false) && T.ParseDocument(lexer(raw)).Some?
  }

  function Document(raw: seq<Byte>, lexer: Lexer): Json
    requires StrictDocument(raw, lexer)
  {
    T.ParseDocument(lexer(raw)).value
  }

  // A lexer that reaches the clean end of valid UTF-8 only over well-formed string tokens.
  ghost predicate LexesStrings(lexer: Lexer) {
    forall raw: seq<Byte> :: Decode(raw).Some? && lexer(raw).cleanEnd ==> S.Lex(raw).Some?
  }

  // Every string token decodes to Unicode scalars only.
  ghost predicate ScalarStrings(raw: seq<Byte>) {
    S.Lex(raw).Some? && S.ValidPieces(S.Lex(raw).value) && S.StringsScalar(S.Lex(raw).value)
  }

  /** Strict documents, stated without the three checks: UTF-8 text whose strings unescape to scalars,
      lexing cleanly to the tokens of one tree with bounded nesting and distinct names. */
  lemma {:induction false} StrictExact(raw: seq<Byte>, lexer: Lexer, v: Json)
    requires LexesStrings(lexer)
    ensures StrictDocument(raw, lexer) && Document(raw, lexer) == v <==>
      (exists text :: raw == Encode(text)) && lexer(raw) == T.Stream(T.Flatten(v), true) && T.Strict(v)
      && ScalarStrings(raw)
  {
    hide Encode, Decode, S.Scan, S.Lex, T.ParseDocument, T.Flatten, T.Strict, S.StringsScalar;
    ValidExact(raw);
    T.DocumentExact(lexer(raw), v);
    if S.Lex(raw).Some? {
      S.LexedExact(raw);
    }
  }

  datatype Admission =
    | Uncorrelated
    | Invalid(requestID: seq<Byte>)
    | Unsupported(requestID: seq<Byte>)
    | Dispatch(wire: W.Wire)

  function Admit(raw: seq<Byte>, lexer: Lexer): Admission {
    if !StrictDocument(raw, lexer) || !Document(raw, lexer).JObj? then Uncorrelated
    else
      var root := Document(raw, lexer).members;
      match W.SafeRequestID(root)
      case None => Uncorrelated
      case Some(id) =>
        if !W.Admissible(root) then Invalid(id)
        else if W.WireOf(root).requiredCapabilities != [] then Unsupported(id)
        else if W.WireOf(root).modelAlias != Encode(W.SUPPORTED_ALIAS) then Invalid(id)
        else Dispatch(W.WireOf(root))
  }

  function AdmitBody(read: B.Result, lexer: Lexer): Admission {
    if read.Body? then Admit(read.bytes, lexer) else Uncorrelated
  }

  function ProviderRequest(wire: W.Wire): P.Request {
    P.Request(wire.conversation, wire.instructions, [])
  }

  /** A dispatched request is one the provider boundary accepts, so mapping it cannot fail. */
  lemma {:induction false} DispatchMaps(raw: seq<Byte>, lexer: Lexer)
    requires Admit(raw, lexer).Dispatch?
    ensures W.Mappable(Admit(raw, lexer).wire) && P.ValidRequest(ProviderRequest(Admit(raw, lexer).wire))
  {
    hide W.Admissible, W.WireOf, W.Mappable, StrictDocument, Encode;
    W.DecodedMaps(Document(raw, lexer).members);
    MappableValid(Admit(raw, lexer).wire);
  }

  lemma MappableValid(wire: W.Wire)
    requires W.Mappable(wire)
    ensures P.ValidRequest(ProviderRequest(wire))
  {
    hide P.ValidRequest;
  }

  // ---- the decision, stated from the document ----

  // The body read is a strict document with this object at its root.
  ghost predicate RootIs(read: B.Result, lexer: Lexer, root: seq<Member>) {
    read.Body? && StrictDocument(read.bytes, lexer) && Document(read.bytes, lexer) == JObj(root)
  }

  // The document can be answered under this identifier.
  ghost predicate Correlated(read: B.Result, lexer: Lexer, root: seq<Member>, id: string) {
    RootIs(read, lexer, root) && Lookup(root, "request_id") == Some(JStr(id)) && W.Identifier(Encode(id))
  }

  ghost predicate Decodes(root: seq<Member>) { exists wire :: D.Requests(root, wire) }

  predicate RequiresNothing(root: seq<Member>) { Lookup(root, "required_capabilities") == Some(JArr([])) }

  predicate NamesLearningText(root: seq<Member>) { Lookup(root, "model_alias") == Some(JStr("learning-text")) }

  /** A body is answered without an identifier exactly when it is no strict object that carries one. */
  lemma {:induction false} UncorrelatedExact(read: B.Result, lexer: Lexer)
    ensures AdmitBody(read, lexer) == Uncorrelated <==> forall root, id :: !Correlated(read, lexer, root, id)
  {
    hide W.Admissible, W.WireOf, StrictDocument, Encode, W.Identifier;
    if read.Body? && StrictDocument(read.bytes, lexer) && Document(read.bytes, lexer).JObj? {
      var root := Document(read.bytes, lexer).members;
      if W.SafeRequestID(root).Some? {
        assert Correlated(read, lexer, root, Lookup(root, "request_id").value.text);
      }
    }
  }

  /** A strict object with an identifier is dispatched if it decodes, requires nothing and names the one
      supported alias; refused for its capability if it decodes and requires one; and otherwise invalid. */
  lemma {:induction false} CorrelatedExact(read: B.Result, lexer: Lexer, root: seq<Member>, id: string)
    requires Correlated(read, lexer, root, id)
    ensures AdmitBody(read, lexer) == Unsupported(Encode(id)) <==> Decodes(root) && !RequiresNothing(root)
    ensures AdmitBody(read, lexer) == Invalid(Encode(id)) <==>
      !Decodes(root) || (RequiresNothing(root) && !NamesLearningText(root))
    ensures AdmitBody(read, lexer).Dispatch? <==> Decodes(root) && RequiresNothing(root) && NamesLearningText(root)
    ensures AdmitBody(read, lexer).Dispatch? ==> D.Requests(root, AdmitBody(read, lexer).wire)
  {
    DecodesExact(root);
    hide W.Admissible, W.WireOf, StrictDocument, Encode, W.Identifier, D.Requests, Decodes, NamesLearningText;
  }

  // Decoding, and the two members the pipeline looks at next.
  lemma DecodesExact(root: seq<Member>)
    ensures Decodes(root) <==> W.Admissible(root)
    ensures W.Admissible(root) ==>
      D.Requests(root, W.WireOf(root))
      && (W.WireOf(root).requiredCapabilities == [] <==> RequiresNothing(root))
      && (W.WireOf(root).modelAlias == Encode(W.SUPPORTED_ALIAS) <==> NamesLearningText(root))
  {
    hide W.Admissible, W.WireOf, Encode, D.WithinLimits;
    if wire :| D.Requests(root, wire) {
      D.DecodeExact(root, wire);
    }
    if W.Admissible(root) {
      var wire := W.WireOf(root);
      D.DecodeExact(root, wire);
      SpelledCapabilities(root, wire);
      SpelledAlias(root, wire);
    }
  }

  lemma SpelledCapabilities(root: seq<Member>, wire: W.Wire)
    requires D.Spells(root, wire)
    ensures wire.requiredCapabilities == [] <==> RequiresNothing(root)
  {
    hide Encode;
  }

  lemma SpelledAlias(root: seq<Member>, wire: W.Wire)
    requires D.Spells(root, wire)
    ensures wire.modelAlias == Encode(W.SUPPORTED_ALIAS) <==> NamesLearningText(root)
  {
    hide Encode;
    assert D.Says(root, "model_alias", wire.modelAlias);
    var alias := Lookup(root, "model_alias").value.text;
    if Encode(alias) == Encode("learning-text") {
      EncodeInjective(alias, "learning-text");
    }
  }

  /** Every correlated outcome carries an identifier the rule admits. */
  lemma {:induction false} AdmittedIdentifier(raw: seq<Byte>, lexer: Lexer)
    ensures match Admit(raw, lexer)
      case Uncorrelated => true
      case Invalid(id) => W.Identifier(id)
      case Unsupported(id) => W.Identifier(id)
      case Dispatch(wire) => W.Identifier(wire.requestID)
  {
    hide W.Admissible, W.WireOf, StrictDocument, Encode, W.Identifier;
    if StrictDocument(raw, lexer) && Document(raw, lexer).JObj? && W.Admissible(Document(raw, lexer).members) {
      W.SafeRequestIDDecoded(Document(raw, lexer).members);
    }
  }

  // ---- the pipeline ----

  /** `validateStrictDocument` */
  method ValidateStrictDocument(raw: seq<Byte>, lexer: Lexer) returns (ok: bool)
    ensures ok <==> StrictDocument(raw, lexer)
  {
    ok := Valid(raw);
    ValidExact(raw);
    if !ok {
      return;
    }
    ghost var visits;
    ok, visits := S.HasValidSurrogateEscapes(raw);
    if !ok {
      return;
    }
    ok := T.WalkDocument(lexer(raw));
  }

  // What execution leaves behind: its outcome, the requests it invoked with, and how the caller
  // context stands.
  datatype Execution = Execution(outcome: Outcome, requests: seq<P.Request>, ended: Option<P.Termination>)

  // One invocation. Its answer is judged by the context as the caller and the invoker left it.
  function Invoked(wire: W.Wire, behaviour: Behaviour, calls: nat, before: Option<P.Termination>): Execution {
    var answer := behaviour(calls, ProviderRequest(wire), before);
    var ended := Ended(before, answer);
    var outcome := if P.ValidInvocation(ended, answer.result, answer.error)
      then NewProviderOutcome(wire.requestID, answer.result, answer.error)
      else NewInternalFailure(wire.requestID);
    Execution(outcome, [ProviderRequest(wire)], ended)
  }

  // What must become of a body, read as it was, before an invoker.
  function Executed(read: B.Result, lexer: Lexer, behaviour: Behaviour, calls: nat, before: Option<P.Termination>):
      Execution
  {
    match AdmitBody(read, lexer)
    case Uncorrelated => Execution(NewUncorrelatedFailure(), [], before)
    case Invalid(id) => Execution(NewInvalidRequestFailure(id), [], before)
    case Unsupported(id) => Execution(NewUnsupportedCapabilityFailure(id), [], before)
    case Dispatch(wire) => Invoked(wire, behaviour, calls, before)
  }

  // The body is a strict document that says this request, requires nothing and names the one supported alias.
  ghost predicate Asks(read: B.Result, lexer: Lexer, root: seq<Member>, wire: W.Wire) {
    RootIs(read, lexer, root) && D.Requests(root, wire) && RequiresNothing(root) && NamesLearningText(root)
  }

  /** The invoker is asked once, with what the body says, for exactly the bodies that ask; no other body
      reaches it. */
  lemma {:induction false} InvokedExact(read: B.Result, lexer: Lexer, behaviour: Behaviour, calls: nat,
                                        before: Option<P.Termination>, root: seq<Member>, wire: W.Wire)
    ensures var requests := Executed(read, lexer, behaviour, calls, before).requests;
      (Asks(read, lexer, root, wire) ==> requests == [P.Request(wire.conversation, wire.instructions, [])])
      && ((forall r, w :: !Asks(read, lexer, r, w)) ==> requests == [])
  {
    hide Asks, AdmitBody, P.ValidInvocation;
    if Asks(read, lexer, root, wire) {
      AskedDispatch(read, lexer, root, wire);
    }
    if AdmitBody(read, lexer).Dispatch? {
      var asked := DispatchAsked(read, lexer);
      assert Asks(read, lexer, asked, AdmitBody(read, lexer).wire);
    }
  }

  lemma AskedDispatch(read: B.Result, lexer: Lexer, root: seq<Member>, wire: W.Wire)
    requires Asks(read, lexer, root, wire)
    ensures AdmitBody(read, lexer) == Dispatch(wire)
  {
    hide W.Admissible, W.WireOf, StrictDocument, Encode, D.WithinLimits;
    D.DecodeExact(root, wire);
    DecodesExact(root);
    W.SafeRequestIDDecoded(root);
  }

  lemma DispatchAsked(read: B.Result, lexer: Lexer) returns (root: seq<Member>)
    requires AdmitBody(read, lexer).Dispatch?
    ensures Asks(read, lexer, root, AdmitBody(read, lexer).wire)
  {
    hide W.Admissible, W.WireOf, StrictDocument, Encode, D.Requests;
    root := Document(read.bytes, lexer).members;
    DecodesExact(root);
  }

  /** An invoker cannot end the caller context by reporting that it ended: a termination is passed on
      only if the context stands ended by it, having ended before the call or else as the call ended it. */
  lemma ReportedTerminationReal(read: B.Result, lexer: Lexer, behaviour: Behaviour, calls: nat,
                                before: Option<P.Termination>)
    ensures var e := Executed(read, lexer, behaviour, calls, before);
      e.outcome.kind == ProviderKind && e.outcome.providerError.ContextEnded? ==>
        e.requests != [] &&
        e.ended == Some(e.outcome.providerError.termination)
    ensures var e := Executed(read, lexer, behaviour, calls, before);
      (before.Some? || e.requests == [] ==> e.ended == before)
      && (before.None? && e.requests != [] ==> e.ended == behaviour(calls, e.requests[0], before).ended)
  {
    hide Admit;
  }

  // The invoker was asked these requests and no others, and the context stands as told.
  twostate predicate Leaves(context: Context, invoker: Invoker, e: Execution)
    reads context, invoker
  {
    invoker.log == old(invoker.log) + e.requests && invoker.calls == old(invoker.calls) + |e.requests|
    && context.ended == e.ended
  }

  /** `executeAdmitted`: one invocation when the request maps, none otherwise. */
  method ExecuteAdmitted(context: Context, invoker: Invoker, wire: W.Wire) returns (outcome: Outcome)
    modifies context, invoker
    ensures var e := if W.Mappable(wire)
        then Invoked(wire, invoker.behaviour, old(invoker.calls), old(context.ended))
        else Execution(NewInternalFailure(wire.requestID), [], old(context.ended));
      outcome == e.outcome && Leaves(context, invoker, e)
  {
    hide W.Mappable, P.ValidInvocation;
    var request := W.MapProviderRequest(wire);
    if request.None? {
      return NewInternalFailure(wire.requestID);
    }
    var result, error := invoker.Invoke(context, request.value);
    var valid := P.ValidateInvocation(P.CallerContext(context.ended), result, error);
    if !valid {
      return NewInternalFailure(wire.requestID);
    }
    return NewProviderOutcome(wire.requestID, result, error);
  }

  /** `Execute`: the body is drained once, and outcome, invocations and context are what this body,
      this invoker and this context make of it. */
  method Execute(context: Context?, body: B.Reader?, invoker: Invoker, lexer: Lexer)
    returns (outcome: Option<Outcome>)
    modifies context, body, invoker
    ensures outcome.None? <==> context == null || body == null
    ensures outcome.None? ==> unchanged(invoker)
    ensures outcome.None? && context != null ==> unchanged(context)
    ensures outcome.None? && body != null ==> unchanged(body)
    ensures outcome.Some? ==>
      var (read, calls) := B.Read(body.behaviour, old(body.calls));
      var e := Executed(read, lexer, invoker.behaviour, old(invoker.calls), old(context.ended));
      body.calls == calls && outcome == Some(e.outcome) && Leaves(context, invoker, e)
  {
    hide StrictDocument, W.Admissible, W.WireOf, W.SafeRequestID, Encode, B.Read, Invoked;
    if context == null || body == null {
      return None;
    }
    var raw, copied, capacity := B.ReadRequestBody(body);
    if !raw.Body? {
      return Some(NewUncorrelatedFailure());
    }
    var strict := ValidateStrictDocument(raw.bytes, lexer);
    if !strict || !Document(raw.bytes, lexer).JObj? {
      return Some(NewUncorrelatedFailure());
    }
    var root := Document(raw.bytes, lexer).members;
    var requestID := W.SafeRequestID(root);
    if requestID.None? {
      return Some(NewUncorrelatedFailure());
    }
    var wire := W.DecodeWireRequest(root);
    if wire.None? {
      return Some(NewInvalidRequestFailure(requestID.value));
    }
    if wire.value.requiredCapabilities != [] {
      return Some(NewUnsupportedCapabilityFailure(requestID.value));
    }
    if wire.value.modelAlias != Encode(W.SUPPORTED_ALIAS) {
      return Some(NewInvalidRequestFailure(requestID.value));
    }
    DispatchMaps(raw.bytes, lexer);
    var concluded := ExecuteAdmitted(context, invoker, wire.value);
    return Some(concluded);
  }
}
