/** `prepareOutcome`: how every outcome is presented over HTTP, or aborts. */
module Presentation {
  import opened Options
  import opened Outcomes
  import opened Utf8
  import B = BodyReader
  import E = Executor
  import Json
  import JsonText
  import P = Provider
  import W = WireRequest

  datatype MediaType = PlainMedia | JsonMedia

  // Response documents before marshalling; their fields are the fields of the wire shapes.
  datatype Body =
    | Raw(bytes: seq<Byte>)
    | Completed(requestID: seq<Byte>, outputText: seq<Byte>, usage: Option<P.Usage>)
    | Failed(requestID: seq<Byte>, code: P.FailureCode, message: string, retryable: bool, usage: Option<P.Usage>)

  datatype Response = Response(status: int, media: MediaType, body: Body) | Abort

  const INTERNAL_BODY := "internal server error\n"

  function InternalResponse(): Response { Response(500, PlainMedia, Raw(Encode(INTERNAL_BODY))) }

  // `admissionFailureStatus`
  function AdmissionFailureStatus(code: string): Option<int> {
    if code == INVALID_REQUEST then Some(400)
    else if code == UNSUPPORTED_CAPABILITY then Some(422)
    else if code == INTERNAL_ERROR then Some(500)
    else None
  }

  const AUTHENTICATION_MESSAGE := "FastGate could not " + "authenticate to the upstream."
  const RATE_MESSAGE := "The upstream rate limit was reached."
  const REJECTED_MESSAGE := "The upstream rejected the request."
  const UNAVAILABLE_MESSAGE := "The upstream is unavailable."
  const RESPONSE_MESSAGE := "The upstream returned an invalid response."
  const OUTPUT_MESSAGE := "The upstream returned output " + "that model-turn v1 does not support."

  // `providerFailurePresentation`
  function ProviderFailurePresentation(code: P.FailureCode): Option<(int, string)> {
    match code
    case AuthenticationFailed => Some((502, AUTHENTICATION_MESSAGE))
    case RateLimited => Some((429, RATE_MESSAGE))
    case RequestRejected => Some((422, REJECTED_MESSAGE))
    case Unavailable => Some((503, UNAVAILABLE_MESSAGE))
    case InvalidResponse => Some((502, RESPONSE_MESSAGE))
    case UnsupportedUpstreamOutput => Some((502, OUTPUT_MESSAGE))
    case Internal => Some((500, INTERNAL_ERROR_MESSAGE))
    case OtherCode(_) => None
  }

  // `prepareUsage`
  function PrepareUsage(usage: P.Usage, present: bool): Option<P.Usage> {
    if present then Some(usage) else None
  }

  // `prepareProviderOutcome`
  function PrepareProviderOutcome(requestID: seq<Byte>, result: P.Result, error: P.InvokeError): Response {
    match error
    case NoError =>
      Response(200, JsonMedia,
               Completed(requestID, result.outputText, PrepareUsage(result.usage, result.hasUsage)))
    case ContextEnded(_) => Abort
    case ProviderFailure(Some(f)) =>
      (match ProviderFailurePresentation(f.code)
       case None => InternalResponse()
       case Some((status, message)) =>
         Response(status, JsonMedia,
                  Failed(requestID, f.code, message, f.retryable, PrepareUsage(f.usage, f.hasUsage))))
    case ProviderFailure(None) => InternalResponse()
    case ForeignError => InternalResponse()
  }

  // `prepareOutcome`; None is the ordinary error of Execute
  function PrepareOutcome(outcome: Option<Outcome>): Response {
    if outcome.None? then InternalResponse() else
    var o := outcome.value;
    var (id, body, code, alternative) := (RequestID(o), FailureBody(o), FailureCode(o), ProviderOutcome(o));
    if body.Some? && id.None? && code.None? && alternative.None? then
      Response(400, PlainMedia, Raw(body.value))
    else if body.Some? && id.Some? && code.Some? && alternative.None? then
      (match AdmissionFailureStatus(code.value)
       case None => InternalResponse()
       case Some(status) =>
         if id.value == [] then InternalResponse() else Response(status, JsonMedia, Raw(body.value)))
    else if body.None? && id.Some? && code.None? && alternative.Some? then
      (if id.value == [] then InternalResponse()
       else PrepareProviderOutcome(id.value, alternative.value.0, alternative.value.1))
    else InternalResponse()
  }

  // ---- what the presentation is meant to be ----

  // Outcomes that Execute can produce, given how the caller context ended.
  ghost predicate Producible(o: Outcome, ended: Option<P.Termination>) {
    o == NewUncorrelatedFailure()
    || (W.Identifier(o.requestID) &&
        (o == NewInvalidRequestFailure(o.requestID)
         || o == NewUnsupportedCapabilityFailure(o.requestID)
         || o == NewInternalFailure(o.requestID)
         || (o == NewProviderOutcome(o.requestID, o.result, o.providerError)
             && P.ValidInvocation(ended, o.result, o.providerError))))
  }

  // The status and the text a caller is shown for a provider failure.
  predicate Public(code: P.FailureCode, status: int, message: string) {
    match code
    case AuthenticationFailed => status == 502 && message == AUTHENTICATION_MESSAGE
    case RateLimited => status == 429 && message == RATE_MESSAGE
    case RequestRejected => status == 422 && message == REJECTED_MESSAGE
    case Unavailable => status == 503 && message == UNAVAILABLE_MESSAGE
    case InvalidResponse => status == 502 && message == RESPONSE_MESSAGE
    case UnsupportedUpstreamOutput => status == 502 && message == OUTPUT_MESSAGE
    case Internal => status == 500 && message == INTERNAL_ERROR_MESSAGE
    case OtherCode(_) => false
  }

  // The one response each producible outcome stands for.
  ghost predicate Intended(o: Outcome, r: Response) {
    match o.kind
    case UncorrelatedFailure => r == Response(400, PlainMedia, Raw(Encode("invalid request\n")))
    case AdmissionFailure =>
      r == Response(if o.failureCode == "unsupported_capability" then 422 else 400, JsonMedia,
                    Raw(CorrelatedFailureBody(o.requestID, o.failureCode)))
      && PublicPair(o.failureCode, FailureMessage(o.failureCode))
    case InternalFailure =>
      r == Response(500, JsonMedia, Raw(CorrelatedFailureBody(o.requestID, "internal_error")))
      && PublicPair("internal_error", FailureMessage("internal_error"))
    case ProviderKind =>
      (match o.providerError
       case NoError => r.Response? && r.status == 200 && r.media == JsonMedia
         && r.body == Completed(o.requestID, o.result.outputText,
                                if o.result.hasUsage then Some(o.result.usage) else None)
       case ContextEnded(_) => r == Abort
       case ProviderFailure(Some(f)) => r.Response? && r.media == JsonMedia && r.body.Failed?
         && Public(f.code, r.status, r.body.message) && r.body.requestID == o.requestID && r.body.code == f.code
         && r.body.retryable == f.retryable && r.body.usage == (if f.hasUsage then Some(f.usage) else None)
       case _ => false)
    case NoKind => false
  }

  lemma PlainBodiesDiffer()
    ensures INTERNAL_BODY != UNCORRELATED_BODY
  {
    assert |INTERNAL_BODY| != |UNCORRELATED_BODY|;
  }

  // The messages are told apart by their lengths.
  lemma MessageLengths()
    ensures |AUTHENTICATION_MESSAGE| == 48 && |RATE_MESSAGE| == 36 && |REJECTED_MESSAGE| == 34
    ensures |UNAVAILABLE_MESSAGE| == 28 && |RESPONSE_MESSAGE| == 42 && |OUTPUT_MESSAGE| == 65
    ensures |INTERNAL_ERROR_MESSAGE| == 35
  {
  }

  /** Each known failure code has its own public message, and only an unknown code has none. */
  lemma MessagesDistinct(a: P.FailureCode, b: P.FailureCode)
    ensures ProviderFailurePresentation(a).None? <==> a.OtherCode?
    ensures var (x, y) := (ProviderFailurePresentation(a), ProviderFailurePresentation(b));
      x.Some? && y.Some? ==> (x.value.1 == y.value.1 <==> a == b)
  {
    MessageLengths();
    hide AUTHENTICATION_MESSAGE, RATE_MESSAGE, REJECTED_MESSAGE, UNAVAILABLE_MESSAGE, RESPONSE_MESSAGE;
    hide OUTPUT_MESSAGE, INTERNAL_ERROR_MESSAGE;
  }

  /** An ordinary error, or an outcome of no kind, is answered by the plain internal error. */
  lemma FallbackExact(o: Outcome)
    requires o.kind == NoKind
    ensures PrepareOutcome(None) == Response(500, PlainMedia, Raw(Encode("internal server error\n")))
    ensures PrepareOutcome(Some(o)) == PrepareOutcome(None)
  {
    hide Encode;
  }

  /** Every producible outcome is presented as intended and never as the fallback; it aborts exactly
      for the termination that the caller context itself reports. */
  lemma {:induction false} PresentedAsIntended(o: Outcome, ended: Option<P.Termination>)
    requires Producible(o, ended)
    ensures Intended(o, PrepareOutcome(Some(o)))
    ensures PrepareOutcome(Some(o)) != InternalResponse()
    ensures PrepareOutcome(Some(o)) == Abort <==> o.kind == ProviderKind && o.providerError.ContextEnded?
    ensures PrepareOutcome(Some(o)) == Abort ==> ended == Some(o.providerError.termination)
  {
    hide Encode, CorrelatedFailureBody, FailureMessage, PublicPair;
    MessagePaired(INVALID_REQUEST);
    MessagePaired(UNSUPPORTED_CAPABILITY);
    MessagePaired(INTERNAL_ERROR);
    CodesDiffer();
    PlainBodiesDiffer();
    if Encode(INTERNAL_BODY) == Encode(UNCORRELATED_BODY) {
      EncodeInjective(INTERNAL_BODY, UNCORRELATED_BODY);
    }
  }

  /** Every correlated failure response reads back as the admitted identifier, the code and the
      fixed message of that code. */
  lemma {:induction false} FailureResponseReadsBack(o: Outcome, ended: Option<P.Termination>, status: int,
                                                    bytes: seq<Byte>)
    requires Producible(o, ended) && PrepareOutcome(Some(o)) == Response(status, JsonMedia, Raw(bytes))
    ensures Decode(o.requestID).Some? && Decode(bytes).Some?
    ensures JsonText.Read(Decode(bytes).value) ==
            Some((FailureDocument(Decode(o.requestID).value, o.failureCode), ""))
  {
    hide Encode, Decode, CorrelatedFailureBody, JsonText.Read, FailureDocument, PrepareOutcome, Producible, KnownCode;
    RawJsonBody(o, ended, status, bytes);
    assert forall i :: 0 <= i < |o.requestID| ==> o.requestID[i] < 0x80;
    AsciiDecodes(o.requestID);
    EncodeOfDecode(o.requestID);
    FailureBodyReadsBack(Decode(o.requestID).value, o.failureCode);
  }

  // A raw JSON body is the payload of a correlated failure with one of the three codes.
  lemma RawJsonBody(o: Outcome, ended: Option<P.Termination>, status: int, bytes: seq<Byte>)
    requires Producible(o, ended) && PrepareOutcome(Some(o)) == Response(status, JsonMedia, Raw(bytes))
    ensures W.Identifier(o.requestID) && KnownCode(o.failureCode)
    ensures bytes == CorrelatedFailureBody(o.requestID, o.failureCode)
  {
    hide Encode, CorrelatedFailureBody, W.Identifier, P.ValidInvocation, ProviderFailurePresentation;
  }

  /** Whatever a body, an invoker and a context make of each other is producible. */
  lemma {:induction false} ExecutedProducible(read: B.Result, lexer: E.Lexer, behaviour: E.Behaviour, calls: nat,
                                              before: Option<P.Termination>)
    ensures var e := E.Executed(read, lexer, behaviour, calls, before); Producible(e.outcome, e.ended)
  {
    hide E.Admit, W.Identifier, P.ValidInvocation;
    if read.Body? {
      E.AdmittedIdentifier(read.bytes, lexer);
    }
  }

  lemma ExecutedPresented(read: B.Result, lexer: E.Lexer, behaviour: E.Behaviour, calls: nat,
                          before: Option<P.Termination>)
    ensures var e := E.Executed(read, lexer, behaviour, calls, before);
      Producible(e.outcome, e.ended) && Intended(e.outcome, PrepareOutcome(Some(e.outcome)))
      && PrepareOutcome(Some(e.outcome)) != InternalResponse()
      && (PrepareOutcome(Some(e.outcome)) == Abort ==> e.ended.Some?)
  {
    hide *;
    ExecutedProducible(read, lexer, behaviour, calls, before);
    var e := E.Executed(read, lexer, behaviour, calls, before);
    PresentedAsIntended(e.outcome, e.ended);
  }

  /** The handler past transport preflight: the response is the one intended presentation of what
      this body, this invoker and this context make of each other, and it aborts only if the
      context ended. */
  method ExecuteAndPrepare(context: E.Context, body: B.Reader, invoker: E.Invoker, lexer: E.Lexer)
    returns (response: Response)
    modifies context, body, invoker
    ensures var (read, calls) := B.Read(body.behaviour, old(body.calls));
      var e := E.Executed(read, lexer, invoker.behaviour, old(invoker.calls), old(context.ended));
      body.calls == calls && E.Leaves(context, invoker, e)
      && Producible(e.outcome, e.ended) && Intended(e.outcome, response)
      && response == PrepareOutcome(Some(e.outcome)) && response != InternalResponse()
      && (response == Abort ==> e.ended.Some?)
  {
    hide *;
    ghost var (read, _) := B.Read(body.behaviour, body.calls);
    ghost var e := E.Executed(read, lexer, invoker.behaviour, invoker.calls, context.ended);
    ExecutedPresented(read, lexer, invoker.behaviour, invoker.calls, context.ended);
    var outcome := E.Execute(context, body, invoker, lexer);
    response := PrepareOutcome(outcome);
  }

  // ---- refusals, from the document to the response ----

  // A JSON response whose body reads as this failure.
  ghost predicate Refuses(r: Response, status: int, id: string, code: string, message: string) {
    r.Response? && r.status == status && r.media == JsonMedia && r.body.Raw?
    && Decode(r.body.bytes).Some? && ReadsAs(Decode(r.body.bytes).value, id, code, message)
  }

  /** Which refusal a body gets, stated from the document alone; no refused body reaches the invoker. */
  lemma {:induction false} RefusedExact(read: B.Result, lexer: E.Lexer, behaviour: E.Behaviour, calls: nat,
                                        before: Option<P.Termination>, root: seq<Json.Member>, id: string)
    ensures var e := E.Executed(read, lexer, behaviour, calls, before);
      var r := PrepareOutcome(Some(e.outcome));
      ((forall o, i :: !E.Correlated(read, lexer, o, i)) ==>
         e.requests == [] && r == Response(400, PlainMedia, Raw(Encode("invalid request\n"))))
      && (E.Correlated(read, lexer, root, id) && E.Decodes(root) && !E.RequiresNothing(root) ==>
            e.requests == []
            && Refuses(r, 422, id, "unsupported_capability", "The required capability is not supported."))
      && (E.Correlated(read, lexer, root, id)
          && (!E.Decodes(root) || (E.RequiresNothing(root) && !E.NamesLearningText(root))) ==>
            e.requests == [] && Refuses(r, 400, id, "invalid_request", "The request is invalid."))
  {
    hide *;
    E.UncorrelatedExact(read, lexer);
    if E.AdmitBody(read, lexer) == E.Uncorrelated {
      UncorrelatedAnswer(read, lexer, behaviour, calls, before);
    }
    if E.Correlated(read, lexer, root, id) {
      E.CorrelatedExact(read, lexer, root, id);
      CorrelatedSafe(read, lexer, root, id);
      if E.AdmitBody(read, lexer) == E.Unsupported(Encode(id)) {
        UnsupportedAnswer(read, lexer, behaviour, calls, before, id);
      }
      if E.AdmitBody(read, lexer) == E.Invalid(Encode(id)) {
        InvalidAnswer(read, lexer, behaviour, calls, before, id);
      }
    }
  }

  lemma CorrelatedSafe(read: B.Result, lexer: E.Lexer, root: seq<Json.Member>, id: string)
    requires E.Correlated(read, lexer, root, id)
    ensures W.Identifier(Encode(id))
  {
    hide Encode, W.Identifier;
  }

  lemma UncorrelatedAnswer(read: B.Result, lexer: E.Lexer, behaviour: E.Behaviour, calls: nat,
                           before: Option<P.Termination>)
    requires E.AdmitBody(read, lexer) == E.Uncorrelated
    ensures var e := E.Executed(read, lexer, behaviour, calls, before);
      e.requests == [] && PrepareOutcome(Some(e.outcome)) == Response(400, PlainMedia, Raw(Encode("invalid request\n")))
  {
    hide E.AdmitBody, Encode;
  }

  lemma UnsupportedAnswer(read: B.Result, lexer: E.Lexer, behaviour: E.Behaviour, calls: nat,
                          before: Option<P.Termination>, id: string)
    requires E.AdmitBody(read, lexer) == E.Unsupported(Encode(id)) && W.Identifier(Encode(id))
    ensures var e := E.Executed(read, lexer, behaviour, calls, before);
      e.requests == []
      && Refuses(PrepareOutcome(Some(e.outcome)), 422, id, "unsupported_capability",
                 "The required capability is not supported.")
  {
    hide E.AdmitBody, Encode, Decode, CorrelatedFailureBody, ReadsAs, JsonText.Read;
    FailureBodyReadsBack(id, UNSUPPORTED_CAPABILITY);
    CodesDiffer();
  }

  lemma InvalidAnswer(read: B.Result, lexer: E.Lexer, behaviour: E.Behaviour, calls: nat,
                      before: Option<P.Termination>, id: string)
    requires E.AdmitBody(read, lexer) == E.Invalid(Encode(id)) && W.Identifier(Encode(id))
    ensures var e := E.Executed(read, lexer, behaviour, calls, before);
      e.requests == []
      && Refuses(PrepareOutcome(Some(e.outcome)), 400, id, "invalid_request", "The request is invalid.")
  {
    hide E.AdmitBody, Encode, Decode, CorrelatedFailureBody, ReadsAs, JsonText.Read;
    FailureBodyReadsBack(id, INVALID_REQUEST);
    CodesDiffer();
  }
}
