/** The provider-neutral boundary: requests, results, failures, and the rules an invocation keeps. */
module Provider {
  import opened Options
  import opened ScalarText
  import opened Utf8

  const MAX_CONVERSATION_MESSAGES := 64
  const MAX_INSTRUCTIONS := 32
  const MAX_REQUIRED_CAPABILITIES := 1
  const MAX_MESSAGE_TEXT_RUNES := 65536
  const MAX_INSTRUCTION_SOURCE_RUNES := 256
  const MAX_INSTRUCTION_TEXT_RUNES := 65536
  const MAX_OUTPUT_TEXT_RUNES := 65536
  const MAX_USAGE_TOKENS := 9007199254740991

  // Go's open string types: the named constants, and any other spelling.
  datatype Role = User | Assistant | OtherRole(spelling: seq<Byte>)
  datatype Capability = ToolCalls | OtherCapability(spelling: seq<Byte>)

  datatype Message = Message(role: Role, content: seq<Byte>)
  datatype Instruction = Instruction(source: seq<Byte>, content: seq<Byte>)

  datatype Request = Request(
    conversation: seq<Message>,
    instructions: seq<Instruction>,
    capabilities: seq<Capability>)

  predicate ValidMessage(m: Message) {
    (m.role == User || m.role == Assistant) && ValidText(m.content, 1, MAX_MESSAGE_TEXT_RUNES, false)
  }

  predicate ValidInstruction(i: Instruction) {
    ValidText(i.source, 1, MAX_INSTRUCTION_SOURCE_RUNES, true)
    && ValidText(i.content, 1, MAX_INSTRUCTION_TEXT_RUNES, false)
  }

  predicate ValidRequest(r: Request) {
    1 <= |r.conversation| <= MAX_CONVERSATION_MESSAGES
    && |r.instructions| <= MAX_INSTRUCTIONS
    && |r.capabilities| <= MAX_REQUIRED_CAPABILITIES
    && (forall i | 0 <= i < |r.conversation| :: ValidMessage(r.conversation[i]))
    && (forall i | 0 <= i < |r.instructions| :: ValidInstruction(r.instructions[i]))
    && (forall i | 0 <= i < |r.capabilities| :: r.capabilities[i] == ToolCalls)
  }

  datatype RequestError =
    | ConversationCount | InstructionCount | CapabilityCount
    | RoleUnsupported(index: nat)
    | MessageContent(index: nat, text: TextError)
    | InstructionSource(index: nat, text: TextError)
    | InstructionContent(index: nat, text: TextError)
    | CapabilityUnsupported(index: nat)

  // `validateRequestCardinalities`
  function ValidateCardinalities(conversation: nat, instructions: nat, capabilities: nat): Option<RequestError> {
    if conversation < 1 || conversation > MAX_CONVERSATION_MESSAGES then Some(ConversationCount)
    else if instructions > MAX_INSTRUCTIONS then Some(InstructionCount)
    else if capabilities > MAX_REQUIRED_CAPABILITIES then Some(CapabilityCount)
    else None
  }

  // What an error says: the first thing wrong, with everything looked at before it in order.
  ghost predicate FirstWrong(r: Request, error: RequestError) {
    match error
    case ConversationCount => !(1 <= |r.conversation| <= 64)
    case InstructionCount => 1 <= |r.conversation| <= 64 && |r.instructions| > 32
    case CapabilityCount => 1 <= |r.conversation| <= 64 && |r.instructions| <= 32 && |r.capabilities| > 1
    case RoleUnsupported(i) =>
      Counted(r) && i < |r.conversation| && (forall j | 0 <= j < i :: ValidMessage(r.conversation[j]))
      && r.conversation[i].role.OtherRole?
    case MessageContent(i, text) =>
      Counted(r) && i < |r.conversation| && (forall j | 0 <= j < i :: ValidMessage(r.conversation[j]))
      && !r.conversation[i].role.OtherRole? && Blames(text, r.conversation[i].content, 1, 65536, false)
    case InstructionSource(i, text) =>
      Counted(r) && MessagesOk(r) && i < |r.instructions|
      && (forall j | 0 <= j < i :: ValidInstruction(r.instructions[j]))
      && Blames(text, r.instructions[i].source, 1, 256, true)
    case InstructionContent(i, text) =>
      Counted(r) && MessagesOk(r) && i < |r.instructions|
      && (forall j | 0 <= j < i :: ValidInstruction(r.instructions[j]))
      && ValidText(r.instructions[i].source, 1, 256, true)
      && Blames(text, r.instructions[i].content, 1, 65536, false)
    case CapabilityUnsupported(i) =>
      Counted(r) && MessagesOk(r) && (forall j | 0 <= j < |r.instructions| :: ValidInstruction(r.instructions[j]))
      && i < |r.capabilities| && r.capabilities[i] != ToolCalls
  }

  ghost predicate Counted(r: Request) {
    1 <= |r.conversation| <= 64 && |r.instructions| <= 32 && |r.capabilities| <= 1
  }

  ghost predicate MessagesOk(r: Request) {
    forall j | 0 <= j < |r.conversation| :: ValidMessage(r.conversation[j])
  }

  /** `Request.Validate`: every element of every list is checked, and nothing else. */
  method Validate(request: Request) returns (error: Option<RequestError>)
    ensures error.None? <==> ValidRequest(request)
    ensures error.Some? ==> FirstWrong(request, error.value)
  {
    hide ValidText, Blames;
    error := ValidateCardinalities(|request.conversation|, |request.instructions|, |request.capabilities|);
    if error.Some? {
      return;
    }
    for i := 0 to |request.conversation|
      invariant forall j :: 0 <= j < i ==> ValidMessage(request.conversation[j])
    {
      var message := request.conversation[i];
      if message.role != User && message.role != Assistant {
        return Some(RoleUnsupported(i));
      }
      var text := ValidateText(message.content, 1, MAX_MESSAGE_TEXT_RUNES, false);
      if text.Some? {
        return Some(MessageContent(i, text.value));
      }
    }
    for i := 0 to |request.instructions|
      invariant forall j :: 0 <= j < i ==> ValidInstruction(request.instructions[j])
    {
      var instruction := request.instructions[i];
      var source := ValidateText(instruction.source, 1, MAX_INSTRUCTION_SOURCE_RUNES, true);
      if source.Some? {
        return Some(InstructionSource(i, source.value));
      }
      var content := ValidateText(instruction.content, 1, MAX_INSTRUCTION_TEXT_RUNES, false);
      if content.Some? {
        return Some(InstructionContent(i, content.value));
      }
    }
    for i := 0 to |request.capabilities|
      invariant forall j :: 0 <= j < i ==> request.capabilities[j] == ToolCalls
    {
      if request.capabilities[i] != ToolCalls {
        return Some(CapabilityUnsupported(i));
      }
    }
    return None;
  }

  /** `NewRequest` succeeds on exactly the valid requests and returns what it was given. */
  method NewRequest(conversation: seq<Message>, instructions: seq<Instruction>, capabilities: seq<Capability>)
    returns (request: Option<Request>)
    ensures request == if ValidRequest(Request(conversation, instructions, capabilities))
                       then Some(Request(conversation, instructions, capabilities)) else None
  {
    var early := ValidateCardinalities(|conversation|, |instructions|, |capabilities|);
    if early.Some? {
      return None;
    }
    var candidate := Request(conversation, instructions, capabilities);
    var error := Validate(candidate);
    return if error.None? then Some(candidate) else None;
  }

  datatype Usage = Usage(inputTokens: int, outputTokens: int)

  const ZERO_USAGE := Usage(0, 0)

  predicate ValidUsage(u: Usage) {
    0 <= u.inputTokens <= MAX_USAGE_TOKENS && 0 <= u.outputTokens <= MAX_USAGE_TOKENS
  }

  datatype Result = Result(outputText: seq<Byte>, usage: Usage, hasUsage: bool)

  const ZERO_RESULT := Result([], ZERO_USAGE, false)

  predicate ValidResult(r: Result) {
    ValidText(r.outputText, 1, MAX_OUTPUT_TEXT_RUNES, false) && (r.hasUsage ==> ValidUsage(r.usage))
  }

  // `Result.Validate`
  method ValidateResult(r: Result) returns (ok: bool)
    ensures ok <==> ValidResult(r)
  {
    var text := ValidateText(r.outputText, 1, MAX_OUTPUT_TEXT_RUNES, false);
    return text.None? && (!r.hasUsage || ValidUsage(r.usage));
  }

  datatype FailureCode =
    | AuthenticationFailed | RateLimited | RequestRejected | Unavailable | InvalidResponse
    | UnsupportedUpstreamOutput | Internal | OtherCode(spelling: seq<Byte>)

  datatype Failure = Failure(code: FailureCode, retryable: bool, usage: Usage, hasUsage: bool)

  predicate ValidFailure(f: Failure) {
    !f.code.OtherCode? && (f.hasUsage ==> ValidUsage(f.usage))
  }

  // How a caller context ended.
  datatype Termination = Canceled | DeadlineExceeded

  // The error an adapter returns: nil, a bare context error, a *Failure (perhaps nil), or other.
  datatype InvokeError =
    | NoError
    | ContextEnded(termination: Termination)
    | ProviderFailure(failure: Option<Failure>)
    | ForeignError

  // What `ctx.Err()` tells of a caller context, which may be nil.
  datatype CallerContext = NilContext | CallerContext(ended: Option<Termination>)

  /** `ValidateInvocation`, given the caller context and the termination it reports, if any. */
  method ValidateInvocation(context: CallerContext, result: Result, error: InvokeError) returns (ok: bool)
    ensures ok <==> context.CallerContext? && ValidInvocation(context.ended, result, error)
  {
    if context.NilContext? {
      return false;
    }
    if error == NoError {
      ok := ValidateResult(result);
      return;
    }
    if result != ZERO_RESULT {
      return false;
    }
    match error
    case ContextEnded(termination) => return context.ended == Some(termination);
    case ProviderFailure(failure) => return failure.Some? && ValidFailure(failure.value);
    case _ => return false;
  }

  // The three alternatives an Invoker may return.
  predicate ValidInvocation(context: Option<Termination>, result: Result, error: InvokeError) {
    (error == NoError && ValidResult(result))
    || (result == ZERO_RESULT && error.ProviderFailure? && error.failure.Some?
        && ValidFailure(error.failure.value))
    || (result == ZERO_RESULT && error.ContextEnded? && context == Some(error.termination))
  }

  /** The alternatives exclude one another: a valid invocation has exactly one meaning. */
  lemma AlternativesExclusive(context: Option<Termination>, result: Result, error: InvokeError)
    requires ValidInvocation(context, result, error)
    ensures (error == NoError) != (result == ZERO_RESULT)
    ensures error != ForeignError && (error.ContextEnded? ==> context == Some(error.termination))
    ensures error.ProviderFailure? ==> error.failure.Some? && ValidFailure(error.failure.value)
  {
    assert Decode([]) == Some("");
  }

  /** Alternative by alternative: a nil error needs a valid result, a termination the same end in the context, a
      failure the closed rules, each beside a zero result; nothing else passes. */
  lemma InvocationExact(context: Option<Termination>, result: Result, error: InvokeError)
    ensures ValidInvocation(context, result, error) <==>
      match error
      case NoError => ValidText(result.outputText, 1, 65536, false)
        && (result.hasUsage ==> 0 <= result.usage.inputTokens <= 9007199254740991
                                && 0 <= result.usage.outputTokens <= 9007199254740991)
      case ContextEnded(end) => result == Result([], Usage(0, 0), false) && context == Some(end)
      case ProviderFailure(Some(f)) => result == Result([], Usage(0, 0), false) && !f.code.OtherCode?
        && (f.hasUsage ==> 0 <= f.usage.inputTokens <= 9007199254740991
                           && 0 <= f.usage.outputTokens <= 9007199254740991)
      case _ => false
  {
    hide ValidText;
  }

  /** The request limits of model-turn v1 in numbers. */
  lemma RequestExact(r: Request)
    ensures ValidRequest(r) <==>
      1 <= |r.conversation| <= 64 && |r.instructions| <= 32 && |r.capabilities| <= 1
      && (forall i | 0 <= i < |r.conversation| ::
            r.conversation[i].role in {User, Assistant} && ValidText(r.conversation[i].content, 1, 65536, false))
      && (forall i | 0 <= i < |r.instructions| ::
            ValidText(r.instructions[i].source, 1, 256, true) && ValidText(r.instructions[i].content, 1, 65536, false))
      && (forall i | 0 <= i < |r.capabilities| :: r.capabilities[i] == ToolCalls)
  {
    hide ValidText;
  }
}
