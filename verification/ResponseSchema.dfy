/** The frozen model-turn v1 success and failure schemas, and the responses that must conform to them. */
module ResponseSchema {
  import B = BodyReader
  import opened Bridge
  import opened Decimals
  import E = Executor
  import J = JsonText
  import opened Json
  import opened Options
  import opened Outcomes
  import P = Provider
  import opened Presentation
  import opened SchemaNodes
  import opened SchemaProfile
  import opened Utf8
  import opened Validator
  import W = WireRequest

  // ---- schema/success.schema.json and schema/failure.schema.json ----

  function UsageFields(): seq<Member> {
    [Member("input_tokens", IntegerNode(0, 9007199254740991)),
     Member("output_tokens", IntegerNode(0, 9007199254740991))]
  }

  function FailureCodes(): seq<string> {
    ["invalid_request", "authentication_failed", "rate_limited", "request_rejected", "unsupported_capability",
     "unavailable", "invalid_response", "unsupported_upstream_output", "internal_error"]
  }

  function ErrorFields(): seq<Member> {
    [Member("code", EnumNode(FailureCodes())),
     Member("message", PatternNode(1, 1024, CONTROL_SAFE_PATTERN)),
     Member("retryable", BooleanNode())]
  }

  function RequiredFieldsOf(kind: string, last: Member): seq<Member> {
    [Member("version", ConstNode("v1")), Member("kind", ConstNode(kind)), Member("request_id", IdentifierNode()), last]
  }

  // Usage is the one field a response may leave out.
  function ResponseFields(kind: string, last: Member): seq<Member> {
    RequiredFieldsOf(kind, last) + [Member("usage", ObjectNode(UsageFields()))]
  }

  function ResponseKeywords(h: Heading, kind: string, last: Member): seq<Member> {
    RootKeywords(h, RequiredFieldsOf(kind, last), ResponseFields(kind, last))
  }

  function OutputField(): Member { Member("output_text", TextNode(1, 65536)) }

  function ErrorField(): Member { Member("error", ObjectNode(ErrorFields())) }

  function SuccessHeading(): Heading {
    Heading(SCHEMA_URI, "urn:fastgate:model-turn:v1:success", "FastGate model-turn v1 completed result",
            "Strict non-streaming successful FastGate model-turn result shape.")
  }

  function FailureHeading(): Heading {
    Heading(SCHEMA_URI, "urn:fastgate:model-turn:v1:failure", "FastGate model-turn v1 failed result",
            "Strict non-streaming normalized FastGate model-turn failure shape.")
  }

  function SuccessRoot(): Json { JObj(ResponseKeywords(SuccessHeading(), "model_turn.completed", OutputField())) }

  function FailureRoot(): Json { JObj(ResponseKeywords(FailureHeading(), "model_turn.failed", ErrorField())) }

  // ---- both schemas are well formed ----

  lemma UsageClosed()
    ensures ClosedOver(ObjectKeywords(UsageFields(), UsageFields()), UsageFields())
    ensures NodeOk(ObjectNode(UsageFields()))
  {
    hide NodeOk, UsageFields;
    UsageFieldsOk();
    UsageNames();
    ObjectNodeClosed(UsageFields());
    ClosedOk(ObjectKeywords(UsageFields(), UsageFields()), UsageFields(), UsageFields());
  }

  lemma UsageFieldsOk()
    ensures forall i :: 0 <= i < |UsageFields()| ==> NodeOk(UsageFields()[i].value)
  {
    hide NodeOk, IntegerNode, Conforms;
    IntegerNodeMeans(JNull, 0, 9007199254740991);
  }

  lemma UsageNames()
    ensures DistinctNames(UsageFields())
  {
    hide IntegerNode;
  }

  lemma CodesDistinct()
    ensures |FailureCodes()| == 9
    ensures forall i, j :: 0 <= i < j < |FailureCodes()| ==> FailureCodes()[i] != FailureCodes()[j]
  {
    var c := FailureCodes();
    assert |c[0]| == 15 && |c[1]| == 21 && |c[2]| == 12 && |c[3]| == 16 && |c[4]| == 22 && |c[5]| == 11
      && |c[6]| == 16 && |c[7]| == 27 && |c[8]| == 14;
    assert c[3][0] == 'r' && c[6][0] == 'i';
  }

  lemma ErrorClosed()
    ensures ClosedOver(ObjectKeywords(ErrorFields(), ErrorFields()), ErrorFields())
    ensures NodeOk(ObjectNode(ErrorFields()))
  {
    CodesDistinct();
    hide NodeOk, EnumNode, PatternNode, BooleanNode, Conforms, FailureCodes, CONTROL_SAFE_PATTERN;
    EnumNodeMeans(JNull, FailureCodes());
    PatternNodeOk(1, 1024, CONTROL_SAFE_PATTERN);
    BooleanNodeMeans(JNull);
    ObjectNodeClosed(ErrorFields());
    ClosedOk(ObjectKeywords(ErrorFields(), ErrorFields()), ErrorFields(), ErrorFields());
  }

  predicate NewName(name: string) {
    name != "version" && name != "kind" && name != "request_id" && name != "usage"
  }

  lemma ResponseNames(kind: string, last: Member)
    requires NewName(last.name)
    ensures DistinctNames(ResponseFields(kind, last)) && RequiredFieldsOf(kind, last) <= ResponseFields(kind, last)
    ensures |ResponseFields(kind, last)| == 5
  {
    hide ConstNode, IdentifierNode, ObjectNode;
  }

  lemma IdentifierNodeOk()
    ensures NodeOk(IdentifierNode())
  {
    hide NodeOk;
    PatternNodeOk(1, 128, IDENTIFIER_PATTERN);
  }

  lemma ResponseFieldsOk(kind: string, last: Member)
    requires NodeOk(last.value)
    ensures forall i :: 0 <= i < |ResponseFields(kind, last)| ==> NodeOk(ResponseFields(kind, last)[i].value)
  {
    hide NodeOk, Conforms, ConstNode, IdentifierNode, ObjectNode, UsageFields, ClosedOver;
    UsageClosed();
    ConstNodeMeans(JNull, "v1");
    ConstNodeMeans(JNull, kind);
    IdentifierNodeOk();
  }

  lemma ResponseClosed(h: Heading, kind: string, last: Member)
    requires NewName(last.name) && NodeOk(last.value)
    ensures ClosedWith(ResponseKeywords(h, kind, last), RequiredFieldsOf(kind, last), ResponseFields(kind, last))
    ensures NodeOk(JObj(ResponseKeywords(h, kind, last)))
    ensures var ms := ResponseKeywords(h, kind, last);
      Lookup(ms, "$schema") == Some(JStr(h.uri)) && Lookup(ms, "$id") == Some(JStr(h.id))
  {
    hide NodeOk, RootKeywords, ResponseFields, RequiredFieldsOf, DistinctNames, Has, TypeIs;
    ResponseNames(kind, last);
    ResponseFieldsOk(kind, last);
    RootLookups(h, RequiredFieldsOf(kind, last), ResponseFields(kind, last));
    ClosedOk(ResponseKeywords(h, kind, last), RequiredFieldsOf(kind, last), ResponseFields(kind, last));
  }

  lemma UsagePlaced(depth: nat)
    requires depth < MAX_NESTING_DEPTH
    ensures NodeOk(ObjectNode(UsageFields())) && Placed(ObjectNode(UsageFields()), false, depth)
  {
    hide NodeOk, Placed, ClosedWith, IntegerNode;
    UsageClosed();
    TokensPlaced(depth + 1);
    ObjectPlaced(UsageFields(), depth);
  }

  lemma TokensPlaced(depth: nat)
    requires depth <= MAX_NESTING_DEPTH
    ensures NodeOk(IntegerNode(0, 9007199254740991)) && Placed(IntegerNode(0, 9007199254740991), false, depth)
  {
    hide NodeOk, Placed, Has, TypeIs, Conforms, Number, DistinctNames;
    IntegerNodeMeans(JNull, 0, 9007199254740991);
    IntegerNodeKeywords(0, 9007199254740991);
    LeafPlaced(IntegerNode(0, 9007199254740991).members, depth);
  }

  lemma ErrorLeavesPlaced(depth: nat)
    requires depth <= MAX_NESTING_DEPTH
    ensures NodeOk(EnumNode(FailureCodes())) && Placed(EnumNode(FailureCodes()), false, depth)
    ensures NodeOk(PatternNode(1, 1024, CONTROL_SAFE_PATTERN))
      && Placed(PatternNode(1, 1024, CONTROL_SAFE_PATTERN), false, depth)
    ensures NodeOk(BooleanNode()) && Placed(BooleanNode(), false, depth)
  {
    CodesDistinct();
    hide NodeOk, Placed, Has, TypeIs, Conforms, Number, DistinctNames, FailureCodes, EnumNode, PatternNode;
    EnumPlaced(FailureCodes(), depth);
    PatternPlaced(1, 1024, CONTROL_SAFE_PATTERN, depth);
    BooleanNodeMeans(JNull);
    BooleanNodeKeywords();
    LeafPlaced(BooleanNode().members, depth);
  }

  lemma ErrorPlaced(depth: nat)
    requires depth < MAX_NESTING_DEPTH
    ensures NodeOk(ObjectNode(ErrorFields())) && Placed(ObjectNode(ErrorFields()), false, depth)
  {
    hide NodeOk, Placed, ClosedWith, EnumNode, PatternNode, BooleanNode, CONTROL_SAFE_PATTERN;
    ErrorClosed();
    ErrorLeavesPlaced(depth + 1);
    ObjectPlaced(ErrorFields(), depth);
  }

  lemma ResponsePlaced(kind: string, last: Member)
    requires NodeOk(last.value) && Placed(last.value, false, 1)
    ensures forall i :: 0 <= i < |ResponseFields(kind, last)| ==>
      NodeOk(ResponseFields(kind, last)[i].value) && Placed(ResponseFields(kind, last)[i].value, false, 1)
  {
    hide NodeOk, Placed, ConstNode, PatternNode, ObjectNode, IDENTIFIER_PATTERN;
    ConstPlaced("v1", 1);
    ConstPlaced(kind, 1);
    PatternPlaced(1, 128, IDENTIFIER_PATTERN, 1);
    UsagePlaced(1);
  }

  lemma ResponseWellFormed(h: Heading, kind: string, last: Member)
    requires h.uri == SCHEMA_URI && h.id != ""
    requires NewName(last.name) && NodeOk(last.value) && Placed(last.value, false, 1)
    ensures WellFormedSchema(JObj(ResponseKeywords(h, kind, last)))
  {
    hide NodeOk, Placed, ClosedWith, ResponseKeywords, ResponseFields, RequiredFieldsOf, Has;
    ResponseClosed(h, kind, last);
    ResponsePlaced(kind, last);
    ClosedPlaced(ResponseKeywords(h, kind, last), RequiredFieldsOf(kind, last), ResponseFields(kind, last), true, 0);
  }

  lemma OutputFieldOk()
    ensures NewName(OutputField().name) && NodeOk(OutputField().value) && Placed(OutputField().value, false, 1)
  {
    hide NodeOk, Placed, TextNode;
    TextPlaced(1, 65536, 1);
  }

  lemma ErrorFieldOk()
    ensures NewName(ErrorField().name) && NodeOk(ErrorField().value) && Placed(ErrorField().value, false, 1)
  {
    hide NodeOk, Placed, ObjectNode;
    ErrorPlaced(1);
  }

  /** The committed response schemas raise no issue. */
  lemma ResponseSchemasWellFormed()
    ensures WellFormedSchema(SuccessRoot()) && WellFormedSchema(FailureRoot())
  {
    hide NodeOk, Placed, WellFormedSchema, ResponseKeywords, OutputField, ErrorField, NewName;
    OutputFieldOk();
    ErrorFieldOk();
    ResponseWellFormed(SuccessHeading(), "model_turn.completed", OutputField());
    ResponseWellFormed(FailureHeading(), "model_turn.failed", ErrorField());
  }

  // ---- the documents responses spell ----

  function UsageDocument(usage: P.Usage): Json {
    JObj([Member("input_tokens", JNum(OfInt(usage.inputTokens))),
          Member("output_tokens", JNum(OfInt(usage.outputTokens)))])
  }

  // `omitempty` leaves an absent usage out.
  function ResponseDocument(kind: string, id: string, last: Member, usage: Option<P.Usage>): Json {
    JObj([Member("version", JStr("v1")), Member("kind", JStr(kind)), Member("request_id", JStr(id)), last]
         + if usage.Some? then [Member("usage", UsageDocument(usage.value))] else [])
  }

  function CompletedDocument(id: string, text: string, usage: Option<P.Usage>): Json {
    ResponseDocument("model_turn.completed", id, Member("output_text", JStr(text)), usage)
  }

  function ErrorMember(code: string, message: string, retryable: bool): Member {
    Member("error", JObj([Member("code", JStr(code)), Member("message", JStr(message)),
                          Member("retryable", JBool(retryable))]))
  }

  function FailedDocument(id: string, code: string, message: string, retryable: bool, usage: Option<P.Usage>): Json {
    ResponseDocument("model_turn.failed", id, ErrorMember(code, message, retryable), usage)
  }

  // The wire spelling of a known code.
  function Spelling(code: P.FailureCode): string {
    match code
    case AuthenticationFailed => "authentication_failed"
    case RateLimited => "rate_limited"
    case RequestRejected => "request_rejected"
    case Unavailable => "unavailable"
    case InvalidResponse => "invalid_response"
    case UnsupportedUpstreamOutput => "unsupported_upstream_output"
    case Internal => "internal_error"
    case OtherCode(_) => ""
  }

  // ---- conformance ----

  lemma UsageConforms(usage: P.Usage)
    ensures NodeOk(ObjectNode(UsageFields()))
    ensures Conforms(UsageDocument(usage), ObjectNode(UsageFields())) <==> P.ValidUsage(usage)
  {
    hide NodeOk, Conforms, ClosedWith, IntegerNode, OfInt;
    TokensConform(usage.inputTokens);
    TokensConform(usage.outputTokens);
    UsageClosed();
    var (members, fields) := (UsageDocument(usage).members, UsageFields());
    AlignedConforms(ObjectKeywords(fields, fields), fields, fields, members);
    assert members[0].value == JNum(OfInt(usage.inputTokens)) && members[1].value == JNum(OfInt(usage.outputTokens));
  }

  lemma TokensConform(count: int)
    ensures NodeOk(IntegerNode(0, 9007199254740991))
    ensures Conforms(JNum(OfInt(count)), IntegerNode(0, 9007199254740991)) <==> 0 <= count <= 9007199254740991
  {
    hide NodeOk, Conforms, IntegerNode, OfInt;
    IntegerNodeMeans(JNum(OfInt(count)), 0, 9007199254740991);
  }

  // What an error's message may be.
  predicate Showable(message: string) { 1 <= |message| <= 1024 && ControlSafeText(message) }

  lemma ErrorConforms(code: string, message: string, retryable: bool)
    ensures NodeOk(ErrorField().value)
    ensures Conforms(ErrorMember(code, message, retryable).value, ErrorField().value) <==>
      code in FailureCodes() && Showable(message)
  {
    CodesDistinct();
    hide NodeOk, Conforms, ClosedWith, EnumNode, PatternNode, BooleanNode, FailureCodes, ControlSafeText;
    EnumNodeMeans(JStr(code), FailureCodes());
    PatternNodeMeans(JStr(message), 1, 1024, CONTROL_SAFE_PATTERN);
    MatchesControlSafe(message);
    BooleanNodeMeans(JBool(retryable));
    ErrorClosed();
    hide CONTROL_SAFE_PATTERN;
    var (members, fields) := (ErrorMember(code, message, retryable).value.members, ErrorFields());
    AlignedConforms(ObjectKeywords(fields, fields), fields, fields, members);
    assert members[0].value == JStr(code) && members[1].value == JStr(message) && members[2].value == JBool(retryable);
  }

  lemma MatchesControlSafe(s: string)
    ensures MatchesPattern(CONTROL_SAFE_PATTERN, s) <==> ControlSafeText(s)
  {
    PatternsDiffer();
  }

  lemma IdentifierConforms(id: string)
    ensures NodeOk(IdentifierNode())
    ensures Conforms(JStr(id), IdentifierNode()) <==> W.Identifier(Encode(id))
  {
    hide W.Identifier, Encode, NodeOk, Conforms, PatternNode, IdentifierText;
    IdentifierBridge(id);
    PatternsDiffer();
    PatternNodeMeans(JStr(id), 1, 128, IDENTIFIER_PATTERN);
  }

  // Field by field, the document's members are what the schema asks for.
  lemma ResponseAligned(kind: string, id: string, field: Member, last: Member, usage: Option<P.Usage>)
    requires NodeOk(field.value) && last.name == field.name
    ensures var (members, fields) := (ResponseDocument(kind, id, last, usage).members, ResponseFields(kind, field));
      4 <= |members| <= |fields|
      && (forall i :: 0 <= i < |members| ==> members[i].name == fields[i].name)
      && (forall i :: 0 <= i < |fields| ==> NodeOk(fields[i].value))
      && (EachConforms(members, fields) <==>
            Conforms(last.value, field.value) && W.Identifier(Encode(id))
            && (usage.Some? ==> P.ValidUsage(usage.value)))
  {
    hide NodeOk, Conforms, ConstNode, IdentifierNode, ObjectNode, UsageDocument, Encode, W.Identifier, UsageFields;
    hide P.ValidUsage;
    ConstNodeMeans(JStr("v1"), "v1");
    ConstNodeMeans(JStr(kind), kind);
    IdentifierConforms(id);
    UsageConforms(if usage.Some? then usage.value else P.ZERO_USAGE);
    var (members, fields) := (ResponseDocument(kind, id, last, usage).members, ResponseFields(kind, field));
    assert members[2].value == JStr(id) && members[3] == last && fields[3] == field;
    assert usage.Some? ==> |members| == 5 && members[4].value == UsageDocument(usage.value);
  }

  lemma ResponseLength(kind: string, id: string, field: Member, last: Member, usage: Option<P.Usage>)
    ensures |RequiredFieldsOf(kind, field)| <= |ResponseDocument(kind, id, last, usage).members|
    ensures ResponseDocument(kind, id, last, usage).JObj?
  {
  }

  lemma ResponseConforms(h: Heading, kind: string, id: string, field: Member, last: Member, usage: Option<P.Usage>)
    requires NewName(field.name) && NodeOk(field.value) && last.name == field.name
    ensures NodeOk(JObj(ResponseKeywords(h, kind, field)))
    ensures Conforms(ResponseDocument(kind, id, last, usage), JObj(ResponseKeywords(h, kind, field))) <==>
      Conforms(last.value, field.value) && W.Identifier(Encode(id)) && (usage.Some? ==> P.ValidUsage(usage.value))
  {
    hide NodeOk, Conforms, ClosedWith, ConstNode, IdentifierNode, ObjectNode, UsageDocument, ResponseKeywords;
    hide Encode, W.Identifier, P.ValidUsage, EachConforms;
    ResponseAligned(kind, id, field, last, usage);
    ResponseClosed(h, kind, field);
    hide ResponseDocument, ResponseFields, RequiredFieldsOf;
    ResponseNames(kind, field);
    ResponseLength(kind, id, field, last, usage);
    AlignedConforms(ResponseKeywords(h, kind, field), RequiredFieldsOf(kind, field), ResponseFields(kind, field),
                    ResponseDocument(kind, id, last, usage).members);
  }

  lemma CompletedConforms(id: string, text: string, usage: Option<P.Usage>)
    ensures Accepts(SuccessRoot(), CompletedDocument(id, text, usage)) <==>
      W.Identifier(Encode(id)) && 1 <= |text| <= 65536 && (usage.Some? ==> P.ValidUsage(usage.value))
  {
    hide NodeOk, Conforms, TextNode, ResponseKeywords, ResponseDocument, Encode, W.Identifier, P.ValidUsage;
    TextNodeMeans(JStr(text), 1, 65536);
    ResponseConforms(SuccessHeading(), "model_turn.completed", id, OutputField(),
                     Member("output_text", JStr(text)), usage);
  }

  lemma FailedConforms(id: string, code: string, message: string, retryable: bool, usage: Option<P.Usage>)
    ensures Accepts(FailureRoot(), FailedDocument(id, code, message, retryable, usage)) <==>
      W.Identifier(Encode(id)) && code in FailureCodes() && Showable(message)
      && (usage.Some? ==> P.ValidUsage(usage.value))
  {
    hide NodeOk, Conforms, ObjectNode, ResponseKeywords, ResponseDocument, Encode, W.Identifier, FailureCodes;
    hide Showable, P.ValidUsage;
    ErrorConforms(code, message, retryable);
    ResponseConforms(FailureHeading(), "model_turn.failed", id, ErrorField(),
                     ErrorMember(code, message, retryable), usage);
  }

  /** The provider boundary admits exactly the results that the success schema can carry. */
  lemma {:induction false} ResultBridge(id: string, r: P.Result)
    requires W.Identifier(Encode(id))
    ensures P.ValidResult(r) <==>
      Decode(r.outputText).Some?
      && SuccessAccepts(CompletedDocument(id, Decode(r.outputText).value, PrepareUsage(r.usage, r.hasUsage)))
  {
    hide SuccessRoot, CompletedDocument, Accepts, Decode, Encode, W.Identifier, P.ValidUsage;
    if Decode(r.outputText).Some? {
      CompletedConforms(id, Decode(r.outputText).value, PrepareUsage(r.usage, r.hasUsage));
    }
  }

  /** It admits exactly the failures that the failure schema can carry beside a showable message. */
  lemma {:induction false} FailureBridge(id: string, f: P.Failure, message: string)
    requires W.Identifier(Encode(id)) && Showable(message)
    ensures P.ValidFailure(f) <==>
      FailureAccepts(FailedDocument(id, Spelling(f.code), message, f.retryable, PrepareUsage(f.usage, f.hasUsage)))
  {
    SpellingListed(f.code);
    hide FailureRoot, FailedDocument, Accepts, Encode, W.Identifier, P.ValidUsage, FailureCodes, Spelling, Showable;
    FailedConforms(id, Spelling(f.code), message, f.retryable, PrepareUsage(f.usage, f.hasUsage));
  }

  /** Each known code has a spelling of its own. */
  lemma SpellingDistinct(a: P.FailureCode, b: P.FailureCode)
    requires !a.OtherCode? && !b.OtherCode? && Spelling(a) == Spelling(b)
    ensures a == b
  {
    assert "request_rejected"[0] == 'r' && "invalid_response"[0] == 'i';
  }

  // ---- public messages ----

  lemma PlainSafe(s: string)
    requires PlainText(s) && s != ""
    ensures ControlSafeText(s)
  {
  }

  lemma PlainConcat(a: string, b: string)
    requires PlainText(a) && PlainText(b)
    ensures PlainText(a + b)
  {
  }

  lemma AuthenticationStart() ensures PlainText("FastGate could not ") {}
  lemma AuthenticationEnd() ensures PlainText("authenticate to the upstream.") {}
  lemma OutputStart() ensures PlainText("The upstream returned output ") {}
  lemma OutputEnd() ensures PlainText("that model-turn v1 does not support.") {}
  lemma RatePlain() ensures PlainText(RATE_MESSAGE) {}
  lemma RejectedPlain() ensures PlainText(REJECTED_MESSAGE) {}
  lemma UnavailablePlain() ensures PlainText(UNAVAILABLE_MESSAGE) {}
  lemma ResponsePlain() ensures PlainText(RESPONSE_MESSAGE) {}

  lemma LongMessagesPlain()
    ensures PlainText(AUTHENTICATION_MESSAGE) && PlainText(OUTPUT_MESSAGE)
  {
    hide PlainText;
    AuthenticationStart();
    AuthenticationEnd();
    PlainConcat("FastGate could not ", "authenticate to the upstream.");
    OutputStart();
    OutputEnd();
    PlainConcat("The upstream returned output ", "that model-turn v1 does not support.");
  }

  // Every message a provider failure shows is a bounded, safe text.
  lemma MessageFits(code: P.FailureCode)
    ensures var shown := ProviderFailurePresentation(code);
      shown.Some? ==> Showable(shown.value.1)
  {
    MessageLengths();
    hide AUTHENTICATION_MESSAGE, RATE_MESSAGE, REJECTED_MESSAGE, UNAVAILABLE_MESSAGE, RESPONSE_MESSAGE;
    hide OUTPUT_MESSAGE, INTERNAL_ERROR_MESSAGE, PlainText, ControlSafeText;
    LongMessagesPlain();
    RatePlain();
    RejectedPlain();
    UnavailablePlain();
    ResponsePlain();
    InternalPlain();
    if ProviderFailurePresentation(code).Some? {
      PlainSafe(ProviderFailurePresentation(code).value.1);
    }
  }

  // ---- what is sent ----

  // A parsed text as the contract checker decodes it.
  function TreeJson(t: J.Tree): Json
    decreases t
  {
    match t
    case Text(text) => JStr(text)
    case Flag(flag) => JBool(flag)
    case List(items) => JArr(seq(|items|, i requires 0 <= i < |items| => TreeJson(items[i])))
    case Dict(entries) =>
      JObj(seq(|entries|, i requires 0 <= i < |entries| => Member(entries[i].name, TreeJson(entries[i].value))))
  }

  lemma FailureDocumentJson(id: string, code: string)
    ensures TreeJson(FailureDocument(id, code)) == FailedDocument(id, code, FailureMessage(code), false, None)
  {
    ErrorDocumentJson(code, FailureMessage(code));
    hide ErrorDocument, FailureMessage;
    TextJson("v1");
    TextJson("model_turn.failed");
    TextJson(id);
    var members := TreeJson(FailureDocument(id, code)).members;
    assert members == FailedDocument(id, code, FailureMessage(code), false, None).members;
  }

  lemma TextJson(s: string)
    ensures TreeJson(J.Text(s)) == JStr(s)
  {
  }

  lemma ErrorDocumentJson(code: string, message: string)
    ensures Member("error", TreeJson(ErrorDocument(code, message))) == ErrorMember(code, message, false)
  {
    assert TreeJson(ErrorDocument(code, message)).members == ErrorMember(code, message, false).value.members;
  }

  lemma CorrelatedConforms(id: string, code: string)
    requires W.Identifier(Encode(id)) && KnownCode(code)
    ensures Accepts(FailureRoot(), TreeJson(FailureDocument(id, code)))
  {
    KnownListed(code);
    MessageShort(code);
    hide *;
    CodesPlain(code);
    PlainSafe(FailureMessage(code));
    FailedConforms(id, code, FailureMessage(code), false, None);
    FailureDocumentJson(id, code);
  }

  lemma KnownListed(code: string)
    requires KnownCode(code)
    ensures code in FailureCodes()
  {
    var c := FailureCodes();
    assert c[0] == INVALID_REQUEST && c[4] == UNSUPPORTED_CAPABILITY && c[8] == INTERNAL_ERROR;
  }

  lemma MessageShort(code: string)
    ensures 1 <= |FailureMessage(code)| <= 1024
  {
  }

  lemma SpellingListed(code: P.FailureCode)
    ensures Spelling(code) in FailureCodes() <==> !code.OtherCode?
  {
    var c := FailureCodes();
    assert c[1] == "authentication_failed" && c[2] == "rate_limited" && c[3] == "request_rejected"
      && c[5] == "unavailable" && c[6] == "invalid_response" && c[7] == "unsupported_upstream_output"
      && c[8] == "internal_error";
  }

  ghost predicate SuccessAccepts(v: Json) { Accepts(SuccessRoot(), v) }

  ghost predicate FailureAccepts(v: Json) { Accepts(FailureRoot(), v) }

  // The text is one JSON value that the failure schema accepts.
  ghost predicate TextConforms(text: string) {
    match J.Read(text)
    case None => false
    case Some((tree, rest)) => rest == "" && FailureAccepts(TreeJson(tree))
  }

  ghost predicate CompletedConforming(id: seq<Byte>, text: seq<Byte>, usage: Option<P.Usage>) {
    Decode(id).Some? && Decode(text).Some?
    && SuccessAccepts(CompletedDocument(Decode(id).value, Decode(text).value, usage))
  }

  ghost predicate FailedConforming(id: seq<Byte>, code: string, message: string, retryable: bool,
                                   usage: Option<P.Usage>)
  {
    Decode(id).Some? && FailureAccepts(FailedDocument(Decode(id).value, code, message, retryable, usage))
  }

  // A JSON body spells a document that its schema accepts.
  ghost predicate BodyConforms(body: Body) {
    match body
    case Raw(bytes) => Decode(bytes).Some? && TextConforms(Decode(bytes).value)
    case Completed(id, text, usage) => CompletedConforming(id, text, usage)
    case Failed(id, code, message, retryable, usage) =>
      FailedConforming(id, Spelling(code), message, retryable, usage)
  }

  lemma IdentifierDecodes(id: seq<Byte>)
    requires W.Identifier(id)
    ensures Decode(id).Some? && Encode(Decode(id).value) == id
  {
    hide Encode, Decode;
    assert forall i :: 0 <= i < |id| ==> id[i] < 0x80;
    AsciiDecodes(id);
    EncodeOfDecode(id);
  }

  // What the provider alternatives become.
  lemma ProviderBodyConforms(o: Outcome, ended: Option<P.Termination>, status: int, body: Body)
    requires Producible(o, ended) && o.kind == ProviderKind
    requires PrepareOutcome(Some(o)) == Response(status, JsonMedia, body)
    ensures BodyConforms(body)
  {
    hide Accepts, SuccessRoot, FailureRoot, CompletedDocument, FailedDocument, Decode, Encode;
    hide W.Identifier, FailureCodes, Spelling, ControlSafeText, ProviderFailurePresentation;
    IdentifierDecodes(o.requestID);
    var id := Decode(o.requestID).value;
    match o.providerError
    case NoError =>
      CompletedConforms(id, Decode(o.result.outputText).value, PrepareUsage(o.result.usage, o.result.hasUsage));
    case ProviderFailure(Some(f)) =>
      MessageFits(f.code);
      SpellingListed(f.code);
      var (status, message) := ProviderFailurePresentation(f.code).value;
      FailedConforms(id, Spelling(f.code), message, f.retryable, PrepareUsage(f.usage, f.hasUsage));
    case _ =>
  }

  lemma CorrelatedBodyConforms(o: Outcome, ended: Option<P.Termination>, status: int, bytes: seq<Byte>)
    requires Producible(o, ended) && PrepareOutcome(Some(o)) == Response(status, JsonMedia, Raw(bytes))
    ensures BodyConforms(Raw(bytes))
  {
    hide Accepts, SuccessRoot, FailureRoot, Decode, Encode, W.Identifier, KnownCode, Producible;
    hide PrepareOutcome, FailureDocument, TreeJson, J.Read, CorrelatedFailureBody;
    RawJsonBody(o, ended, status, bytes);
    FailureResponseReadsBack(o, ended, status, bytes);
    IdentifierDecodes(o.requestID);
    CorrelatedConforms(Decode(o.requestID).value, o.failureCode);
  }

  /** Whatever a body, an invoker and a caller context make of each other, the response aborts, is the
      plain refusal without an identifier, or carries a document that the committed success or
      failure schema accepts. */
  lemma {:induction false} ResponsesConform(read: B.Result, lexer: E.Lexer, behaviour: E.Behaviour, calls: nat,
                                            before: Option<P.Termination>)
    ensures match PrepareOutcome(Some(E.Executed(read, lexer, behaviour, calls, before).outcome))
      case Abort => true
      case Response(status, PlainMedia, body) => status == 400 && body == Raw(Encode("invalid request\n"))
      case Response(_, JsonMedia, body) => BodyConforms(body)
  {
    hide *;
    var e := E.Executed(read, lexer, behaviour, calls, before);
    ExecutedProducible(read, lexer, behaviour, calls, before);
    ProducedConform(e.outcome, e.ended);
  }

  lemma ProducedConform(o: Outcome, ended: Option<P.Termination>)
    requires Producible(o, ended)
    ensures match PrepareOutcome(Some(o))
      case Abort => true
      case Response(status, PlainMedia, body) => status == 400 && body == Raw(Encode("invalid request\n"))
      case Response(_, JsonMedia, body) => BodyConforms(body)
  {
    hide BodyConforms, SuccessRoot, FailureRoot, Encode;
    var response := PrepareOutcome(Some(o));
    if response.Response? && response.media.JsonMedia? {
      if o.kind == ProviderKind {
        ProviderBodyConforms(o, ended, response.status, response.body);
      } else {
        CorrelatedBodyConforms(o, ended, response.status, response.body.bytes);
      }
    } else {
      PresentedAsIntended(o, ended);
    }
  }
}
