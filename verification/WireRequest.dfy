/** `decodeWireRequest`: the exact decoder from one strict JSON object to an admitted request. Go
    strings are UTF-8 bytes; a decoded object is its members, read by name. */
module WireRequest {
  import opened Json
  import opened Options
  import P = Provider
  import opened ScalarText
  import opened Utf8

  const SUPPORTED_ALIAS := "learning-text"
  const MAX_IDENTIFIER_BYTES := 128

  datatype Wire = Wire(
    requestID: seq<Byte>,
    modelAlias: seq<Byte>,
    conversation: seq<P.Message>,
    instructions: seq<P.Instruction>,
    requiredCapabilities: seq<seq<Byte>>)

  type Object = seq<Member>

  // ---- what decodes to what ----

  // `decodeString`: a JSON string as UTF-8; a missing member is not a string.
  function DecodeString(raw: Option<Json>): Option<seq<Byte>> {
    match raw
    case Some(JStr(s)) => Some(Encode(s))
    case _ => None
  }

  // `decodeArray`
  function DecodeArray(raw: Option<Json>): Option<seq<Json>> {
    match raw
    case Some(JArr(items)) => Some(items)
    case _ => None
  }

  predicate AlphaNumericByte(b: Byte) {
    0x41 <= b <= 0x5A || 0x61 <= b <= 0x7A || 0x30 <= b <= 0x39
  }

  predicate IdentifierByte(b: Byte) {
    AlphaNumericByte(b) || b == 0x2E || b == 0x5F || b == 0x3A || b == 0x2D
  }

  predicate Identifier(id: seq<Byte>) {
    1 <= |id| <= MAX_IDENTIFIER_BYTES && AlphaNumericByte(id[0])
    && forall i | 1 <= i < |id| :: IdentifierByte(id[i])
  }

  /** `validIdentifier`: one pass over the bytes. */
  method ValidIdentifier(id: seq<Byte>) returns (ok: bool)
    ensures ok <==> Identifier(id)
  {
    if |id| < 1 || |id| > MAX_IDENTIFIER_BYTES || !AlphaNumericByte(id[0]) {
      return false;
    }
    for i := 1 to |id|
      invariant forall j :: 1 <= j < i ==> IdentifierByte(id[j])
    {
      if !AlphaNumericByte(id[i]) && id[i] != 0x2E && id[i] != 0x5F && id[i] != 0x3A && id[i] != 0x2D {
        return false;
      }
    }
    return true;
  }

  // Exactly these members, in any order.
  predicate ExactFields(obj: Object, fields: seq<string>) {
    |obj| == |fields| && forall i | 0 <= i < |fields| :: Has(obj, fields[i])
  }

  /** `hasExactFields` */
  method HasExactFields(obj: Object, fields: seq<string>) returns (ok: bool)
    ensures ok <==> ExactFields(obj, fields)
  {
    if |obj| != |fields| {
      return false;
    }
    for i := 0 to |fields|
      invariant forall j :: 0 <= j < i ==> Has(obj, fields[j])
    {
      if !Has(obj, fields[i]) {
        return false;
      }
    }
    return true;
  }

  // `safeRequestID`
  function SafeRequestID(root: Object): Option<seq<Byte>> {
    match DecodeString(Lookup(root, "request_id"))
    case None => None
    case Some(id) => if Identifier(id) then Some(id) else None
  }

  // A string member of this object that satisfies the text rule.
  predicate TextField(obj: Object, name: string, maximum: int, rejectControls: bool) {
    match DecodeString(Lookup(obj, name))
    case None => false
    case Some(text) => ValidText(text, 1, maximum, rejectControls)
  }

  predicate StringField(obj: Object, name: string, value: string) {
    DecodeString(Lookup(obj, name)) == Some(Encode(value))
  }

  function Field(obj: Object, name: string): seq<Byte> {
    match DecodeString(Lookup(obj, name))
    case None => []
    case Some(text) => text
  }

  predicate GoodMessage(v: Json) {
    v.JObj? && ExactFields(v.members, ["role", "content"])
    && (StringField(v.members, "role", "user") || StringField(v.members, "role", "assistant"))
    && TextField(v.members, "content", P.MAX_MESSAGE_TEXT_RUNES, false)
  }

  function MessageOf(v: Json): P.Message
    requires GoodMessage(v)
  {
    P.Message(if StringField(v.members, "role", "assistant") then P.Assistant else P.User,
              Field(v.members, "content"))
  }

  predicate GoodInstruction(v: Json) {
    v.JObj? && ExactFields(v.members, ["source", "content"])
    && TextField(v.members, "source", P.MAX_INSTRUCTION_SOURCE_RUNES, true)
    && TextField(v.members, "content", P.MAX_INSTRUCTION_TEXT_RUNES, false)
  }

  function InstructionOf(v: Json): P.Instruction
    requires GoodInstruction(v)
  {
    P.Instruction(Field(v.members, "source"), Field(v.members, "content"))
  }

  predicate GoodCapability(v: Json) { v == JStr("tool_calls") }

  const ROOT_FIELDS := ["version", "kind", "request_id", "model_alias", "conversation",
                        "instructions", "required_capabilities"]

  predicate IdentifierField(obj: Object, name: string) {
    match DecodeString(Lookup(obj, name))
    case None => false
    case Some(id) => Identifier(id)
  }

  // The list under this name, when it is one.
  function List(obj: Object, name: string): seq<Json> {
    match DecodeArray(Lookup(obj, name))
    case None => []
    case Some(items) => items
  }

  predicate ListField(obj: Object, name: string, minimum: int, maximum: int) {
    DecodeArray(Lookup(obj, name)).Some? && minimum <= |List(obj, name)| <= maximum
  }

  predicate AllMessages(items: seq<Json>) { forall i | 0 <= i < |items| :: GoodMessage(items[i]) }
  predicate AllInstructions(items: seq<Json>) { forall i | 0 <= i < |items| :: GoodInstruction(items[i]) }
  predicate AllCapabilities(items: seq<Json>) { forall i | 0 <= i < |items| :: GoodCapability(items[i]) }

  predicate GoodHeader(root: Object) {
    ExactFields(root, ROOT_FIELDS)
    && StringField(root, "version", "v1") && StringField(root, "kind", "model_turn.request")
    && IdentifierField(root, "request_id") && IdentifierField(root, "model_alias")
  }

  // Everything a model-turn v1 request object must be.
  predicate Admissible(root: Object) {
    GoodHeader(root)
    && ListField(root, "conversation", 1, P.MAX_CONVERSATION_MESSAGES)
    && AllMessages(List(root, "conversation"))
    && ListField(root, "instructions", 0, P.MAX_INSTRUCTIONS)
    && AllInstructions(List(root, "instructions"))
    && ListField(root, "required_capabilities", 0, P.MAX_REQUIRED_CAPABILITIES)
    && AllCapabilities(List(root, "required_capabilities"))
  }

  function Messages(items: seq<Json>): (r: seq<P.Message>)
    requires AllMessages(items)
    ensures |r| == |items| && forall i :: 0 <= i < |r| ==> r[i] == MessageOf(items[i])
  {
    seq(|items|, i requires 0 <= i < |items| => MessageOf(items[i]))
  }

  function Instructions(items: seq<Json>): (r: seq<P.Instruction>)
    requires AllInstructions(items)
    ensures |r| == |items| && forall i :: 0 <= i < |r| ==> r[i] == InstructionOf(items[i])
  {
    seq(|items|, i requires 0 <= i < |items| => InstructionOf(items[i]))
  }

  function Capabilities(items: seq<Json>): (r: seq<seq<Byte>>)
    ensures |r| == |items| && forall i :: 0 <= i < |r| ==> r[i] == Encode("tool_calls")
  {
    seq(|items|, i requires 0 <= i < |items| => Encode("tool_calls"))
  }

  function WireOf(root: Object): Wire
    requires Admissible(root)
  {
    Wire(Field(root, "request_id"), Field(root, "model_alias"),
         Messages(List(root, "conversation")), Instructions(List(root, "instructions")),
         Capabilities(List(root, "required_capabilities")))
  }

  // ---- the decoder ----

  method DecodeWireMessage(raw: Json) returns (message: Option<P.Message>)
    ensures message == if GoodMessage(raw) then Some(MessageOf(raw)) else None
  {
    hide ValidText, Encode;
    if !raw.JObj? {
      return None;
    }
    var obj := raw.members;
    var exact := HasExactFields(obj, ["role", "content"]);
    if !exact {
      return None;
    }
    var role, content := DecodeString(Lookup(obj, "role")), DecodeString(Lookup(obj, "content"));
    if role.None? || (role.value != Encode("user") && role.value != Encode("assistant")) || content.None? {
      return None;
    }
    var valid := ValidScalarText(content.value, 1, P.MAX_MESSAGE_TEXT_RUNES, false);
    if !valid {
      return None;
    }
    var providerRole := P.User;
    if role.value == Encode("assistant") {
      providerRole := P.Assistant;
    }
    return Some(P.Message(providerRole, content.value));
  }

  method DecodeWireInstruction(raw: Json) returns (instruction: Option<P.Instruction>)
    ensures instruction == if GoodInstruction(raw) then Some(InstructionOf(raw)) else None
  {
    hide ValidText, Encode;
    if !raw.JObj? {
      return None;
    }
    var obj := raw.members;
    var exact := HasExactFields(obj, ["source", "content"]);
    if !exact {
      return None;
    }
    var source, content := DecodeString(Lookup(obj, "source")), DecodeString(Lookup(obj, "content"));
    if source.None? {
      return None;
    }
    var validSource := ValidScalarText(source.value, 1, P.MAX_INSTRUCTION_SOURCE_RUNES, true);
    if !validSource || content.None? {
      return None;
    }
    var validContent := ValidScalarText(content.value, 1, P.MAX_INSTRUCTION_TEXT_RUNES, false);
    if !validContent {
      return None;
    }
    return Some(P.Instruction(source.value, content.value));
  }

  method DecodeMessages(items: seq<Json>) returns (messages: Option<seq<P.Message>>)
    ensures messages == if AllMessages(items) then Some(Messages(items)) else None
  {
    hide GoodMessage, MessageOf, Messages;
    var decoded: seq<P.Message> := [];
    for i := 0 to |items|
      invariant |decoded| == i
      invariant forall j :: 0 <= j < i ==> GoodMessage(items[j]) && decoded[j] == MessageOf(items[j])
    {
      var message := DecodeWireMessage(items[i]);
      if message.None? {
        return None;
      }
      decoded := decoded + [message.value];
    }
    assert decoded == Messages(items);
    return Some(decoded);
  }

  method DecodeInstructions(items: seq<Json>) returns (instructions: Option<seq<P.Instruction>>)
    ensures instructions == if AllInstructions(items) then Some(Instructions(items)) else None
  {
    hide GoodInstruction, InstructionOf, Instructions;
    var decoded: seq<P.Instruction> := [];
    for i := 0 to |items|
      invariant |decoded| == i
      invariant forall j :: 0 <= j < i ==> GoodInstruction(items[j]) && decoded[j] == InstructionOf(items[j])
    {
      var instruction := DecodeWireInstruction(items[i]);
      if instruction.None? {
        return None;
      }
      decoded := decoded + [instruction.value];
    }
    assert decoded == Instructions(items);
    return Some(decoded);
  }

  method DecodeCapabilities(items: seq<Json>) returns (capabilities: Option<seq<seq<Byte>>>)
    ensures capabilities == if AllCapabilities(items) then Some(Capabilities(items)) else None
  {
    hide Capabilities, Encode;
    var decoded: seq<seq<Byte>> := [];
    for i := 0 to |items|
      invariant |decoded| == i
      invariant forall j :: 0 <= j < i ==> GoodCapability(items[j]) && decoded[j] == Encode("tool_calls")
    {
      var capability := DecodeString(Some(items[i]));
      CapabilityText(items[i]);
      if capability.None? || capability.value != Encode("tool_calls") {
        return None;
      }
      decoded := decoded + [capability.value];
    }
    assert decoded == Capabilities(items);
    return Some(decoded);
  }

  // Bytes spell a fixed word exactly when the string is that word.
  lemma CapabilityText(v: Json)
    ensures GoodCapability(v) <==> DecodeString(Some(v)) == Some(Encode("tool_calls"))
  {
    hide Encode;
    if v.JStr? && Encode(v.text) == Encode("tool_calls") {
      EncodeInjective(v.text, "tool_calls");
    }
  }

  /** `decodeWireRequest`: succeeds on exactly the admissible objects, with their decoded content. */
  method DecodeWireRequest(root: Object) returns (wire: Option<Wire>)
    ensures wire == if Admissible(root) then Some(WireOf(root)) else None
  {
    hide Identifier, Encode, AllMessages, AllInstructions, AllCapabilities, Messages, Instructions, Capabilities;
    var exact := HasExactFields(root, ROOT_FIELDS);
    if !exact {
      return None;
    }
    hide ExactFields;
    var version, kind := DecodeString(Lookup(root, "version")), DecodeString(Lookup(root, "kind"));
    var requestID := DecodeString(Lookup(root, "request_id"));
    var alias := DecodeString(Lookup(root, "model_alias"));
    if version != Some(Encode("v1")) || kind != Some(Encode("model_turn.request"))
       || requestID.None? || alias.None? {
      return None;
    }
    var idOk := ValidIdentifier(requestID.value);
    var aliasOk := ValidIdentifier(alias.value);
    if !idOk || !aliasOk {
      return None;
    }
    var conversationRaw := DecodeArray(Lookup(root, "conversation"));
    if conversationRaw.None? || |conversationRaw.value| < 1
       || |conversationRaw.value| > P.MAX_CONVERSATION_MESSAGES {
      return None;
    }
    var conversation := DecodeMessages(conversationRaw.value);
    if conversation.None? {
      return None;
    }
    var instructionsRaw := DecodeArray(Lookup(root, "instructions"));
    if instructionsRaw.None? || |instructionsRaw.value| > P.MAX_INSTRUCTIONS {
      return None;
    }
    var instructions := DecodeInstructions(instructionsRaw.value);
    if instructions.None? {
      return None;
    }
    var capabilitiesRaw := DecodeArray(Lookup(root, "required_capabilities"));
    if capabilitiesRaw.None? || |capabilitiesRaw.value| > P.MAX_REQUIRED_CAPABILITIES {
      return None;
    }
    var capabilities := DecodeCapabilities(capabilitiesRaw.value);
    if capabilities.None? {
      return None;
    }
    return Some(Wire(requestID.value, alias.value, conversation.value, instructions.value, capabilities.value));
  }

  /** `mapProviderRequest` */
  method MapProviderRequest(wire: Wire) returns (request: Option<P.Request>)
    ensures request == if Mappable(wire)
                       then Some(P.Request(wire.conversation, wire.instructions, [])) else None
  {
    if |wire.conversation| < 1 || |wire.conversation| > P.MAX_CONVERSATION_MESSAGES
       || |wire.instructions| > P.MAX_INSTRUCTIONS || |wire.requiredCapabilities| != 0 {
      return None;
    }
    request := P.NewRequest(wire.conversation, wire.instructions, []);
  }

  predicate Mappable(wire: Wire) {
    wire.requiredCapabilities == [] && P.ValidRequest(P.Request(wire.conversation, wire.instructions, []))
  }

  /** Mapping never fails on a decoded request that requires no capability. */
  lemma {:induction false} DecodedMaps(root: Object)
    requires Admissible(root) && WireOf(root).requiredCapabilities == []
    ensures Mappable(WireOf(root))
  {
    hide ValidText, Encode;
    var wire := WireOf(root);
    forall i | 0 <= i < |wire.conversation| ensures P.ValidMessage(wire.conversation[i]) {
      assert GoodMessage(List(root, "conversation")[i]);
    }
    forall i | 0 <= i < |wire.instructions| ensures P.ValidInstruction(wire.instructions[i]) {
      assert GoodInstruction(List(root, "instructions")[i]);
    }
  }

  lemma SafeRequestIDDecoded(root: Object)
    requires Admissible(root)
    ensures SafeRequestID(root) == Some(WireOf(root).requestID)
  {
    hide AllMessages, AllInstructions, AllCapabilities, Identifier, ExactFields;
  }
}
