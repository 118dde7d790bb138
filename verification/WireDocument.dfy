/** What an admitted request document says, stated from its members and independently of the decoder. */
module WireDocument {
  import opened Json
  import opened Options
  import P = Provider
  import opened ScalarText
  import opened Utf8
  import opened WireRequest

  // The member of this name is a string with this UTF-8.
  predicate Says(obj: Object, name: string, text: seq<Byte>) {
    match Lookup(obj, name)
    case Some(JStr(t)) => Encode(t) == text
    case _ => false
  }

  predicate SpellsMessage(v: Json, m: P.Message) {
    v.JObj? && |v.members| == 2
    && (m.role == P.User || m.role == P.Assistant)
    && (m.role == P.User <==> Lookup(v.members, "role") == Some(JStr("user")))
    && (m.role == P.Assistant <==> Lookup(v.members, "role") == Some(JStr("assistant")))
    && Says(v.members, "content", m.content)
  }

  predicate SpellsInstruction(v: Json, i: P.Instruction) {
    v.JObj? && |v.members| == 2 && Says(v.members, "source", i.source) && Says(v.members, "content", i.content)
  }

  predicate SpellsMessages(v: Option<Json>, messages: seq<P.Message>) {
    match v
    case Some(JArr(items)) =>
      |items| == |messages| && forall i | 0 <= i < |items| :: SpellsMessage(items[i], messages[i])
    case _ => false
  }

  predicate SpellsInstructions(v: Option<Json>, instructions: seq<P.Instruction>) {
    match v
    case Some(JArr(items)) =>
      |items| == |instructions| && forall i | 0 <= i < |items| :: SpellsInstruction(items[i], instructions[i])
    case _ => false
  }

  predicate SpellsCapabilities(v: Option<Json>, capabilities: seq<seq<Byte>>) {
    match v
    case Some(JArr(items)) =>
      |items| == |capabilities| && forall i | 0 <= i < |items| ::
        items[i] == JStr("tool_calls") && capabilities[i] == Encode("tool_calls")
    case _ => false
  }

  // The object's seven members, in any order, say what the wire request holds.
  predicate Spells(root: Object, wire: Wire) {
    |root| == 7
    && Lookup(root, "version") == Some(JStr("v1"))
    && Lookup(root, "kind") == Some(JStr("model_turn.request"))
    && Says(root, "request_id", wire.requestID) && Says(root, "model_alias", wire.modelAlias)
    && SpellsMessages(Lookup(root, "conversation"), wire.conversation)
    && SpellsInstructions(Lookup(root, "instructions"), wire.instructions)
    && SpellsCapabilities(Lookup(root, "required_capabilities"), wire.requiredCapabilities)
  }

  predicate TextsFit(messages: seq<P.Message>) {
    forall i | 0 <= i < |messages| :: ValidText(messages[i].content, 1, 65536, false)
  }

  predicate InstructionsFit(instructions: seq<P.Instruction>) {
    forall i | 0 <= i < |instructions| ::
      ValidText(instructions[i].source, 1, 256, true) && ValidText(instructions[i].content, 1, 65536, false)
  }

  // The limits of model-turn v1, on what is said.
  predicate WithinLimits(wire: Wire) {
    Identifier(wire.requestID) && Identifier(wire.modelAlias)
    && 1 <= |wire.conversation| <= 64 && |wire.instructions| <= 32 && |wire.requiredCapabilities| <= 1
    && TextsFit(wire.conversation) && InstructionsFit(wire.instructions)
  }

  predicate Requests(root: Object, wire: Wire) { Spells(root, wire) && WithinLimits(wire) }

  lemma SaysField(obj: Object, name: string, text: seq<Byte>)
    ensures Says(obj, name, text) <==> DecodeString(Lookup(obj, name)) == Some(text)
    ensures Says(obj, name, text) ==> Has(obj, name) && Field(obj, name) == text
  {
  }

  lemma SaysWord(obj: Object, name: string, word: string)
    ensures StringField(obj, name, word) <==> Lookup(obj, name) == Some(JStr(word))
  {
    hide Encode;
    match Lookup(obj, name)
    case Some(JStr(t)) =>
      if Encode(t) == Encode(word) {
        EncodeInjective(t, word);
      }
    case _ =>
  }

  lemma RolesDiffer()
    ensures "user" != "assistant" && JStr("user") != JStr("assistant")
  {
    assert |"user"| != |"assistant"|;
  }

  lemma PairNames(obj: Object, a: string, b: string)
    ensures ExactFields(obj, [a, b]) <==> |obj| == 2 && Has(obj, a) && Has(obj, b)
  {
    hide Has;
    assert [a, b][0] == a && [a, b][1] == b;
  }

  /** A message decodes to what its two members say, and to nothing else. */
  lemma {:induction false} MessageExact(v: Json, m: P.Message)
    ensures GoodMessage(v) && MessageOf(v) == m <==> SpellsMessage(v, m) && ValidText(m.content, 1, 65536, false)
  {
    if v.JObj? {
      PairNames(v.members, "role", "content");
      SaysWord(v.members, "role", "user");
      SaysWord(v.members, "role", "assistant");
      SaysField(v.members, "content", m.content);
      RolesDiffer();
      hide ExactFields, Encode, ValidText, Has, StringField;
    }
  }

  lemma {:induction false} InstructionExact(v: Json, i: P.Instruction)
    ensures GoodInstruction(v) && InstructionOf(v) == i <==>
      SpellsInstruction(v, i) && ValidText(i.source, 1, 256, true) && ValidText(i.content, 1, 65536, false)
  {
    if v.JObj? {
      PairNames(v.members, "source", "content");
      SaysField(v.members, "source", i.source);
      SaysField(v.members, "content", i.content);
      hide ExactFields, Encode, ValidText, Has;
    }
  }

  lemma {:induction false} MessagesExact(items: seq<Json>, messages: seq<P.Message>)
    ensures AllMessages(items) && Messages(items) == messages <==>
      SpellsMessages(Some(JArr(items)), messages) && TextsFit(messages)
  {
    hide GoodMessage, MessageOf, SpellsMessage, ValidText;
    if |items| == |messages| {
      forall i | 0 <= i < |items|
        ensures GoodMessage(items[i]) && MessageOf(items[i]) == messages[i] <==>
          SpellsMessage(items[i], messages[i]) && ValidText(messages[i].content, 1, 65536, false)
      {
        MessageExact(items[i], messages[i]);
      }
      if AllMessages(items) && forall i | 0 <= i < |items| :: MessageOf(items[i]) == messages[i] {
        assert Messages(items) == messages;
      }
    }
  }

  lemma {:induction false} InstructionsExact(items: seq<Json>, instructions: seq<P.Instruction>)
    ensures AllInstructions(items) && Instructions(items) == instructions <==>
      SpellsInstructions(Some(JArr(items)), instructions) && InstructionsFit(instructions)
  {
    hide GoodInstruction, InstructionOf, SpellsInstruction, ValidText;
    if |items| == |instructions| {
      forall i | 0 <= i < |items|
        ensures GoodInstruction(items[i]) && InstructionOf(items[i]) == instructions[i] <==>
          SpellsInstruction(items[i], instructions[i]) && ValidText(instructions[i].source, 1, 256, true)
          && ValidText(instructions[i].content, 1, 65536, false)
      {
        InstructionExact(items[i], instructions[i]);
      }
      if AllInstructions(items) && forall i | 0 <= i < |items| :: InstructionOf(items[i]) == instructions[i] {
        assert Instructions(items) == instructions;
      }
    }
  }

  lemma CapabilitiesExact(items: seq<Json>, capabilities: seq<seq<Byte>>)
    ensures AllCapabilities(items) && Capabilities(items) == capabilities <==>
      SpellsCapabilities(Some(JArr(items)), capabilities)
  {
    hide Encode;
    if SpellsCapabilities(Some(JArr(items)), capabilities) {
      assert Capabilities(items) == capabilities;
    }
  }

  lemma RootNames(root: Object)
    ensures ExactFields(root, ROOT_FIELDS) <==>
      |root| == 7 && Has(root, "version") && Has(root, "kind") && Has(root, "request_id") && Has(root, "model_alias")
      && Has(root, "conversation") && Has(root, "instructions") && Has(root, "required_capabilities")
  {
    hide Has;
    var f := ROOT_FIELDS;
    assert |f| == 7 && f[0] == "version" && f[1] == "kind" && f[2] == "request_id" && f[3] == "model_alias"
      && f[4] == "conversation" && f[5] == "instructions" && f[6] == "required_capabilities";
  }

  // What the decoder takes from the four text members.
  predicate SaysHeader(root: Object, wire: Wire) {
    GoodHeader(root) && Field(root, "request_id") == wire.requestID && Field(root, "model_alias") == wire.modelAlias
  }

  lemma HeaderExact(root: Object, wire: Wire)
    ensures SaysHeader(root, wire) <==>
      ExactFields(root, ROOT_FIELDS)
      && Lookup(root, "version") == Some(JStr("v1")) && Lookup(root, "kind") == Some(JStr("model_turn.request"))
      && Says(root, "request_id", wire.requestID) && Says(root, "model_alias", wire.modelAlias)
      && Identifier(wire.requestID) && Identifier(wire.modelAlias)
  {
    SaysWord(root, "version", "v1");
    SaysWord(root, "kind", "model_turn.request");
    SaysField(root, "request_id", wire.requestID);
    SaysField(root, "model_alias", wire.modelAlias);
    hide ExactFields, StringField, Identifier, Encode, Has;
  }

  // One list member: within its bounds in the document exactly when what it says is.
  lemma ConversationExact(root: Object, wire: Wire)
    ensures (ListField(root, "conversation", 1, 64) && AllMessages(List(root, "conversation"))
             && Messages(List(root, "conversation")) == wire.conversation) <==>
      SpellsMessages(Lookup(root, "conversation"), wire.conversation)
      && 1 <= |wire.conversation| <= 64 && TextsFit(wire.conversation)
  {
    MessagesExact(List(root, "conversation"), wire.conversation);
    hide Has, GoodMessage, MessageOf, SpellsMessage, TextsFit;
  }

  lemma InstructionListExact(root: Object, wire: Wire)
    ensures (ListField(root, "instructions", 0, 32) && AllInstructions(List(root, "instructions"))
             && Instructions(List(root, "instructions")) == wire.instructions) <==>
      SpellsInstructions(Lookup(root, "instructions"), wire.instructions)
      && |wire.instructions| <= 32 && InstructionsFit(wire.instructions)
  {
    InstructionsExact(List(root, "instructions"), wire.instructions);
    hide Has, GoodInstruction, InstructionOf, SpellsInstruction, InstructionsFit;
  }

  lemma CapabilityListExact(root: Object, wire: Wire)
    ensures (ListField(root, "required_capabilities", 0, 1) && AllCapabilities(List(root, "required_capabilities"))
             && Capabilities(List(root, "required_capabilities")) == wire.requiredCapabilities) <==>
      SpellsCapabilities(Lookup(root, "required_capabilities"), wire.requiredCapabilities)
      && |wire.requiredCapabilities| <= 1
  {
    CapabilitiesExact(List(root, "required_capabilities"), wire.requiredCapabilities);
    hide Has, GoodCapability, Encode;
  }

  lemma WirePresent(root: Object, wire: Wire)
    ensures Spells(root, wire) ==>
      |root| == 7 && Has(root, "version") && Has(root, "kind") && Has(root, "request_id") && Has(root, "model_alias")
      && Has(root, "conversation") && Has(root, "instructions") && Has(root, "required_capabilities")
  {
    hide Has, Encode, SpellsMessage, SpellsInstruction;
  }

  /** The decoder's result, stated from the document alone: an object decodes to a wire request exactly when
      its members, in any order, say that request and the request is within the limits. */
  lemma {:induction false} DecodeExact(root: Object, wire: Wire)
    ensures Admissible(root) && WireOf(root) == wire <==> Requests(root, wire)
  {
    RootNames(root);
    WirePresent(root, wire);
    HeaderExact(root, wire);
    ConversationExact(root, wire);
    InstructionListExact(root, wire);
    CapabilityListExact(root, wire);
    hide Has, Identifier, AllMessages, AllInstructions, AllCapabilities, Messages, Instructions, Capabilities;
    hide Says, ListField, Field, ExactFields, SpellsMessages, SpellsInstructions, SpellsCapabilities, StringField;
    hide TextsFit, InstructionsFit, Lookup, List, IdentifierField;
  }

  // ---- printing ----

  // A request that can be written down: within the limits, in known words.
  predicate Writable(wire: Wire) {
    WithinLimits(wire)
    && (forall i | 0 <= i < |wire.conversation| :: wire.conversation[i].role in {P.User, P.Assistant})
    && (forall i | 0 <= i < |wire.requiredCapabilities| :: wire.requiredCapabilities[i] == Encode("tool_calls"))
  }

  function Text(bytes: seq<Byte>): Json
    requires Decode(bytes).Some?
  {
    JStr(Decode(bytes).value)
  }

  function PrintMessage(m: P.Message): Json
    requires Decode(m.content).Some?
  {
    JObj([Member("role", JStr(if m.role == P.Assistant then "assistant" else "user")),
          Member("content", Text(m.content))])
  }

  function PrintInstruction(i: P.Instruction): Json
    requires Decode(i.source).Some? && Decode(i.content).Some?
  {
    JObj([Member("source", Text(i.source)), Member("content", Text(i.content))])
  }

  function Print(wire: Wire): Object
    requires Writable(wire)
  {
    IdentifierBytes(wire.requestID);
    IdentifierBytes(wire.modelAlias);
    [Member("version", JStr("v1")), Member("kind", JStr("model_turn.request")),
     Member("request_id", Text(wire.requestID)), Member("model_alias", Text(wire.modelAlias)),
     Member("conversation", JArr(seq(|wire.conversation|,
       i requires 0 <= i < |wire.conversation| => PrintMessage(wire.conversation[i])))),
     Member("instructions", JArr(seq(|wire.instructions|,
       i requires 0 <= i < |wire.instructions| => PrintInstruction(wire.instructions[i])))),
     Member("required_capabilities", JArr(seq(|wire.requiredCapabilities|,
       i requires 0 <= i < |wire.requiredCapabilities| => JStr("tool_calls"))))]
  }

  lemma IdentifierBytes(id: seq<Byte>)
    requires Identifier(id)
    ensures Decode(id).Some?
  {
    assert forall i :: 0 <= i < |id| ==> id[i] < 0x80;
    AsciiDecodes(id);
  }

  lemma TextSays(obj: Object, i: nat, bytes: seq<Byte>)
    requires DistinctNames(obj) && i < |obj| && Decode(bytes).Some? && obj[i].value == Text(bytes)
    ensures Says(obj, obj[i].name, bytes)
  {
    hide Encode, Decode;
    GetAt(obj, i);
    EncodeOfDecode(bytes);
  }

  lemma MessagePrinted(m: P.Message)
    requires Decode(m.content).Some? && m.role in {P.User, P.Assistant}
    ensures SpellsMessage(PrintMessage(m), m)
  {
    hide Encode, Decode;
    RolesDiffer();
    var obj := PrintMessage(m).members;
    assert obj[0].name == "role" && obj[1].name == "content" && |obj[0].name| != |obj[1].name|;
    GetAt(obj, 0);
    TextSays(obj, 1, m.content);
  }

  lemma InstructionPrinted(i: P.Instruction)
    requires Decode(i.source).Some? && Decode(i.content).Some?
    ensures SpellsInstruction(PrintInstruction(i), i)
  {
    hide Encode, Decode;
    var obj := PrintInstruction(i).members;
    assert obj[0].name == "source" && obj[1].name == "content" && |obj[0].name| != |obj[1].name|;
    TextSays(obj, 0, i.source);
    TextSays(obj, 1, i.content);
  }

  lemma PrintedNames(wire: Wire)
    requires Writable(wire)
    ensures DistinctNames(Print(wire))
  {
    hide Writable, Text, PrintMessage, PrintInstruction;
    var obj := Print(wire);
    assert |obj[0].name| == 7 && |obj[1].name| == 4 && |obj[2].name| == 10 && |obj[3].name| == 11
      && |obj[4].name| == 12 && |obj[5].name| == 12 && |obj[6].name| == 21;
    assert obj[4].name[0] == 'c' && obj[5].name[0] == 'i';
  }

  lemma ListsPrinted(wire: Wire)
    requires Writable(wire)
    ensures SpellsMessages(Some(Print(wire)[4].value), wire.conversation)
    ensures SpellsInstructions(Some(Print(wire)[5].value), wire.instructions)
    ensures SpellsCapabilities(Some(Print(wire)[6].value), wire.requiredCapabilities)
  {
    hide PrintMessage, PrintInstruction, SpellsMessage, SpellsInstruction, Encode, Identifier, Text, Decode;
    forall i | 0 <= i < |wire.conversation|
      ensures SpellsMessage(PrintMessage(wire.conversation[i]), wire.conversation[i])
    {
      MessagePrinted(wire.conversation[i]);
    }
    forall i | 0 <= i < |wire.instructions|
      ensures SpellsInstruction(PrintInstruction(wire.instructions[i]), wire.instructions[i])
    {
      InstructionPrinted(wire.instructions[i]);
    }
  }

  lemma PrintSays(wire: Wire)
    requires Writable(wire)
    ensures Spells(Print(wire), wire)
  {
    hide PrintMessage, PrintInstruction, Encode, Identifier, Decode, Text, Says;
    hide SpellsMessages, SpellsInstructions, SpellsCapabilities, DistinctNames, Has;
    PrintedNames(wire);
    ListsPrinted(wire);
    IdentifierBytes(wire.requestID);
    IdentifierBytes(wire.modelAlias);
    var obj := Print(wire);
    GetAt(obj, 0);
    GetAt(obj, 1);
    TextSays(obj, 2, wire.requestID);
    TextSays(obj, 3, wire.modelAlias);
    GetAt(obj, 4);
    GetAt(obj, 5);
    GetAt(obj, 6);
  }

  /** Round trip: a request written down with its members in any order decodes to that request. */
  lemma {:induction false} PrintedDecodes(wire: Wire, root: Object)
    requires Writable(wire) && SameMembers(root, Print(wire))
    ensures Admissible(root) && WireOf(root) == wire
  {
    hide Print, Spells, Admissible, WireOf, SameMembers;
    PrintSays(wire);
    OrderIrrelevant(root, Print(wire), wire);
    WritableFits(wire);
    DecodeExact(root, wire);
  }

  lemma WritableFits(wire: Wire)
    requires Writable(wire)
    ensures WithinLimits(wire)
  {
  }

  // The same members, in any order.
  predicate SameMembers(a: Object, b: Object) { multiset(a) == multiset(b) && DistinctNames(a) && DistinctNames(b) }

  lemma {:induction false} OrderIrrelevant(a: Object, b: Object, wire: Wire)
    requires SameMembers(a, b)
    ensures Spells(a, wire) <==> Spells(b, wire)
  {
    forall name ensures Lookup(a, name) == Lookup(b, name) {
      SameLookup(a, b, name);
    }
    assert |a| == |multiset(a)| == |multiset(b)| == |b|;
    hide Lookup, Says, SpellsMessages, SpellsInstructions, SpellsCapabilities;
  }

  lemma SameLookup(a: Object, b: Object, name: string)
    requires SameMembers(a, b)
    ensures Lookup(a, name) == Lookup(b, name)
  {
    assert forall m :: m in a <==> m in multiset(a);
    assert forall m :: m in b <==> m in multiset(b);
    if Has(a, name) {
      var m := a[IndexOf(a, name)];
      assert m in b;
      var j :| 0 <= j < |b| && b[j] == m;
      GetAt(b, j);
    }
  }
}
