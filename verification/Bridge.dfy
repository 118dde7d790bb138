/** One contract, written twice: the Go decoder and the Python interpreter run on the request
    schema give the same verdict on every strict document with an object root. */
module Bridge {
  import opened Json
  import opened Options
  import opened RequestSchema
  import opened ScalarText
  import opened SchemaNodes
  import opened SchemaProfile
  import T = TokenWalk
  import opened Utf8
  import opened Validator
  import opened WireRequest

  // ---- strings: UTF-8 bytes against code points ----

  lemma Separator(c: char)
    ensures c in "._:-" <==> c == '.' || c == '_' || c == ':' || c == '-'
  {
  }

  lemma IdentifierCharacter(c: char, b: Byte)
    requires b == c as int
    ensures AlphaNumericByte(b) <==> AsciiAlphaNumeric(c)
    ensures IdentifierByte(b) <==> AsciiAlphaNumeric(c) || c in "._:-"
  {
    Separator(c);
  }

  lemma IdentifierBytes(s: string)
    requires Ascii(s)
    ensures Identifier(Encode(s)) <==> 1 <= |s| <= 128 && IdentifierText(s)
  {
    EncodeAscii(s);
    hide Encode, AlphaNumericByte, IdentifierByte, AsciiAlphaNumeric;
    forall i | 0 <= i < |s|
      ensures AlphaNumericByte(Encode(s)[i]) <==> AsciiAlphaNumeric(s[i])
      ensures IdentifierByte(Encode(s)[i]) <==> AsciiAlphaNumeric(s[i]) || s[i] in "._:-"
    {
      IdentifierCharacter(s[i], Encode(s)[i]);
    }
  }

  lemma IdentifierTextAscii(s: string)
    requires IdentifierText(s)
    ensures Ascii(s)
  {
    forall i | 0 <= i < |s| ensures s[i] as int < 0x80 {
      Separator(s[i]);
    }
  }

  /** 128 bytes and the byte class on one side, 128 code points and the pattern on the other. */
  lemma {:induction false} IdentifierBridge(s: string)
    ensures Identifier(Encode(s)) <==> 1 <= |s| <= 128 && IdentifierText(s)
  {
    hide Encode;
    if Identifier(Encode(s)) {
      assert forall i :: 0 <= i < |Encode(s)| ==> Encode(s)[i] < 0x80;
      AsciiBytes(s);
      IdentifierBytes(s);
    } else if IdentifierText(s) {
      IdentifierTextAscii(s);
      IdentifierBytes(s);
    }
  }

  // ---- one field of an object ----

  // The named member is present and its value conforms to this node.
  ghost predicate FieldConforms(obj: Object, name: string, node: Json)
    requires NodeOk(node)
  {
    Has(obj, name) && Conforms(Get(obj, name), node)
  }

  lemma ConstField(obj: Object, name: string, value: string)
    ensures NodeOk(ConstNode(value))
    ensures StringField(obj, name, value) <==> FieldConforms(obj, name, ConstNode(value))
  {
    ConstNodeMeans(if Has(obj, name) then Get(obj, name) else JNull, value);
    hide NodeOk, Conforms, ConstNode, Encode;
    if Has(obj, name) && Get(obj, name).JStr? && Encode(Get(obj, name).text) == Encode(value) {
      EncodeInjective(Get(obj, name).text, value);
    }
  }

  lemma IdentifierNodeField(obj: Object, name: string)
    ensures NodeOk(IdentifierNode())
    ensures IdentifierField(obj, name) <==> FieldConforms(obj, name, IdentifierNode())
  {
    hide NodeOk, Conforms, PatternNode, Encode, Identifier, IdentifierText, Has;
    PatternNodeMeans(if Has(obj, name) then Get(obj, name) else JNull, 1, 128, IDENTIFIER_PATTERN);
    PatternsDiffer();
    if Has(obj, name) && Get(obj, name).JStr? {
      IdentifierBridge(Get(obj, name).text);
    }
  }

  lemma ContentField(obj: Object, name: string)
    ensures NodeOk(TextNode(1, 65536))
    ensures TextField(obj, name, 65536, false) <==> FieldConforms(obj, name, TextNode(1, 65536))
  {
    hide NodeOk, Conforms, TextNode, Encode, ValidText, Has;
    TextNodeMeans(if Has(obj, name) then Get(obj, name) else JNull, 1, 65536);
    if Has(obj, name) && Get(obj, name).JStr? {
      ValidTextEncoded(Get(obj, name).text, 1, 65536, false);
    }
  }

  lemma ControlSafe(s: string)
    ensures MatchesPattern(CONTROL_SAFE_PATTERN, s) <==> s != "" && NoUnsafe(s)
    ensures MatchesPattern(IDENTIFIER_PATTERN, s) <==> IdentifierText(s)
  {
    PatternsDiffer();
  }

  lemma SourceField(obj: Object, name: string)
    ensures NodeOk(PatternNode(1, 256, CONTROL_SAFE_PATTERN))
    ensures TextField(obj, name, 256, true) <==>
            FieldConforms(obj, name, PatternNode(1, 256, CONTROL_SAFE_PATTERN))
  {
    PatternNodeMeans(if Has(obj, name) then Get(obj, name) else JNull, 1, 256, CONTROL_SAFE_PATTERN);
    hide NodeOk, Conforms, PatternNode, Encode, ValidText, NoUnsafe, MatchesPattern;
    if Has(obj, name) && Get(obj, name).JStr? {
      ValidTextEncoded(Get(obj, name).text, 1, 256, true);
      ControlSafe(Get(obj, name).text);
    }
  }

  lemma RoleText(text: string)
    ensures text in ["user", "assistant"] <==> text == "user" || text == "assistant"
    ensures text in ["user", "assistant"] <==> Encode(text) == Encode("user") || Encode(text) == Encode("assistant")
  {
    var roles := ["user", "assistant"];
    assert roles[0] == "user" && roles[1] == "assistant";
    hide Encode;
    if Encode(text) == Encode("user") { EncodeInjective(text, "user"); }
    if Encode(text) == Encode("assistant") { EncodeInjective(text, "assistant"); }
  }

  lemma RoleField(obj: Object, name: string)
    ensures NodeOk(EnumNode(["user", "assistant"]))
    ensures StringField(obj, name, "user") || StringField(obj, name, "assistant") <==>
            FieldConforms(obj, name, EnumNode(["user", "assistant"]))
  {
    hide NodeOk, Conforms, EnumNode, Encode;
    if Has(obj, name) {
      EnumNodeMeans(Get(obj, name), ["user", "assistant"]);
      if Get(obj, name).JStr? {
        RoleText(Get(obj, name).text);
      }
    } else {
      EnumNodeMeans(JNull, ["user", "assistant"]);
    }
  }

  // ---- objects ----

  lemma PairExact(obj: Object, a: string, b: string)
    ensures ExactFields(obj, [a, b]) <==> |obj| == 2 && Has(obj, a) && Has(obj, b)
  {
    hide Has;
    assert [a, b][0] == a && [a, b][1] == b;
  }

  lemma {:induction false} PairBridge(v: Json, a: string, x: Json, b: string, y: Json)
    requires NodeOk(x) && NodeOk(y) && Unique(v)
    requires var fields := [Member(a, x), Member(b, y)]; ClosedOver(ObjectKeywords(fields, fields), fields)
    ensures NodeOk(ObjectNode([Member(a, x), Member(b, y)]))
    ensures Conforms(v, ObjectNode([Member(a, x), Member(b, y)])) <==>
      v.JObj? && ExactFields(v.members, [a, b])
      && FieldConforms(v.members, a, x) && FieldConforms(v.members, b, y)
  {
    hide NodeOk, Conforms, ClosedOver, ObjectKeywords, Has, ExactFields, Unique, FieldConforms;
    var fields := [Member(a, x), Member(b, y)];
    UniqueNames(v);
    ClosedOverMeans(v, ObjectKeywords(fields, fields), fields);
    if v.JObj? {
      PairExact(v.members, a, b);
      PairFields(v.members, a, x, b, y);
    }
  }

  lemma UniqueNames(v: Json)
    requires Unique(v)
    ensures v.JObj? ==> DistinctNames(v.members)
  {
  }

  lemma PairFields(obj: Object, a: string, x: Json, b: string, y: Json)
    requires NodeOk(x) && NodeOk(y)
    ensures var fields := [Member(a, x), Member(b, y)];
      (forall i :: 0 <= i < |fields| ==>
         Has(obj, fields[i].name) && Conforms(Get(obj, fields[i].name), fields[i].value)) <==>
      FieldConforms(obj, a, x) && FieldConforms(obj, b, y)
    ensures FieldConforms(obj, a, x) ==> Has(obj, a)
    ensures FieldConforms(obj, b, y) ==> Has(obj, b)
  {
    hide NodeOk, Conforms, Has;
    var fields := [Member(a, x), Member(b, y)];
    assert fields[0] == Member(a, x) && fields[1] == Member(b, y) && |fields| == 2;
  }

  lemma {:induction false} MessageBridge(v: Json)
    requires Unique(v)
    ensures NodeOk(ObjectNode(MessageFields()))
    ensures GoodMessage(v) <==> Conforms(v, ObjectNode(MessageFields()))
  {
    hide NodeOk, Conforms, ClosedOver, ObjectNode, ObjectKeywords, EnumNode, TextNode;
    hide StringField, TextField, Unique, ExactFields, FieldConforms;
    MessageNodeOk();
    RoleField([], "role");
    ContentField([], "content");
    PairBridge(v, "role", EnumNode(["user", "assistant"]), "content", TextNode(1, 65536));
    if v.JObj? {
      RoleField(v.members, "role");
      ContentField(v.members, "content");
    }
  }

  lemma {:induction false} InstructionBridge(v: Json)
    requires Unique(v)
    ensures NodeOk(ObjectNode(InstructionFields()))
    ensures GoodInstruction(v) <==> Conforms(v, ObjectNode(InstructionFields()))
  {
    hide NodeOk, Conforms, ClosedOver, ObjectNode, ObjectKeywords, PatternNode, TextNode;
    hide TextField, Unique, ExactFields, FieldConforms;
    InstructionNodeOk();
    SourceField([], "source");
    ContentField([], "content");
    PairBridge(v, "source", PatternNode(1, 256, CONTROL_SAFE_PATTERN), "content", TextNode(1, 65536));
    if v.JObj? {
      SourceField(v.members, "source");
      ContentField(v.members, "content");
    }
  }

  lemma CapabilityBridge(v: Json)
    ensures NodeOk(EnumNode(["tool_calls"]))
    ensures GoodCapability(v) <==> Conforms(v, EnumNode(["tool_calls"]))
  {
    var names := ["tool_calls"];
    EnumNodeMeans(v, names);
    hide NodeOk, Conforms, EnumNode;
    if v.JStr? {
      assert v.text in names <==> v.text == "tool_calls";
    }
  }

  // ---- arrays ----

  lemma ListShape(obj: Object, name: string, minimum: int, maximum: int)
    ensures ListField(obj, name, minimum, maximum) <==>
      Has(obj, name) && Get(obj, name).JArr? && minimum <= |Get(obj, name).items| <= maximum
    ensures Has(obj, name) && Get(obj, name).JArr? ==> List(obj, name) == Get(obj, name).items
  {
  }

  lemma {:induction false} ConversationField(obj: Object)
    requires Unique(JObj(obj))
    ensures NodeOk(ArrayNode(1, 64, ObjectNode(MessageFields())))
    ensures ListField(obj, "conversation", 1, 64) && AllMessages(List(obj, "conversation")) <==>
            FieldConforms(obj, "conversation", ArrayNode(1, 64, ObjectNode(MessageFields())))
  {
    hide NodeOk, Conforms, ClosedOver, ArrayNode, ObjectNode, MessageFields, GoodMessage, ListField, List, Has, Unique;
    var v := if Has(obj, "conversation") then Get(obj, "conversation") else JNull;
    MemberUnique(obj, "conversation");
    MessageNodeOk();
    ListShape(obj, "conversation", 1, 64);
    ArrayNodeMeans(v, 1, 64, ObjectNode(MessageFields()));
    if v.JArr? {
      forall i | 0 <= i < |v.items|
        ensures GoodMessage(v.items[i]) <==> Conforms(v.items[i], ObjectNode(MessageFields()))
      {
        MessageBridge(v.items[i]);
      }
    }
  }

  lemma {:induction false} InstructionsField(obj: Object)
    requires Unique(JObj(obj))
    ensures NodeOk(ArrayNode(0, 32, ObjectNode(InstructionFields())))
    ensures ListField(obj, "instructions", 0, 32) && AllInstructions(List(obj, "instructions")) <==>
            FieldConforms(obj, "instructions", ArrayNode(0, 32, ObjectNode(InstructionFields())))
  {
    hide NodeOk, Conforms, ClosedOver, ArrayNode, ObjectNode, InstructionFields, GoodInstruction, ListField, List;
    hide Has, Unique;
    var v := if Has(obj, "instructions") then Get(obj, "instructions") else JNull;
    MemberUnique(obj, "instructions");
    InstructionNodeOk();
    ListShape(obj, "instructions", 0, 32);
    ArrayNodeMeans(v, 0, 32, ObjectNode(InstructionFields()));
    if v.JArr? {
      forall i | 0 <= i < |v.items|
        ensures GoodInstruction(v.items[i]) <==> Conforms(v.items[i], ObjectNode(InstructionFields()))
      {
        InstructionBridge(v.items[i]);
      }
    }
  }

  lemma {:induction false} CapabilitiesField(obj: Object)
    ensures NodeOk(ArrayNode(0, 1, EnumNode(["tool_calls"])))
    ensures ListField(obj, "required_capabilities", 0, 1) && AllCapabilities(List(obj, "required_capabilities")) <==>
            FieldConforms(obj, "required_capabilities", ArrayNode(0, 1, EnumNode(["tool_calls"])))
  {
    hide NodeOk, Conforms, ArrayNode, EnumNode, GoodCapability, ListField, List, Has;
    var v := if Has(obj, "required_capabilities") then Get(obj, "required_capabilities") else JNull;
    CapabilityBridge(JNull);
    ListShape(obj, "required_capabilities", 0, 1);
    ArrayNodeMeans(v, 0, 1, EnumNode(["tool_calls"]));
    if v.JArr? {
      forall i | 0 <= i < |v.items|
        ensures GoodCapability(v.items[i]) <==> Conforms(v.items[i], EnumNode(["tool_calls"]))
      {
        CapabilityBridge(v.items[i]);
      }
    }
  }

  lemma MemberUnique(obj: Object, name: string)
    requires Unique(JObj(obj))
    ensures Has(obj, name) ==> Unique(Get(obj, name))
    ensures Has(obj, name) && Get(obj, name).JArr? ==>
      forall i :: 0 <= i < |Get(obj, name).items| ==> Unique(Get(obj, name).items[i])
  {
    if Has(obj, name) {
      var i := IndexOf(obj, name);
      assert Unique(obj[i].value);
    }
  }

  // ---- the whole request ----

  // The seven fields, field by field.
  ghost predicate FieldsConform(obj: Object) {
    RequestFieldsOk();
    var fields := RequestFields();
    |obj| == |fields| && forall i :: 0 <= i < |fields| ==> FieldConforms(obj, fields[i].name, fields[i].value)
  }

  lemma {:induction false} FieldsBridge(obj: Object)
    requires Unique(JObj(obj))
    ensures Admissible(obj) <==> FieldsConform(obj)
  {
    RequestFieldsOk();
    var fields := RequestFields();
    hide NodeOk, FieldConforms, ConstNode, ArrayNode, EnumNode, ObjectNode, IdentifierNode;
    hide MessageFields, InstructionFields;
    hide StringField, IdentifierField, ListField, AllMessages, AllInstructions, AllCapabilities, Unique, Has;
    assert |fields| == 7 && fields[0].name == "version" && fields[1].name == "kind" && fields[2].name == "request_id"
      && fields[3].name == "model_alias" && fields[4].name == "conversation" && fields[5].name == "instructions"
      && fields[6].name == "required_capabilities";
    ConstField(obj, "version", "v1");
    ConstField(obj, "kind", "model_turn.request");
    IdentifierNodeField(obj, "request_id");
    IdentifierNodeField(obj, "model_alias");
    ConversationField(obj);
    InstructionsField(obj);
    CapabilitiesField(obj);
    PresentFields(obj);
  }

  lemma PresentFields(obj: Object)
    ensures StringField(obj, "version", "v1") ==> Has(obj, "version")
    ensures StringField(obj, "kind", "model_turn.request") ==> Has(obj, "kind")
    ensures IdentifierField(obj, "request_id") ==> Has(obj, "request_id")
    ensures IdentifierField(obj, "model_alias") ==> Has(obj, "model_alias")
    ensures ListField(obj, "conversation", 1, 64) ==> Has(obj, "conversation")
    ensures ListField(obj, "instructions", 0, 32) ==> Has(obj, "instructions")
    ensures ListField(obj, "required_capabilities", 0, 1) ==> Has(obj, "required_capabilities")
    ensures ExactFields(obj, ROOT_FIELDS) <==>
      |obj| == 7 && Has(obj, "version") && Has(obj, "kind") && Has(obj, "request_id") && Has(obj, "model_alias")
      && Has(obj, "conversation") && Has(obj, "instructions") && Has(obj, "required_capabilities")
  {
    hide *;
    PresentString(obj, "version", "v1");
    PresentString(obj, "kind", "model_turn.request");
    PresentIdentifier(obj, "request_id");
    PresentIdentifier(obj, "model_alias");
    PresentList(obj, "conversation", 1, 64);
    PresentList(obj, "instructions", 0, 32);
    PresentList(obj, "required_capabilities", 0, 1);
    SevenExact(obj, "version", "kind", "request_id", "model_alias", "conversation", "instructions",
               "required_capabilities");
    RootFieldList();
  }

  lemma PresentString(obj: Object, name: string, value: string)
    ensures StringField(obj, name, value) ==> Has(obj, name)
  {
  }

  lemma PresentIdentifier(obj: Object, name: string)
    ensures IdentifierField(obj, name) ==> Has(obj, name)
  {
  }

  lemma PresentList(obj: Object, name: string, minimum: int, maximum: int)
    ensures ListField(obj, name, minimum, maximum) ==> Has(obj, name)
  {
  }

  lemma RootFieldList()
    ensures ROOT_FIELDS == ["version", "kind", "request_id", "model_alias", "conversation", "instructions",
                            "required_capabilities"]
  {
  }

  lemma SevenExact(obj: Object, a: string, b: string, c: string, d: string, e: string, f: string, g: string)
    ensures ExactFields(obj, [a, b, c, d, e, f, g]) <==>
      |obj| == 7 && Has(obj, a) && Has(obj, b) && Has(obj, c) && Has(obj, d) && Has(obj, e) && Has(obj, f)
      && Has(obj, g)
  {
    hide Has;
    var fields := [a, b, c, d, e, f, g];
    assert fields[0] == a && fields[1] == b && fields[2] == c && fields[3] == d && fields[4] == e && fields[5] == f
      && fields[6] == g && |fields| == 7;
  }

  lemma {:induction false} FieldsConformMeans(root: Object)
    requires Unique(JObj(root))
    ensures NodeOk(RequestRoot())
    ensures FieldsConform(root) <==> Conforms(JObj(root), RequestRoot())
  {
    hide NodeOk, Conforms, ClosedOver, RequestFields, RequestRoot, Has;
    RootIsObject();
    RequestRootClosed();
    RequestFieldsOk();
    ClosedOverMeans(JObj(root), RequestRoot().members, RequestFields());
  }

  /** On every strict document with an object root, the decoder accepts exactly when the schema
      interpreter reports no violation. */
  lemma {:induction false} SameVerdict(root: Object)
    requires Unique(JObj(root))
    ensures NodeOk(RequestRoot())
    ensures Admissible(root) <==> Conforms(JObj(root), RequestRoot())
    ensures Admissible(root) <==> Violations(JObj(root), RequestRoot(), "") == []
  {
    hide *;
    RequestRootClosed();
    FieldsBridge(root);
    FieldsConformMeans(root);
    ViolationsNone(JObj(root), RequestRoot(), "");
  }

  /** The same for whole documents: whatever the token walk accepts as strict. */
  lemma {:induction false} StrictDocumentsAgree(stream: T.Stream, root: Object)
    requires T.ParseDocument(stream) == Some(JObj(root))
    ensures NodeOk(RequestRoot())
    ensures Admissible(root) <==> Violations(JObj(root), RequestRoot(), "") == []
  {
    hide *;
    T.DocumentExact(stream, JObj(root));
    StrictUnique(JObj(root));
    SameVerdict(root);
  }

  lemma StrictUnique(v: Json)
    requires T.Strict(v)
    ensures Unique(v)
  {
  }

  /** The two implementations side by side. */
  method BothVerdicts(root: Object) returns (decoded: bool, violations: seq<Violation>)
    requires Unique(JObj(root))
    ensures decoded <==> violations == []
    ensures decoded <==> Admissible(root)
  {
    hide *;
    RequestSchemaWellFormed();
    SameVerdict(root);
    var wire := DecodeWireRequest(root);
    decoded := wire.Some?;
    violations := ValidateInstance(JObj(root), RequestRoot());
  }
}
