/** The frozen model-turn v1 request schema. */
module RequestSchema {
  import opened Json
  import opened Options
  import opened SchemaNodes
  import opened SchemaProfile
  import opened Validator

  function MessageFields(): seq<Member> {
    [Member("role", EnumNode(["user", "assistant"])), Member("content", TextNode(1, 65536))]
  }

  function InstructionFields(): seq<Member> {
    [Member("source", PatternNode(1, 256, CONTROL_SAFE_PATTERN)), Member("content", TextNode(1, 65536))]
  }

  function RequestFields(): seq<Member> {
    [Member("version", ConstNode("v1")),
     Member("kind", ConstNode("model_turn.request")),
     Member("request_id", IdentifierNode()),
     Member("model_alias", IdentifierNode()),
     Member("conversation", ArrayNode(1, 64, ObjectNode(MessageFields()))),
     Member("instructions", ArrayNode(0, 32, ObjectNode(InstructionFields()))),
     Member("required_capabilities", ArrayNode(0, 1, EnumNode(["tool_calls"])))]
  }

  function RequestHeading(): Heading {
    Heading(SCHEMA_URI, "urn:fastgate:model-turn:v1:request", "FastGate model-turn v1 request",
            "Strict non-streaming FastGate-owned model-turn request shape.")
  }

  function RequestRoot(): Json {
    JObj(RootKeywords(RequestHeading(), RequestFields(), RequestFields()))
  }

  lemma MessageFieldsOk()
    ensures DistinctNames(MessageFields())
    ensures forall i :: 0 <= i < |MessageFields()| ==> NodeOk(MessageFields()[i].value)
  {
    hide NodeOk, Conforms, EnumNode, TextNode;
    EnumNodeMeans(JNull, ["user", "assistant"]);
    TextNodeOk(1, 65536);
  }

  lemma InstructionFieldsOk()
    ensures DistinctNames(InstructionFields())
    ensures forall i :: 0 <= i < |InstructionFields()| ==> NodeOk(InstructionFields()[i].value)
  {
    hide NodeOk, Conforms, PatternNode, TextNode, CONTROL_SAFE_PATTERN, IDENTIFIER_PATTERN;
    PatternNodeOk(1, 256, CONTROL_SAFE_PATTERN);
    TextNodeOk(1, 65536);
  }

  lemma MessageNodeOk()
    ensures ClosedOver(ObjectKeywords(MessageFields(), MessageFields()), MessageFields())
    ensures NodeOk(ObjectNode(MessageFields()))
  {
    hide NodeOk, MessageFields;
    MessageFieldsOk();
    ObjectNodeClosed(MessageFields());
    ClosedOk(ObjectKeywords(MessageFields(), MessageFields()), MessageFields(), MessageFields());
  }

  lemma InstructionNodeOk()
    ensures ClosedOver(ObjectKeywords(InstructionFields(), InstructionFields()), InstructionFields())
    ensures NodeOk(ObjectNode(InstructionFields()))
  {
    hide NodeOk, InstructionFields;
    InstructionFieldsOk();
    ObjectNodeClosed(InstructionFields());
    ClosedOk(ObjectKeywords(InstructionFields(), InstructionFields()), InstructionFields(), InstructionFields());
  }

  lemma ArrayFieldsOk()
    ensures NodeOk(ArrayNode(1, 64, ObjectNode(MessageFields())))
    ensures NodeOk(ArrayNode(0, 32, ObjectNode(InstructionFields())))
    ensures NodeOk(ArrayNode(0, 1, EnumNode(["tool_calls"])))
  {
    hide NodeOk, Conforms, ArrayNode, ObjectNode, EnumNode, MessageFields, InstructionFields;
    MessageNodeOk();
    InstructionNodeOk();
    EnumNodeMeans(JNull, ["tool_calls"]);
    ArrayNodeOk(1, 64, ObjectNode(MessageFields()));
    ArrayNodeOk(0, 32, ObjectNode(InstructionFields()));
    ArrayNodeOk(0, 1, EnumNode(["tool_calls"]));
  }

  lemma RequestNamesDistinct()
    ensures DistinctNames(RequestFields())
  {
    hide ConstNode, PatternNode, ArrayNode, ObjectNode, EnumNode;
    assert "conversation"[0] == 'c' && "instructions"[0] == 'i';
  }

  lemma RequestFieldsOk()
    ensures DistinctNames(RequestFields())
    ensures forall i :: 0 <= i < |RequestFields()| ==> NodeOk(RequestFields()[i].value)
  {
    RequestNamesDistinct();
    hide NodeOk, Conforms, DistinctNames, EnumNode, ConstNode, ArrayNode, PatternNode, ObjectNode;
    ConstNodeMeans(JNull, "v1");
    ConstNodeMeans(JNull, "model_turn.request");
    PatternNodeMeans(JNull, 1, 128, IDENTIFIER_PATTERN);
    ArrayFieldsOk();
  }

  lemma RequestRootClosed()
    ensures ClosedOver(RequestRoot().members, RequestFields()) && NodeOk(RequestRoot())
    ensures Lookup(RequestRoot().members, "$schema") == Some(JStr(SCHEMA_URI)) && IdPresent(RequestRoot().members)
  {
    hide NodeOk, RequestFields, DistinctNames, Has, TypeIs, RootKeywords;
    RequestFieldsOk();
    RootLookups(RequestHeading(), RequestFields(), RequestFields());
    ClosedOk(RequestRoot().members, RequestFields(), RequestFields());
  }

  lemma LeafPlaced(depth: nat)
    requires depth <= MAX_NESTING_DEPTH
    ensures forall value :: NodeOk(ConstNode(value)) && Placed(ConstNode(value), false, depth)
    ensures NodeOk(TextNode(1, 65536)) && Placed(TextNode(1, 65536), false, depth)
    ensures NodeOk(IdentifierNode()) && Placed(IdentifierNode(), false, depth)
    ensures NodeOk(PatternNode(1, 256, CONTROL_SAFE_PATTERN))
      && Placed(PatternNode(1, 256, CONTROL_SAFE_PATTERN), false, depth)
    ensures NodeOk(EnumNode(["user", "assistant"])) && Placed(EnumNode(["user", "assistant"]), false, depth)
    ensures NodeOk(EnumNode(["tool_calls"])) && Placed(EnumNode(["tool_calls"]), false, depth)
  {
    hide NodeOk, Placed, ConstNode, TextNode, PatternNode, EnumNode;
    forall value ensures NodeOk(ConstNode(value)) && Placed(ConstNode(value), false, depth) {
      ConstPlaced(value, depth);
    }
    TextPlaced(1, 65536, depth);
    PatternPlaced(1, 128, IDENTIFIER_PATTERN, depth);
    PatternPlaced(1, 256, CONTROL_SAFE_PATTERN, depth);
    EnumPlaced(["user", "assistant"], depth);
    EnumPlaced(["tool_calls"], depth);
  }

  lemma RequestFieldsPlaced()
    ensures forall i :: 0 <= i < |RequestFields()| ==>
      NodeOk(RequestFields()[i].value) && Placed(RequestFields()[i].value, false, 1)
  {
    hide NodeOk, Placed, ClosedOver, ConstNode, TextNode, PatternNode, EnumNode, ArrayNode, ObjectNode, IdentifierNode;
    LeafPlaced(1);
    LeafPlaced(2);
    LeafPlaced(3);
    MessageNodeOk();
    InstructionNodeOk();
    ObjectPlaced(MessageFields(), 2);
    ObjectPlaced(InstructionFields(), 2);
    ArrayPlaced(1, 64, ObjectNode(MessageFields()), 1);
    ArrayPlaced(0, 32, ObjectNode(InstructionFields()), 1);
    ArrayPlaced(0, 1, EnumNode(["tool_calls"]), 1);
  }

  /** The committed request schema raises no issue. */
  lemma RequestSchemaWellFormed()
    ensures WellFormedSchema(RequestRoot())
  {
    hide NodeOk, Placed, ClosedWith, RequestFields, RequestRoot;
    RootIsObject();
    RequestRootClosed();
    RequestFieldsPlaced();
    ClosedPlaced(RequestRoot().members, RequestFields(), RequestFields(), true, 0);
  }

  lemma RootIsObject()
    ensures RequestRoot().JObj? && JObj(RequestRoot().members) == RequestRoot()
  {
  }
}
