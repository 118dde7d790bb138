/** The kinds of node the frozen model-turn v1 schemas are made of, and what each accepts. */
module SchemaNodes {
  import opened Decimals
  import opened Json
  import opened Options
  import opened SchemaProfile
  import opened Validator

  function Number(n: nat): Json { JNum(OfNat(n)) }

  function ConstNode(value: string): Json {
    JObj([Member("type", JStr("string")), Member("const", JStr(value))])
  }

  function TextEnum(values: seq<string>): seq<Json> {
    seq(|values|, i requires 0 <= i < |values| => JStr(values[i]))
  }

  function EnumNode(values: seq<string>): Json {
    JObj([Member("type", JStr("string")), Member("enum", JArr(TextEnum(values)))])
  }

  function TextNode(minimum: nat, maximum: nat): Json {
    JObj([Member("type", JStr("string")), Member("minLength", Number(minimum)),
          Member("maxLength", Number(maximum))])
  }

  function PatternNode(minimum: nat, maximum: nat, pattern: string): Json {
    JObj([Member("type", JStr("string")), Member("minLength", Number(minimum)),
          Member("maxLength", Number(maximum)), Member("pattern", JStr(pattern))])
  }

  function IdentifierNode(): Json { PatternNode(1, 128, IDENTIFIER_PATTERN) }

  function IntegerNode(minimum: nat, maximum: nat): Json {
    JObj([Member("type", JStr("integer")), Member("minimum", Number(minimum)),
          Member("maximum", Number(maximum))])
  }

  function BooleanNode(): Json { JObj([Member("type", JStr("boolean"))]) }

  function ArrayNode(minimum: nat, maximum: nat, item: Json): Json {
    JObj([Member("type", JStr("array")), Member("minItems", Number(minimum)),
          Member("maxItems", Number(maximum)), Member("items", item)])
  }

  function FieldNames(fields: seq<Member>): seq<Json> {
    seq(|fields|, i requires 0 <= i < |fields| => JStr(fields[i].name))
  }

  function ObjectKeywords(required: seq<Member>, fields: seq<Member>): seq<Member> {
    [Member("type", JStr("object")), Member("additionalProperties", JBool(false)),
     Member("required", JArr(FieldNames(required))), Member("properties", JObj(fields))]
  }

  // A closed object that requires every one of its properties.
  function ObjectNode(fields: seq<Member>): Json { JObj(ObjectKeywords(fields, fields)) }

  // Names of equal length differ in a character.
  lemma KeywordsDiffer()
    ensures "type" != "enum"
    ensures "title" != "items" && "title" != "const" && "items" != "const"
    ensures "$schema" != "minimum" && "$schema" != "maximum" && "$schema" != "pattern"
    ensures "minimum" != "maximum" && "minimum" != "pattern" && "maximum" != "pattern"
    ensures "required" != "minItems" && "required" != "maxItems" && "minItems" != "maxItems"
    ensures "minLength" != "maxLength"
    ensures "object" != "string" && "object" != "number" && "string" != "number"
  {
    assert "type"[0] == 't' && "enum"[0] == 'e';
    assert "title"[0] == 't' && "items"[0] == 'i' && "const"[0] == 'c';
    assert "$schema"[0] == '$' && "minimum"[1] == 'i' && "maximum"[1] == 'a' && "pattern"[0] == 'p';
    assert "minimum"[0] == 'm' && "maximum"[0] == 'm';
    assert "minItems"[1] == 'i' && "maxItems"[1] == 'a' && "minItems"[0] == 'm' && "maxItems"[0] == 'm';
    assert "required"[0] == 'r';
    assert "minLength"[1] == 'i' && "maxLength"[1] == 'a';
    assert "object"[0] == 'o' && "string"[0] == 's' && "number"[0] == 'n';
  }

  predicate StringKeyword(k: string) {
    k == "type" || k == "enum" || k == "const" || k == "minLength" || k == "maxLength" || k == "pattern"
  }

  predicate IntegerKeyword(k: string) { k == "type" || k == "minimum" || k == "maximum" }

  predicate ArrayKeyword(k: string) {
    k == "type" || k == "minItems" || k == "maxItems" || k == "items"
  }

  predicate ObjectKeyword(k: string) {
    k == "type" || k == "additionalProperties" || k == "required" || k == "properties"
    || k == "title" || k == "description" || k == "$schema" || k == "$id"
  }

  lemma StringGroups(ms: seq<Member>)
    requires TypeIs(ms, "string") && forall k :: Has(ms, k) ==> StringKeyword(k)
    ensures GroupsOk(ms)
  {
    KeywordsDiffer();
    hide Has, TypeIs, Numeric;
    Groups();
  }

  lemma ArrayGroups(ms: seq<Member>)
    requires TypeIs(ms, "array") && forall k :: Has(ms, k) ==> ArrayKeyword(k)
    ensures GroupsOk(ms)
  {
    KeywordsDiffer();
    hide Has, TypeIs, Numeric;
    Groups();
  }

  lemma ObjectGroups(ms: seq<Member>)
    requires TypeIs(ms, "object") && forall k :: Has(ms, k) ==> ObjectKeyword(k)
    ensures GroupsOk(ms)
  {
    KeywordsDiffer();
    hide Has, TypeIs, Numeric;
    Groups();
  }

  lemma IntegerGroups(ms: seq<Member>)
    requires TypeIs(ms, "integer") && forall k :: Has(ms, k) ==> IntegerKeyword(k)
    ensures GroupsOk(ms)
  {
    KeywordsDiffer();
    hide Has, TypeIs;
    Groups();
  }

  lemma BooleanGroups(ms: seq<Member>)
    requires TypeIs(ms, "boolean") && forall k :: Has(ms, k) ==> k == "type"
    ensures GroupsOk(ms)
  {
    KeywordsDiffer();
    hide Has, TypeIs;
    Groups();
  }

  lemma Groups()
    ensures |OBJECT_GROUP| == 3 && OBJECT_GROUP[0] == "properties" && OBJECT_GROUP[1] == "required"
      && OBJECT_GROUP[2] == "additionalProperties"
    ensures |ARRAY_GROUP| == 3 && ARRAY_GROUP[0] == "items" && ARRAY_GROUP[1] == "minItems"
      && ARRAY_GROUP[2] == "maxItems"
    ensures |STRING_GROUP| == 3 && STRING_GROUP[0] == "minLength" && STRING_GROUP[1] == "maxLength"
      && STRING_GROUP[2] == "pattern"
    ensures |NUMERIC_GROUP| == 2 && NUMERIC_GROUP[0] == "minimum" && NUMERIC_GROUP[1] == "maximum"
  {
  }

  lemma Supported(ms: seq<Member>)
    requires forall k :: Has(ms, k) ==> StringKeyword(k) || IntegerKeyword(k) || ArrayKeyword(k) || ObjectKeyword(k)
    ensures AllSupported(ms)
  {
    hide SupportedKeyword, StringKeyword, IntegerKeyword, ArrayKeyword, ObjectKeyword;
    forall i | 0 <= i < |ms| ensures SupportedKeyword(ms[i].name) {
      assert Has(ms, ms[i].name);
      KnownSupported(ms[i].name);
    }
  }

  lemma KnownSupported(k: string)
    requires StringKeyword(k) || IntegerKeyword(k) || ArrayKeyword(k) || ObjectKeyword(k)
    ensures SupportedKeyword(k)
  {
  }

  lemma TypeIsOnly(ms: seq<Member>, t: string)
    requires TypeIs(ms, t) && JsonType(t)
    ensures ValidType(ms) && forall u :: TypeIs(ms, u) ==> u == t
  {
  }

  // A string node is well formed when its own keywords are.
  lemma StringNodeOk(ms: seq<Member>)
    requires TypeIs(ms, "string") && forall k :: Has(ms, k) ==> StringKeyword(k)
    requires StringKeywordsOk(ms) && EnumConstOk(ms)
    ensures NodeOk(JObj(ms))
  {
    KeywordsDiffer();
    StringGroups(ms);
    Supported(ms);
    TypeIsOnly(ms, "string");
    TypesExclusive(ms);
    hide Has, TypeIs, Numeric, ValidType, GroupsOk, AllSupported, StringKeywordsOk, EnumConstOk;
  }

  // Which keywords a node carries, found without walking its list.
  lemma TextNodeKeywords(minimum: nat, maximum: nat)
    ensures var ms := TextNode(minimum, maximum).members;
      DistinctNames(ms) && TypeIs(ms, "string")
      && Lookup(ms, "minLength") == Some(Number(minimum)) && Lookup(ms, "maxLength") == Some(Number(maximum))
      && (forall k :: Has(ms, k) <==> k == "type" || k == "minLength" || k == "maxLength")
  {
    KeywordsDiffer();
    var ms := TextNode(minimum, maximum).members;
    assert ms[0].name == "type" && ms[1].name == "minLength" && ms[2].name == "maxLength";
    GetAt(ms, 0);
    GetAt(ms, 1);
    GetAt(ms, 2);
  }

  lemma NumberNatural(n: nat)
    ensures MatchesType(Number(n), "integer") && Value(Number(n).number) == n as real
  {
  }

  lemma TextNodeOk(minimum: nat, maximum: nat)
    requires minimum <= maximum
    ensures NodeOk(TextNode(minimum, maximum))
  {
    TextNodeKeywords(minimum, maximum);
    NumberNatural(minimum);
    NumberNatural(maximum);
    KeywordsDiffer();
    hide Has, TypeIs, Number, MatchesType, NodeOk, DistinctNames;
    StringNodeOk(TextNode(minimum, maximum).members);
  }

  /** A text node accepts exactly the strings of bounded length. */
  lemma TextNodeMeans(v: Json, minimum: nat, maximum: nat)
    requires minimum <= maximum
    ensures NodeOk(TextNode(minimum, maximum))
    ensures Conforms(v, TextNode(minimum, maximum)) <==> v.JStr? && minimum <= |v.text| <= maximum
  {
    TextNodeOk(minimum, maximum);
    TextNodeKeywords(minimum, maximum);
  }

  lemma PatternNodeKeywords(minimum: nat, maximum: nat, pattern: string)
    ensures var ms := PatternNode(minimum, maximum, pattern).members;
      DistinctNames(ms) && TypeIs(ms, "string")
      && Lookup(ms, "minLength") == Some(Number(minimum)) && Lookup(ms, "maxLength") == Some(Number(maximum))
      && Lookup(ms, "pattern") == Some(JStr(pattern))
      && (forall k :: Has(ms, k) <==> k == "type" || k == "minLength" || k == "maxLength" || k == "pattern")
      && !Has(ms, "enum") && !Has(ms, "const")
  {
    KeywordsDiffer();
    var ms := PatternNode(minimum, maximum, pattern).members;
    assert ms[0].name == "type" && ms[1].name == "minLength" && ms[2].name == "maxLength" && ms[3].name == "pattern";
    GetAt(ms, 0);
    GetAt(ms, 1);
    GetAt(ms, 2);
    GetAt(ms, 3);
  }

  lemma PatternNodeOk(minimum: nat, maximum: nat, pattern: string)
    requires minimum <= maximum && (pattern == IDENTIFIER_PATTERN || pattern == CONTROL_SAFE_PATTERN)
    ensures NodeOk(PatternNode(minimum, maximum, pattern))
  {
    PatternNodeKeywords(minimum, maximum, pattern);
    NumberNatural(minimum);
    NumberNatural(maximum);
    KeywordsDiffer();
    hide Has, TypeIs, Number, MatchesType, NodeOk, DistinctNames;
    StringNodeOk(PatternNode(minimum, maximum, pattern).members);
  }

  lemma PatternNodeMeans(v: Json, minimum: nat, maximum: nat, pattern: string)
    requires minimum <= maximum && (pattern == IDENTIFIER_PATTERN || pattern == CONTROL_SAFE_PATTERN)
    ensures NodeOk(PatternNode(minimum, maximum, pattern))
    ensures Conforms(v, PatternNode(minimum, maximum, pattern)) <==>
      v.JStr? && minimum <= |v.text| <= maximum && MatchesPattern(pattern, v.text)
  {
    hide MatchesPattern, NodeOk, DistinctNames, Has, TypeIs, Number, Conforms, IDENTIFIER_PATTERN, CONTROL_SAFE_PATTERN;
    PatternNodeOk(minimum, maximum, pattern);
    PatternNodeKeywords(minimum, maximum, pattern);
    var ms := PatternNode(minimum, maximum, pattern).members;
    StringNodeMeans(v, ms, minimum, maximum);
  }

  // A bounded string node, with or without a pattern.
  lemma StringNodeMeans(v: Json, ms: seq<Member>, minimum: nat, maximum: nat)
    requires NodeOk(JObj(ms)) && TypeIs(ms, "string") && !Has(ms, "enum") && !Has(ms, "const")
    requires Lookup(ms, "minLength") == Some(Number(minimum)) && Lookup(ms, "maxLength") == Some(Number(maximum))
    ensures Has(ms, "pattern") ==> Get(ms, "pattern").JStr?
    ensures Conforms(v, JObj(ms)) <==>
      v.JStr? && minimum <= |v.text| <= maximum
      && (Has(ms, "pattern") ==> MatchesPattern(Get(ms, "pattern").text, v.text))
  {
    NumberNatural(minimum);
    NumberNatural(maximum);
    TypesExclusive(ms);
    hide MatchesPattern, Has, Number, GroupsOk, AllSupported;
  }

  lemma ConstNodeKeywords(value: string)
    ensures var ms := ConstNode(value).members;
      DistinctNames(ms) && TypeIs(ms, "string") && Lookup(ms, "const") == Some(JStr(value))
      && (forall k :: Has(ms, k) <==> k == "type" || k == "const")
  {
    var ms := ConstNode(value).members;
    assert ms[0].name == "type" && ms[1].name == "const";
    GetAt(ms, 0);
    GetAt(ms, 1);
  }

  lemma ConstNodeMeans(v: Json, value: string)
    ensures NodeOk(ConstNode(value))
    ensures Conforms(v, ConstNode(value)) <==> v == JStr(value)
  {
    ConstNodeKeywords(value);
    KeywordsDiffer();
    StringNodeOk(ConstNode(value).members);
  }

  lemma EnumNodeKeywords(values: seq<string>)
    ensures var ms := EnumNode(values).members;
      DistinctNames(ms) && TypeIs(ms, "string") && Lookup(ms, "enum") == Some(JArr(TextEnum(values)))
      && (forall k :: Has(ms, k) <==> k == "type" || k == "enum")
  {
    KeywordsDiffer();
    var ms := EnumNode(values).members;
    assert ms[0].name == "type" && ms[1].name == "enum";
    GetAt(ms, 0);
    GetAt(ms, 1);
  }

  lemma EnumNodeOk(values: seq<string>)
    requires 0 < |values| <= MAX_ENUM_ITEMS && forall i, j :: 0 <= i < j < |values| ==> values[i] != values[j]
    ensures NodeOk(EnumNode(values))
  {
    EnumNodeKeywords(values);
    KeywordsDiffer();
    hide NodeOk, Has, TypeIs, DistinctNames;
    var items := TextEnum(values);
    assert forall i :: 0 <= i < |values| ==> items[i] == JStr(values[i]);
    StringNodeOk(EnumNode(values).members);
  }

  lemma EnumNodeMeans(v: Json, values: seq<string>)
    requires 0 < |values| <= MAX_ENUM_ITEMS && forall i, j :: 0 <= i < j < |values| ==> values[i] != values[j]
    ensures NodeOk(EnumNode(values))
    ensures Conforms(v, EnumNode(values)) <==> v.JStr? && v.text in values
  {
    EnumNodeOk(values);
    EnumNodeKeywords(values);
    KeywordsDiffer();
    TextEnumMembers(v, values);
    hide NodeOk, Has, TypeIs, DistinctNames, TextEnum;
  }

  lemma TextEnumMembers(v: Json, values: seq<string>)
    ensures InEnum(v, TextEnum(values)) <==> v.JStr? && v.text in values
  {
    var items := TextEnum(values);
    assert forall i :: 0 <= i < |values| ==> items[i] == JStr(values[i]);
  }

  lemma IntegerNodeKeywords(minimum: nat, maximum: nat)
    ensures var ms := IntegerNode(minimum, maximum).members;
      DistinctNames(ms) && TypeIs(ms, "integer")
      && Lookup(ms, "minimum") == Some(Number(minimum)) && Lookup(ms, "maximum") == Some(Number(maximum))
      && (forall k :: Has(ms, k) <==> IntegerKeyword(k))
  {
    KeywordsDiffer();
    var ms := IntegerNode(minimum, maximum).members;
    assert ms[0].name == "type" && ms[1].name == "minimum" && ms[2].name == "maximum";
    GetAt(ms, 0);
    GetAt(ms, 1);
    GetAt(ms, 2);
  }

  // An integer node is well formed when its bounds are.
  lemma IntegerMembersOk(ms: seq<Member>)
    requires TypeIs(ms, "integer") && forall k :: Has(ms, k) ==> IntegerKeyword(k)
    requires NumericKeywordsOk(ms)
    ensures NodeOk(JObj(ms))
  {
    KeywordsDiffer();
    IntegerGroups(ms);
    Supported(ms);
    TypeIsOnly(ms, "integer");
    TypesExclusive(ms);
    hide Has, TypeIs, ValidType, GroupsOk, AllSupported, NumericKeywordsOk;
  }

  /** An integer node accepts exactly the integers within its bounds, however they are spelled. */
  lemma IntegerNodeMeans(v: Json, minimum: nat, maximum: nat)
    requires minimum <= maximum
    ensures NodeOk(IntegerNode(minimum, maximum))
    ensures Conforms(v, IntegerNode(minimum, maximum)) <==>
      v.JNum? && Integral(v.number) && minimum as real <= Value(v.number) <= maximum as real
  {
    IntegerNodeKeywords(minimum, maximum);
    NumberNatural(minimum);
    NumberNatural(maximum);
    KeywordsDiffer();
    IntegerMembersOk(IntegerNode(minimum, maximum).members);
    hide NodeOk, Integral, Number;
  }

  lemma BooleanNodeKeywords()
    ensures var ms := BooleanNode().members;
      DistinctNames(ms) && TypeIs(ms, "boolean") && (forall k :: Has(ms, k) <==> k == "type")
  {
    var ms := BooleanNode().members;
    assert ms[0].name == "type";
    GetAt(ms, 0);
  }

  lemma BooleanNodeMeans(v: Json)
    ensures NodeOk(BooleanNode())
    ensures Conforms(v, BooleanNode()) <==> v.JBool?
  {
    KeywordsDiffer();
    BooleanNodeKeywords();
    var ms := BooleanNode().members;
    BooleanGroups(ms);
    Supported(ms);
    TypeIsOnly(ms, "boolean");
    TypesExclusive(ms);
  }

  lemma ArrayNodeKeywords(minimum: nat, maximum: nat, item: Json)
    ensures var ms := ArrayNode(minimum, maximum, item).members;
      DistinctNames(ms) && TypeIs(ms, "array")
      && Lookup(ms, "minItems") == Some(Number(minimum)) && Lookup(ms, "maxItems") == Some(Number(maximum))
      && Lookup(ms, "items") == Some(item)
      && (forall k :: Has(ms, k) <==> ArrayKeyword(k))
  {
    KeywordsDiffer();
    var ms := ArrayNode(minimum, maximum, item).members;
    assert ms[0].name == "type" && ms[1].name == "minItems" && ms[2].name == "maxItems" && ms[3].name == "items";
    GetAt(ms, 0);
    GetAt(ms, 1);
    GetAt(ms, 2);
    GetAt(ms, 3);
  }

  lemma ArrayNodeOk(minimum: nat, maximum: nat, item: Json)
    requires minimum <= maximum && NodeOk(item)
    ensures NodeOk(ArrayNode(minimum, maximum, item))
  {
    ArrayNodeKeywords(minimum, maximum, item);
    hide Has, Number, NodeOk, DistinctNames, TypeIs, NaturalBounds, ArrayKeyword;
    var ms := ArrayNode(minimum, maximum, item).members;
    ArrayKeywordsOk(ms, minimum, maximum, item);
    ArrayMembersOk(ms);
  }

  // An array node is well formed when its own keywords are.
  lemma ArrayMembersOk(ms: seq<Member>)
    requires DistinctNames(ms) && TypeIs(ms, "array") && forall k :: Has(ms, k) ==> ArrayKeyword(k)
    requires NaturalBounds(ms, "minItems", "maxItems") && Has(ms, "items") && NodeOk(Get(ms, "items"))
    ensures NodeOk(JObj(ms))
  {
    ArrayAbsent(ms);
    hide ArrayKeyword, Has, TypeIs, Numeric, ValidType, GroupsOk, AllSupported, NaturalBounds, DistinctNames, JsonType;
    ArrayGroups(ms);
    Supported(ms);
    TypeIsOnly(ms, "array");
    TypesExclusive(ms);
  }

  lemma ArrayAbsent(ms: seq<Member>)
    requires forall k :: Has(ms, k) ==> ArrayKeyword(k)
    ensures !Has(ms, "title") && !Has(ms, "description") && !Has(ms, "enum") && !Has(ms, "const")
  {
    KeywordsDiffer();
    hide Has;
  }

  lemma ArrayKeywordsOk(ms: seq<Member>, minimum: nat, maximum: nat, item: Json)
    requires minimum <= maximum && NodeOk(item)
    requires Lookup(ms, "minItems") == Some(Number(minimum)) && Lookup(ms, "maxItems") == Some(Number(maximum))
    requires Lookup(ms, "items") == Some(item)
    ensures NaturalBounds(ms, "minItems", "maxItems") && Has(ms, "items") && NodeOk(Get(ms, "items"))
  {
    NumberNatural(minimum);
    NumberNatural(maximum);
    hide Has, Number, MatchesType, NodeOk;
  }

  lemma ArrayNodeMeans(v: Json, minimum: nat, maximum: nat, item: Json)
    requires minimum <= maximum && NodeOk(item)
    ensures NodeOk(ArrayNode(minimum, maximum, item))
    ensures Conforms(v, ArrayNode(minimum, maximum, item)) <==>
      v.JArr? && minimum <= |v.items| <= maximum && forall i :: 0 <= i < |v.items| ==> Conforms(v.items[i], item)
  {
    ArrayNodeOk(minimum, maximum, item);
    ArrayNodeKeywords(minimum, maximum, item);
    hide NodeOk;
  }

  lemma ObjectKeywordsHold(required: seq<Member>, fields: seq<Member>)
    ensures var ms := ObjectKeywords(required, fields);
      DistinctNames(ms) && TypeIs(ms, "object") && ClosedObject(ms)
      && Lookup(ms, "required") == Some(JArr(FieldNames(required)))
      && Lookup(ms, "properties") == Some(JObj(fields))
      && (forall k :: Has(ms, k) <==>
            k == "type" || k == "additionalProperties" || k == "required" || k == "properties")
  {
    KeywordsDiffer();
    var ms := ObjectKeywords(required, fields);
    assert ms[0].name == "type" && ms[1].name == "additionalProperties" && ms[2].name == "required"
      && ms[3].name == "properties";
    GetAt(ms, 0);
    GetAt(ms, 1);
    GetAt(ms, 2);
    GetAt(ms, 3);
  }

  // A closed object node over these fields that requires the first of them, possibly with
  // annotations or root markers.
  ghost predicate ClosedWith(ms: seq<Member>, required: seq<Member>, fields: seq<Member>) {
    required <= fields
    && DistinctNames(fields) && (forall i :: 0 <= i < |fields| ==> NodeOk(fields[i].value))
    && TypeIs(ms, "object") && ClosedObject(ms)
    && Lookup(ms, "required") == Some(JArr(FieldNames(required)))
    && Lookup(ms, "properties") == Some(JObj(fields))
    && (forall k :: Has(ms, k) ==> ObjectKeyword(k))
    && (Has(ms, "title") ==> TextAt(ms, "title")) && (Has(ms, "description") ==> TextAt(ms, "description"))
  }

  // All fields are required.
  ghost predicate ClosedOver(ms: seq<Member>, fields: seq<Member>) { ClosedWith(ms, fields, fields) }

  lemma RequiredFields(ms: seq<Member>, required: seq<Member>, fields: seq<Member>)
    requires ClosedWith(ms, required, fields)
    ensures Required(ms) == FieldNames(required) && Properties(ms) == fields
    ensures ObjectKeywordsOk(ms)
  {
    hide NodeOk, TypeIs;
    var names := FieldNames(required);
    assert forall i :: 0 <= i < |names| ==> names[i] == JStr(fields[i].name);
    assert TextListAt(ms, "required") && ObjectAt(ms, "properties");
    forall i | 0 <= i < |required| ensures Has(fields, required[i].name) {
      assert fields[i] == required[i];
    }
  }

  lemma ClosedOk(ms: seq<Member>, required: seq<Member>, fields: seq<Member>)
    requires ClosedWith(ms, required, fields)
    ensures NodeOk(JObj(ms)) && Fields(JObj(ms)) == fields
  {
    RequiredFields(ms, required, fields);
    ObjectAbsent(ms);
    hide ObjectKeyword, Has, TypeIs, Numeric, ValidType, GroupsOk, AllSupported, ObjectKeywordsOk, JsonType;
    hide DistinctNames, FieldNames;
    ObjectGroups(ms);
    Supported(ms);
    TypeIsOnly(ms, "object");
    TypesExclusive(ms);
  }

  lemma ObjectAbsent(ms: seq<Member>)
    requires forall k :: Has(ms, k) ==> ObjectKeyword(k)
    ensures !Has(ms, "enum") && !Has(ms, "const")
  {
    KeywordsDiffer();
    hide Has;
  }

  lemma ClosedSplit(v: Json, ms: seq<Member>, required: seq<Member>, fields: seq<Member>)
    requires ClosedWith(ms, required, fields)
    ensures NodeOk(JObj(ms))
    ensures Conforms(v, JObj(ms)) <==> v.JObj? && ConformsInside(v, JObj(ms))
  {
    ClosedOk(ms, required, fields);
    KeywordsDiffer();
    assert !Has(ms, "enum") && !Has(ms, "const");
    hide NodeOk, ConformsInside, DistinctNames, FieldNames;
  }

  lemma ClosedInside(v: Json, ms: seq<Member>, required: seq<Member>, fields: seq<Member>)
    requires ClosedWith(ms, required, fields) && NodeOk(JObj(ms)) && v.JObj?
    ensures ConformsInside(v, JObj(ms)) <==>
      (forall i :: 0 <= i < |required| ==> Has(v.members, required[i].name))
      && forall i :: 0 <= i < |v.members| ==>
           Has(fields, v.members[i].name) && Conforms(v.members[i].value, Get(fields, v.members[i].name))
  {
    ClosedOk(ms, required, fields);
    RequiredFields(ms, required, fields);
    InsideObject(v, JObj(ms));
    RequiredNames(required, v.members);
    hide NodeOk, ClosedWith, Conforms, ConformsInside, Required, Fields, TypeIs, DistinctNames, FieldNames;
  }

  lemma InsideObject(v: Json, node: Json)
    requires NodeOk(node) && v.JObj? && TypeIs(node.members, "object")
    ensures ConformsInside(v, node) <==>
      (forall i | 0 <= i < |Required(node.members)| :: Has(v.members, Required(node.members)[i].text))
      && forall i | 0 <= i < |v.members| ::
           Has(Fields(node), v.members[i].name) &&
           Conforms(v.members[i].value, Get(Fields(node), v.members[i].name))
  {
    hide NodeOk, TypeIs, Conforms, Required, Fields;
  }

  lemma RequiredNames(fields: seq<Member>, ms: seq<Member>)
    ensures AllText(FieldNames(fields))
    ensures (forall i | 0 <= i < |FieldNames(fields)| :: Has(ms, FieldNames(fields)[i].text)) <==>
      forall i :: 0 <= i < |fields| ==> Has(ms, fields[i].name)
  {
    var names := FieldNames(fields);
    assert forall i :: 0 <= i < |names| ==> names[i] == JStr(fields[i].name);
    forall i | 0 <= i < |fields| ensures Has(ms, names[i].text) <==> Has(ms, fields[i].name) {}
  }

  /** A closed node accepts exactly the objects with every required field and no member that is not a
      conforming field. */
  lemma ClosedConforms(v: Json, ms: seq<Member>, required: seq<Member>, fields: seq<Member>)
    requires ClosedWith(ms, required, fields)
    ensures NodeOk(JObj(ms))
    ensures Conforms(v, JObj(ms)) <==>
      v.JObj? && (forall i :: 0 <= i < |required| ==> Has(v.members, required[i].name))
      && forall i :: 0 <= i < |v.members| ==>
           Has(fields, v.members[i].name) && Conforms(v.members[i].value, Get(fields, v.members[i].name))
  {
    ClosedSplit(v, ms, required, fields);
    if v.JObj? {
      ClosedInside(v, ms, required, fields);
    }
    hide NodeOk, Conforms, ConformsInside, Has, DistinctNames;
  }

  lemma {:induction false} NamesCount(ms: seq<Member>)
    requires DistinctNames(ms)
    ensures |Names(ms)| == |ms|
  {
    if ms != [] {
      NamesCount(ms[1..]);
      assert Names(ms) == {ms[0].name} + Names(ms[1..]) by {
        assert forall i :: 0 < i < |ms| ==> ms[i] == ms[1..][i - 1];
        forall n | n in Names(ms[1..]) ensures n in Names(ms) {
          var i :| 0 <= i < |ms[1..]| && ms[1..][i].name == n;
          assert ms[i + 1].name == n;
        }
      }
      assert ms[0].name !in Names(ms[1..]);
    }
  }

  // With distinct names, as many members as fields and every field present leaves no room for more.
  lemma {:induction false} SameFields(ms: seq<Member>, fields: seq<Member>)
    requires DistinctNames(ms) && DistinctNames(fields)
    requires forall i :: 0 <= i < |fields| ==> Has(ms, fields[i].name)
    ensures |ms| == |fields| <==> forall i :: 0 <= i < |ms| ==> Has(fields, ms[i].name)
  {
    NamesCount(ms);
    NamesCount(fields);
    assert Names(fields) <= Names(ms);
    if |ms| == |fields| {
      SubsetFull(Names(fields), Names(ms));
      forall i | 0 <= i < |ms| ensures Has(fields, ms[i].name) {
        assert ms[i].name in Names(ms);
        NamesHas(fields, ms[i].name);
      }
    }
    if forall i :: 0 <= i < |ms| ==> Has(fields, ms[i].name) {
      forall n | n in Names(ms) ensures n in Names(fields) {
        NamesHas(ms, n);
        NamesHas(fields, n);
      }
      assert Names(ms) == Names(fields);
    }
  }

  lemma SubsetFull<T>(a: set<T>, b: set<T>)
    requires a <= b && |a| == |b|
    ensures a == b
  {
    assert |b - a| == |b| - |a|;
  }

  /** A closed node accepts exactly the objects whose members are its fields, each conforming. */
  lemma {:induction false} ClosedOverMeans(v: Json, ms: seq<Member>, fields: seq<Member>)
    requires ClosedOver(ms, fields) && (v.JObj? ==> DistinctNames(v.members))
    ensures NodeOk(JObj(ms))
    ensures Conforms(v, JObj(ms)) <==>
      v.JObj? && |v.members| == |fields|
      && forall i :: 0 <= i < |fields| ==>
           Has(v.members, fields[i].name) && Conforms(Get(v.members, fields[i].name), fields[i].value)
  {
    ClosedConforms(v, ms, fields, fields);
    hide Conforms, NodeOk;
    if v.JObj? && forall i :: 0 <= i < |fields| ==> Has(v.members, fields[i].name) {
      SameFields(v.members, fields);
      forall i | 0 <= i < |v.members| && Has(fields, v.members[i].name)
        ensures var j := IndexOf(fields, v.members[i].name);
          Get(fields, v.members[i].name) == fields[j].value && Get(v.members, fields[j].name) == v.members[i].value
      {
        GetAt(v.members, i);
      }
      forall j | 0 <= j < |fields|
        ensures var i := IndexOf(v.members, fields[j].name);
          Get(fields, v.members[i].name) == fields[j].value && Get(v.members, fields[j].name) == v.members[i].value
      {
        GetAt(fields, j);
      }
    }
  }

  lemma ObjectNodeClosed(fields: seq<Member>)
    requires DistinctNames(fields) && forall i :: 0 <= i < |fields| ==> NodeOk(fields[i].value)
    ensures ClosedOver(ObjectKeywords(fields, fields), fields)
  {
    ObjectKeywordsHold(fields, fields);
    KeywordsDiffer();
    hide NodeOk, TypeIs;
  }

  // ---- a schema's root ----

  // The texts a root node carries before its keywords.
  datatype Heading = Heading(uri: string, id: string, title: string, description: string)

  function RootKeywords(h: Heading, required: seq<Member>, fields: seq<Member>): seq<Member> {
    [Member("$schema", JStr(h.uri)), Member("$id", JStr(h.id)), Member("title", JStr(h.title)),
     Member("description", JStr(h.description))] + ObjectKeywords(required, fields)
  }

  lemma RootShape(h: Heading, required: seq<Member>, fields: seq<Member>)
    ensures var ms := RootKeywords(h, required, fields);
      |ms| == 8 && ms[0] == Member("$schema", JStr(h.uri)) && ms[1] == Member("$id", JStr(h.id))
      && ms[2] == Member("title", JStr(h.title)) && ms[3] == Member("description", JStr(h.description))
      && ms[4] == Member("type", JStr("object")) && ms[5] == Member("additionalProperties", JBool(false))
      && ms[6] == Member("required", JArr(FieldNames(required))) && ms[7] == Member("properties", JObj(fields))
  {
    hide FieldNames;
  }

  lemma RootDistinct(h: Heading, required: seq<Member>, fields: seq<Member>)
    ensures DistinctNames(RootKeywords(h, required, fields))
  {
    RootShape(h, required, fields);
    hide RootKeywords, FieldNames;
  }

  lemma RootHas(h: Heading, required: seq<Member>, fields: seq<Member>)
    ensures forall k :: Has(RootKeywords(h, required, fields), k) <==> ObjectKeyword(k)
  {
    RootShape(h, required, fields);
    hide RootKeywords, FieldNames;
    var ms := RootKeywords(h, required, fields);
    forall k ensures Has(ms, k) <==> ObjectKeyword(k) {
      assert Has(ms, k) <==> (ms[0].name == k || ms[1].name == k || ms[2].name == k || ms[3].name == k
        || ms[4].name == k || ms[5].name == k || ms[6].name == k || ms[7].name == k);
    }
  }

  lemma RootLookups(h: Heading, required: seq<Member>, fields: seq<Member>)
    ensures var ms := RootKeywords(h, required, fields);
      DistinctNames(ms) && (forall k :: Has(ms, k) <==> ObjectKeyword(k))
      && Lookup(ms, "$schema") == Some(JStr(h.uri)) && Lookup(ms, "$id") == Some(JStr(h.id))
      && TextAt(ms, "title") && TextAt(ms, "description")
      && TypeIs(ms, "object") && ClosedObject(ms)
      && Lookup(ms, "required") == Some(JArr(FieldNames(required)))
      && Lookup(ms, "properties") == Some(JObj(fields))
  {
    RootShape(h, required, fields);
    RootDistinct(h, required, fields);
    RootHas(h, required, fields);
    hide RootKeywords, FieldNames, DistinctNames, Has;
    var ms := RootKeywords(h, required, fields);
    GetAt(ms, 0);
    GetAt(ms, 1);
    GetAt(ms, 2);
    GetAt(ms, 3);
    GetAt(ms, 4);
    GetAt(ms, 5);
    GetAt(ms, 6);
    GetAt(ms, 7);
  }

  lemma StringPlaced(ms: seq<Member>, depth: nat)
    requires NodeOk(JObj(ms)) && TypeIs(ms, "string") && depth <= MAX_NESTING_DEPTH
    requires forall k :: Has(ms, k) ==> StringKeyword(k)
    ensures Placed(JObj(ms), false, depth)
  {
    TypesExclusive(ms);
    KeywordsDiffer();
    hide NodeOk, TypeIs, Has;
  }

  lemma ConstPlaced(value: string, depth: nat)
    requires depth <= MAX_NESTING_DEPTH
    ensures NodeOk(ConstNode(value)) && Placed(ConstNode(value), false, depth)
  {
    hide NodeOk, Placed, Conforms, Has, TypeIs, DistinctNames;
    ConstNodeMeans(JNull, value);
    ConstNodeKeywords(value);
    StringPlaced(ConstNode(value).members, depth);
  }

  lemma TextPlaced(minimum: nat, maximum: nat, depth: nat)
    requires minimum <= maximum && depth <= MAX_NESTING_DEPTH
    ensures NodeOk(TextNode(minimum, maximum)) && Placed(TextNode(minimum, maximum), false, depth)
  {
    hide NodeOk, Placed, Has, TypeIs, DistinctNames, Number;
    TextNodeOk(minimum, maximum);
    TextNodeKeywords(minimum, maximum);
    StringPlaced(TextNode(minimum, maximum).members, depth);
  }

  lemma PatternPlaced(minimum: nat, maximum: nat, pattern: string, depth: nat)
    requires minimum <= maximum && depth <= MAX_NESTING_DEPTH
    requires pattern == IDENTIFIER_PATTERN || pattern == CONTROL_SAFE_PATTERN
    ensures NodeOk(PatternNode(minimum, maximum, pattern))
    ensures Placed(PatternNode(minimum, maximum, pattern), false, depth)
  {
    hide NodeOk, Placed, Has, TypeIs, DistinctNames, Number, IDENTIFIER_PATTERN, CONTROL_SAFE_PATTERN;
    PatternNodeOk(minimum, maximum, pattern);
    PatternNodeKeywords(minimum, maximum, pattern);
    StringPlaced(PatternNode(minimum, maximum, pattern).members, depth);
  }

  lemma EnumPlaced(values: seq<string>, depth: nat)
    requires 0 < |values| <= MAX_ENUM_ITEMS && forall i, j :: 0 <= i < j < |values| ==> values[i] != values[j]
    requires depth <= MAX_NESTING_DEPTH
    ensures NodeOk(EnumNode(values)) && Placed(EnumNode(values), false, depth)
  {
    hide NodeOk, Placed, Has, TypeIs, DistinctNames, TextEnum;
    EnumNodeOk(values);
    EnumNodeKeywords(values);
    StringPlaced(EnumNode(values).members, depth);
  }

  lemma ArrayPlaced(minimum: nat, maximum: nat, item: Json, depth: nat)
    requires minimum <= maximum && NodeOk(item) && depth <= MAX_NESTING_DEPTH && Placed(item, false, depth + 1)
    ensures NodeOk(ArrayNode(minimum, maximum, item))
    ensures Placed(ArrayNode(minimum, maximum, item), false, depth)
  {
    ArrayNodeKeywords(minimum, maximum, item);
    ArrayNodeOk(minimum, maximum, item);
    TypesExclusive(ArrayNode(minimum, maximum, item).members);
    KeywordsDiffer();
    hide NodeOk, TypeIs, Has, DistinctNames;
  }

  lemma ClosedPlaced(ms: seq<Member>, required: seq<Member>, fields: seq<Member>, root: bool, depth: nat)
    requires ClosedWith(ms, required, fields) && NodeOk(JObj(ms)) && depth <= MAX_NESTING_DEPTH
    requires forall i :: 0 <= i < |fields| ==> Placed(fields[i].value, false, depth + 1)
    requires if root then Lookup(ms, "$schema") == Some(JStr(SCHEMA_URI)) && IdPresent(ms)
             else !Has(ms, "$schema") && !Has(ms, "$id")
    ensures Placed(JObj(ms), root, depth)
  {
    TypesExclusive(ms);
    hide NodeOk, TypeIs, Has, DistinctNames;
  }

  lemma ObjectPlaced(fields: seq<Member>, depth: nat)
    requires ClosedOver(ObjectKeywords(fields, fields), fields) && NodeOk(ObjectNode(fields))
    requires depth <= MAX_NESTING_DEPTH
    requires forall i :: 0 <= i < |fields| ==> Placed(fields[i].value, false, depth + 1)
    ensures Placed(ObjectNode(fields), false, depth)
  {
    ObjectKeywordsHold(fields, fields);
    KeywordsDiffer();
    hide ClosedWith, NodeOk, Placed, Has;
    ClosedPlaced(ObjectKeywords(fields, fields), fields, fields, false, depth);
  }

  lemma LeafPlaced(ms: seq<Member>, depth: nat)
    requires NodeOk(JObj(ms)) && (Numeric(ms) || TypeIs(ms, "boolean")) && depth <= MAX_NESTING_DEPTH
    requires forall k :: Has(ms, k) ==> IntegerKeyword(k)
    ensures Placed(JObj(ms), false, depth)
  {
    TypesExclusive(ms);
    KeywordsDiffer();
    hide NodeOk, Has;
  }

  /** Members that follow a closed node's fields in order, at least as far as they are required, conform
      exactly when each does. */
  lemma AlignedConforms(ms: seq<Member>, required: seq<Member>, fields: seq<Member>, members: seq<Member>)
    requires ClosedWith(ms, required, fields) && |required| <= |members| <= |fields|
    requires forall i :: 0 <= i < |members| ==> members[i].name == fields[i].name
    ensures NodeOk(JObj(ms))
    ensures Conforms(JObj(members), JObj(ms)) <==> EachConforms(members, fields)
  {
    ClosedConforms(JObj(members), ms, required, fields);
    hide NodeOk, Conforms;
    forall i | 0 <= i < |required| ensures Has(members, required[i].name) {
      assert required[i] == fields[i] && members[i].name == fields[i].name;
    }
    forall i | 0 <= i < |members|
      ensures Has(fields, members[i].name) && Get(fields, members[i].name) == fields[i].value
    {
      GetAt(fields, i);
    }
  }

  // Member by member, each value conforms to the field in its place.
  ghost predicate EachConforms(members: seq<Member>, fields: seq<Member>)
    requires |members| <= |fields| && forall i :: 0 <= i < |fields| ==> NodeOk(fields[i].value)
  {
    forall i :: 0 <= i < |members| ==> Conforms(members[i].value, fields[i].value)
  }

  // A well-formed schema that the value conforms to.
  ghost predicate Accepts(schema: Json, v: Json) { NodeOk(schema) && Conforms(v, schema) }
}
