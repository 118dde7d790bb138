/** The closed schema profile: `schema_issues`, and what it means for a schema to have none. */
module SchemaProfile {
  import opened Decimals
  import opened Json
  import opened Options
  import opened Pointer
  import opened Sorting

  const MAX_NESTING_DEPTH := 128
  const MAX_ENUM_ITEMS := 64
  const MAX_ERRORS := 50

  const SCHEMA_URI := "https://json-schema.org/draft/2020-12/schema"
  const IDENTIFIER_PATTERN := "^[A-Za-z0-9][A-Za-z0-9._:-]*(?![\\s\\S])"
  const CONTROL_SAFE_PATTERN :=
    "^[^\\u0000-\\u001F" + ("\\u007F-\\u009F" + ("\\u2028\\u2029]+" + "(?![\\s\\S])"))

  predicate SupportedKeyword(k: string) {
    k == "$schema" || k == "$id" || k == "title" || k == "description" || k == "type"
    || k == "properties" || k == "required" || k == "additionalProperties" || k == "items"
    || k == "minItems" || k == "maxItems" || k == "minLength" || k == "maxLength"
    || k == "minimum" || k == "maximum" || k == "enum" || k == "const" || k == "pattern"
  }

  predicate JsonType(t: string) {
    t == "object" || t == "array" || t == "string" || t == "integer" || t == "number"
    || t == "boolean" || t == "null"
  }

  datatype IssueKind =
    | TooDeep | NotAnObject | UnsupportedKeyword(keyword: string)
    | WrongSchemaUri | MissingId | RootOnly | AnnotationText(keyword: string)
    | BadType | GroupMismatch(group: string)
    | PropertiesObject | RequiredStrings | RequiredRepeats | OpenObject | RequiredUnknown
    | ItemsMissing | NotNatural(keyword: string) | CrossedBounds(low: string)
    | PatternText | PatternUnaudited | NotNumber(keyword: string)
    | EnumShape | EnumTooLong | EnumRepeats | EnumType | ConstType | EnumWithConst

  datatype Issue = Issue(path: string, kind: IssueKind)

  // One guarded `add`.
  function Check(holds: bool, path: string, kind: IssueKind): seq<Issue> {
    if holds then [] else [Issue(path, kind)]
  }

  // ---- conditions on one node's own keywords ----

  // `node.get(name)` is a string
  predicate TextAt(ms: seq<Member>, name: string) {
    Has(ms, name) && Get(ms, name).JStr?
  }

  predicate IdPresent(ms: seq<Member>) {
    TextAt(ms, "$id") && Get(ms, "$id").text != ""
  }

  predicate ValidType(ms: seq<Member>) {
    TextAt(ms, "type") && JsonType(Get(ms, "type").text)
  }

  predicate TypeIs(ms: seq<Member>, t: string) {
    TextAt(ms, "type") && Get(ms, "type").text == t
  }

  predicate Numeric(ms: seq<Member>) { TypeIs(ms, "integer") || TypeIs(ms, "number") }

  // Keywords of a group occur only beside their types.
  predicate GroupAllowed(ms: seq<Member>, keywords: seq<string>, allowed: bool) {
    allowed || forall i | 0 <= i < |keywords| :: !Has(ms, keywords[i])
  }

  const OBJECT_GROUP := ["properties", "required", "additionalProperties"]
  const ARRAY_GROUP := ["items", "minItems", "maxItems"]
  const STRING_GROUP := ["minLength", "maxLength", "pattern"]
  const NUMERIC_GROUP := ["minimum", "maximum"]

  predicate GroupsOk(ms: seq<Member>) {
    GroupAllowed(ms, OBJECT_GROUP, TypeIs(ms, "object"))
    && GroupAllowed(ms, ARRAY_GROUP, TypeIs(ms, "array"))
    && GroupAllowed(ms, STRING_GROUP, TypeIs(ms, "string"))
    && GroupAllowed(ms, NUMERIC_GROUP, Numeric(ms))
  }

  predicate NaturalAt(ms: seq<Member>, name: string) {
    Has(ms, name) && MatchesType(Get(ms, name), "integer") && Value(Get(ms, name).number) >= 0.0
  }

  predicate NumberAt(ms: seq<Member>, name: string) {
    Has(ms, name) && Get(ms, name).JNum?
  }

  predicate BoundsOrdered(ms: seq<Member>, low: string, high: string) {
    NumberAt(ms, low) && NumberAt(ms, high) ==>
      Value(Get(ms, low).number) <= Value(Get(ms, high).number)
  }

  predicate NaturalBounds(ms: seq<Member>, low: string, high: string) {
    (Has(ms, low) ==> NaturalAt(ms, low)) && (Has(ms, high) ==> NaturalAt(ms, high))
    && (NaturalAt(ms, low) && NaturalAt(ms, high) ==> BoundsOrdered(ms, low, high))
  }

  predicate ObjectAt(ms: seq<Member>, name: string) {
    Has(ms, name) && Get(ms, name).JObj?
  }

  predicate AllText(items: seq<Json>) {
    forall i | 0 <= i < |items| :: items[i].JStr?
  }

  predicate TextListAt(ms: seq<Member>, name: string) {
    Has(ms, name) && Get(ms, name).JArr? && AllText(Get(ms, name).items)
  }

  predicate NoRepeats(items: seq<Json>)
    requires AllText(items)
  {
    forall i, j | 0 <= i < j < |items| :: items[i].text != items[j].text
  }

  // `properties` and `required` as the object branch uses them, empty when ill-shaped
  function Properties(ms: seq<Member>): seq<Member> {
    if ObjectAt(ms, "properties") then Get(ms, "properties").members else []
  }

  function Required(ms: seq<Member>): (r: seq<Json>)
    ensures AllText(r)
  {
    if TextListAt(ms, "required") then Get(ms, "required").items else []
  }

  predicate RequiredKnown(ms: seq<Member>) {
    forall i | 0 <= i < |Required(ms)| :: Has(Properties(ms), Required(ms)[i].text)
  }

  predicate ClosedObject(ms: seq<Member>) {
    Has(ms, "additionalProperties") && Get(ms, "additionalProperties") == JBool(false)
  }

  predicate AuditedPattern(ms: seq<Member>)
    requires TextAt(ms, "pattern")
  {
    Get(ms, "pattern").text == IDENTIFIER_PATTERN || Get(ms, "pattern").text == CONTROL_SAFE_PATTERN
  }

  predicate EnumShaped(ms: seq<Member>) {
    Has(ms, "enum") && Get(ms, "enum").JArr? && Get(ms, "enum").items != []
  }

  predicate PairwiseDifferent(items: seq<Json>) {
    forall i, j | 0 <= i < j < |items| :: !JsonEqual(items[i], items[j])
  }

  predicate EnumTyped(ms: seq<Member>)
    requires EnumShaped(ms) && ValidType(ms)
  {
    forall i | 0 <= i < |Get(ms, "enum").items| ::
      MatchesType(Get(ms, "enum").items[i], Get(ms, "type").text)
  }

  predicate ConstTyped(ms: seq<Member>)
    requires Has(ms, "const") && ValidType(ms)
  {
    MatchesType(Get(ms, "const"), Get(ms, "type").text)
  }

  // ---- schema_issues, without the cap ----

  function Unsupported(ms: seq<Member>): seq<Keyed<bool>> {
    if ms == [] then []
    else (if SupportedKeyword(ms[0].name) then [] else [Keyed(ms[0].name, true)]) + Unsupported(ms[1..])
  }

  function KeywordIssues(ms: seq<Member>, path: string): seq<Issue> {
    var names := Sort(Unsupported(ms));
    seq(|names|, i requires 0 <= i < |names| => Issue(path, UnsupportedKeyword(names[i].key)))
  }

  function MarkerIssues(ms: seq<Member>, path: string, root: bool): seq<Issue> {
    if root then
      Check(Lookup(ms, "$schema") == Some(JStr(SCHEMA_URI)), path, WrongSchemaUri)
      + Check(IdPresent(ms), path, MissingId)
    else Check(!Has(ms, "$schema") && !Has(ms, "$id"), path, RootOnly)
  }

  function HeaderIssues(ms: seq<Member>, path: string): seq<Issue> {
    Check(Has(ms, "title") ==> TextAt(ms, "title"), path, AnnotationText("title"))
    + Check(Has(ms, "description") ==> TextAt(ms, "description"), path, AnnotationText("description"))
    + Check(ValidType(ms), path, BadType)
    + Check(GroupAllowed(ms, OBJECT_GROUP, TypeIs(ms, "object")), path, GroupMismatch("object"))
    + Check(GroupAllowed(ms, ARRAY_GROUP, TypeIs(ms, "array")), path, GroupMismatch("array"))
    + Check(GroupAllowed(ms, STRING_GROUP, TypeIs(ms, "string")), path, GroupMismatch("string"))
    + Check(GroupAllowed(ms, NUMERIC_GROUP, Numeric(ms)), path, GroupMismatch("numeric"))
  }

  function BoundIssues(ms: seq<Member>, path: string, low: string, high: string): seq<Issue> {
    Check(Has(ms, low) ==> NaturalAt(ms, low), path, NotNatural(low))
    + Check(Has(ms, high) ==> NaturalAt(ms, high), path, NotNatural(high))
    + Check(NaturalAt(ms, low) && NaturalAt(ms, high) ==> BoundsOrdered(ms, low, high),
            path, CrossedBounds(low))
  }

  function RequiredIssues(ms: seq<Member>, path: string): seq<Issue> {
    if !TextListAt(ms, "required") then [Issue(path, RequiredStrings)]
    else Check(NoRepeats(Required(ms)), path, RequiredRepeats)
  }

  function PatternIssues(ms: seq<Member>, path: string): seq<Issue> {
    if !Has(ms, "pattern") then []
    else if !TextAt(ms, "pattern") then [Issue(path, PatternText)]
    else Check(AuditedPattern(ms), path, PatternUnaudited)
  }

  function NumericIssues(ms: seq<Member>, path: string): seq<Issue> {
    Check(Has(ms, "minimum") ==> NumberAt(ms, "minimum"), path, NotNumber("minimum"))
    + Check(Has(ms, "maximum") ==> NumberAt(ms, "maximum"), path, NotNumber("maximum"))
    + Check(BoundsOrdered(ms, "minimum", "maximum"), path, CrossedBounds("minimum"))
  }

  function EnumIssues(ms: seq<Member>, path: string): seq<Issue> {
    if !Has(ms, "enum") then []
    else if !EnumShaped(ms) then [Issue(path, EnumShape)]
    else if |Get(ms, "enum").items| > MAX_ENUM_ITEMS then [Issue(path, EnumTooLong)]
    else if !PairwiseDifferent(Get(ms, "enum").items) then [Issue(path, EnumRepeats)]
    else Check(ValidType(ms) ==> EnumTyped(ms), path, EnumType)
  }

  function ConstIssues(ms: seq<Member>, path: string): seq<Issue> {
    Check(Has(ms, "const") && ValidType(ms) ==> ConstTyped(ms), path, ConstType)
    + Check(!(Has(ms, "enum") && Has(ms, "const")), path, EnumWithConst)
  }

  function NodeIssues(node: Json, path: string, root: bool, depth: nat): seq<Issue>
    decreases node, 1
  {
    if depth > MAX_NESTING_DEPTH then [Issue(path, TooDeep)]
    else if !node.JObj? then [Issue(path, NotAnObject)]
    else
      var ms := node.members;
      KeywordIssues(ms, path) + MarkerIssues(ms, path, root) + HeaderIssues(ms, path)
      + BodyIssues(node, path, depth)
      + EnumIssues(ms, path) + ConstIssues(ms, path)
  }

  function BodyIssues(node: Json, path: string, depth: nat): seq<Issue>
    requires node.JObj?
    decreases node, 0
  {
    var ms := node.members;
    if TypeIs(ms, "object") then
      Check(ObjectAt(ms, "properties"), path, PropertiesObject)
      + RequiredIssues(ms, path)
      + Check(ClosedObject(ms), path, OpenObject)
      + (if ObjectAt(ms, "properties") then
           ChildIssues(Get(ms, "properties").members, path, depth) else [])
      + Check(RequiredKnown(ms), path, RequiredUnknown)
    else if TypeIs(ms, "array") then
      (if !Has(ms, "items") then [Issue(path, ItemsMissing)]
       else NodeIssues(Get(ms, "items"), Join(path, "items"), false, depth + 1))
      + BoundIssues(ms, path, "minItems", "maxItems")
    else if TypeIs(ms, "string") then
      BoundIssues(ms, path, "minLength", "maxLength") + PatternIssues(ms, path)
    else if Numeric(ms) then NumericIssues(ms, path)
    else []
  }

  function ChildIssues(children: seq<Member>, path: string, depth: nat): seq<Issue>
    decreases children, 0
  {
    if children == [] then []
    else NodeIssues(children[0].value, Join(path, children[0].name), false, depth + 1)
         + ChildIssues(children[1..], path, depth)
  }

  // ---- the same, declared ----

  predicate StringKeywordsOk(ms: seq<Member>) {
    NaturalBounds(ms, "minLength", "maxLength")
    && (Has(ms, "pattern") ==> TextAt(ms, "pattern") && AuditedPattern(ms))
  }

  predicate NumericKeywordsOk(ms: seq<Member>) {
    (Has(ms, "minimum") ==> NumberAt(ms, "minimum"))
    && (Has(ms, "maximum") ==> NumberAt(ms, "maximum"))
    && BoundsOrdered(ms, "minimum", "maximum")
  }

  predicate ObjectKeywordsOk(ms: seq<Member>) {
    ObjectAt(ms, "properties") && TextListAt(ms, "required") && NoRepeats(Required(ms))
    && ClosedObject(ms) && RequiredKnown(ms)
  }

  predicate EnumOk(ms: seq<Member>) {
    Has(ms, "enum") ==>
      EnumShaped(ms) && |Get(ms, "enum").items| <= MAX_ENUM_ITEMS
      && PairwiseDifferent(Get(ms, "enum").items) && (ValidType(ms) ==> EnumTyped(ms))
  }

  predicate KeywordsOk(ms: seq<Member>) {
    AllSupported(ms) && HeaderOk(ms) && BodyOk(ms) && EnumConstOk(ms)
  }

  predicate AllSupported(ms: seq<Member>) {
    forall i | 0 <= i < |ms| :: SupportedKeyword(ms[i].name)
  }

  predicate EnumConstOk(ms: seq<Member>) {
    EnumOk(ms) && (Has(ms, "const") && ValidType(ms) ==> ConstTyped(ms))
    && !(Has(ms, "enum") && Has(ms, "const"))
  }

  // Every node below carries well-formed keywords.
  predicate NodeOk(node: Json)
    decreases node
  {
    node.JObj? && KeywordsOk(node.members)
    && (TypeIs(node.members, "object") ==>
          var ps := Get(node.members, "properties");
          forall i | 0 <= i < |ps.members| :: NodeOk(ps.members[i].value))
    && (TypeIs(node.members, "array") ==> NodeOk(Get(node.members, "items")))
  }

  // The root, and only the root, is marked, and no node lies too deep.
  predicate Placed(node: Json, root: bool, depth: nat)
    requires NodeOk(node)
    decreases node
  {
    var ms := node.members;
    depth <= MAX_NESTING_DEPTH
    && (if root then Lookup(ms, "$schema") == Some(JStr(SCHEMA_URI)) && IdPresent(ms)
        else !Has(ms, "$schema") && !Has(ms, "$id"))
    && (TypeIs(ms, "object") ==>
          var ps := Get(ms, "properties");
          forall i | 0 <= i < |ps.members| :: Placed(ps.members[i].value, false, depth + 1))
    && (TypeIs(ms, "array") ==> Placed(Get(ms, "items"), false, depth + 1))
  }

  predicate WellFormedSchema(schema: Json) {
    NodeOk(schema) && Placed(schema, true, 0)
  }

  lemma {:induction false} UnsupportedNone(ms: seq<Member>)
    ensures Unsupported(ms) == [] <==> AllSupported(ms)
  {
    if ms != [] {
      UnsupportedNone(ms[1..]);
      assert forall i | 0 < i < |ms| :: ms[i] == ms[1..][i - 1];
    }
  }

  lemma KeywordIssuesNone(ms: seq<Member>, path: string)
    ensures KeywordIssues(ms, path) == [] <==> AllSupported(ms)
  {
    UnsupportedNone(ms);
    SortSorts(Unsupported(ms));
    assert |Sort(Unsupported(ms))| == |multiset(Sort(Unsupported(ms)))| == |Unsupported(ms)|;
  }

  predicate HeaderOk(ms: seq<Member>) {
    (Has(ms, "title") ==> TextAt(ms, "title"))
    && (Has(ms, "description") ==> TextAt(ms, "description"))
    && ValidType(ms) && GroupsOk(ms)
  }

  lemma HeaderIssuesNone(ms: seq<Member>, path: string)
    ensures HeaderIssues(ms, path) == [] <==> HeaderOk(ms)
  {
  }

  lemma BoundIssuesNone(ms: seq<Member>, path: string, low: string, high: string)
    ensures BoundIssues(ms, path, low, high) == [] <==> NaturalBounds(ms, low, high)
  {
  }

  lemma EnumConstIssuesNone(ms: seq<Member>, path: string)
    ensures EnumIssues(ms, path) + ConstIssues(ms, path) == [] <==> EnumConstOk(ms)
  {
  }

  lemma TypesExclusive(ms: seq<Member>)
    ensures TypeIs(ms, "object") ==> !TypeIs(ms, "array") && !TypeIs(ms, "string") && !Numeric(ms)
    ensures TypeIs(ms, "array") ==> !TypeIs(ms, "string") && !Numeric(ms)
    ensures TypeIs(ms, "string") ==> !Numeric(ms)
  {
    if TextAt(ms, "type") {
      var t := Get(ms, "type").text;
      assert t == "object" ==> t[0] == 'o';
      assert t == "string" ==> t[0] == 's';
      assert t == "integer" || t == "number" ==> t[0] == 'i' || t[0] == 'n';
      assert t == "array" ==> t[0] == 'a';
    }
  }

  predicate BodyOk(ms: seq<Member>) {
    (TypeIs(ms, "object") ==> ObjectKeywordsOk(ms))
    && (TypeIs(ms, "array") ==> Has(ms, "items") && NaturalBounds(ms, "minItems", "maxItems"))
    && (TypeIs(ms, "string") ==> StringKeywordsOk(ms))
    && (Numeric(ms) ==> NumericKeywordsOk(ms))
  }

  predicate ChildrenClear(node: Json, path: string, depth: nat)
    requires node.JObj?
    requires TypeIs(node.members, "object") ==> ObjectAt(node.members, "properties")
    requires TypeIs(node.members, "array") ==> Has(node.members, "items")
  {
    (TypeIs(node.members, "object") ==>
       ChildIssues(Get(node.members, "properties").members, path, depth) == [])
    && (TypeIs(node.members, "array") ==>
          NodeIssues(Get(node.members, "items"), Join(path, "items"), false, depth + 1) == [])
  }

  lemma BodyIssuesNone(node: Json, path: string, depth: nat)
    requires node.JObj?
    ensures BodyIssues(node, path, depth) == [] <==> BodyOk(node.members) && ChildrenClear(node, path, depth)
  {
    var ms := node.members;
    TypesExclusive(ms);
    if TypeIs(ms, "object") {
      assert BodyOk(ms) <==> ObjectKeywordsOk(ms);
    } else if TypeIs(ms, "array") {
      BoundIssuesNone(ms, path, "minItems", "maxItems");
    } else if TypeIs(ms, "string") {
      BoundIssuesNone(ms, path, "minLength", "maxLength");
    }
  }

  // One node is free of issues exactly when its own keywords and its children are in order.
  lemma {:induction false} LocalIssuesNone(node: Json, path: string, root: bool, depth: nat)
    requires node.JObj? && depth <= MAX_NESTING_DEPTH
    ensures NodeIssues(node, path, root, depth) == [] <==>
      MarkerIssues(node.members, path, root) == [] && KeywordsOk(node.members)
      && ChildrenClear(node, path, depth)
  {
    hide *;
    var ms := node.members;
    KeywordIssuesNone(ms, path);
    HeaderIssuesNone(ms, path);
    BodyIssuesNone(node, path, depth);
    EnumConstIssuesNone(ms, path);
    NodeIssuesSplit(node, path, root, depth);
  }

  lemma NodeIssuesSplit(node: Json, path: string, root: bool, depth: nat)
    requires node.JObj? && depth <= MAX_NESTING_DEPTH
    ensures var ms := node.members;
      NodeIssues(node, path, root, depth) == [] <==>
        KeywordIssues(ms, path) == [] && MarkerIssues(ms, path, root) == [] && HeaderIssues(ms, path) == []
        && BodyIssues(node, path, depth) == [] && EnumIssues(ms, path) + ConstIssues(ms, path) == []
    ensures var ms := node.members;
      KeywordsOk(ms) <==> AllSupported(ms) && HeaderOk(ms) && BodyOk(ms) && EnumConstOk(ms)
  {
  }

  lemma {:induction false} ChildIssuesNone(children: seq<Member>, path: string, depth: nat)
    ensures ChildIssues(children, path, depth) == [] <==>
      forall i | 0 <= i < |children| ::
        NodeOk(children[i].value) && Placed(children[i].value, false, depth + 1)
    decreases children, 0
  {
    hide NodeIssues, NodeOk, Placed;
    if children != [] {
      NodeIssuesNone(children[0].value, Join(path, children[0].name), false, depth + 1);
      ChildIssuesNone(children[1..], path, depth);
      assert forall i | 0 < i < |children| :: children[i] == children[1..][i - 1];
      assert ChildIssues(children, path, depth) == [] <==>
        NodeIssues(children[0].value, Join(path, children[0].name), false, depth + 1) == []
        && ChildIssues(children[1..], path, depth) == [];
    }
  }

  predicate ChildrenWellFormed(node: Json, depth: nat)
    requires node.JObj?
    requires TypeIs(node.members, "object") ==> ObjectAt(node.members, "properties")
    requires TypeIs(node.members, "array") ==> Has(node.members, "items")
  {
    (TypeIs(node.members, "object") ==>
       var ps := Get(node.members, "properties").members;
       forall i | 0 <= i < |ps| :: NodeOk(ps[i].value) && Placed(ps[i].value, false, depth + 1))
    && (TypeIs(node.members, "array") ==>
          var item := Get(node.members, "items");
          NodeOk(item) && Placed(item, false, depth + 1))
  }

  lemma WellFormedSplit(node: Json, root: bool, depth: nat)
    requires node.JObj? && depth <= MAX_NESTING_DEPTH
    ensures NodeOk(node) && Placed(node, root, depth) <==>
      MarkerIssues(node.members, "", root) == [] && KeywordsOk(node.members)
      && ChildrenWellFormed(node, depth)
  {
    hide SupportedKeyword, AllSupported, HeaderOk, EnumConstOk, StringKeywordsOk, NumericKeywordsOk;
  }

  lemma {:induction false} ChildrenClearExact(node: Json, path: string, depth: nat)
    requires node.JObj? && KeywordsOk(node.members)
    ensures ChildrenClear(node, path, depth) <==> ChildrenWellFormed(node, depth)
    decreases node, 0
  {
    hide AllSupported, HeaderOk, EnumConstOk, NodeOk, Placed, NodeIssues, ChildIssues;
    var ms := node.members;
    if TypeIs(ms, "object") {
      ChildIssuesNone(Get(ms, "properties").members, path, depth);
    }
    if TypeIs(ms, "array") {
      NodeIssuesNone(Get(ms, "items"), Join(path, "items"), false, depth + 1);
    }
  }

  lemma {:induction false} NodeIssuesNone(node: Json, path: string, root: bool, depth: nat)
    ensures NodeIssues(node, path, root, depth) == [] <==> NodeOk(node) && Placed(node, root, depth)
    decreases node, 1
  {
    if depth <= MAX_NESTING_DEPTH && node.JObj? {
      hide *;
      LocalIssuesNone(node, path, root, depth);
      WellFormedSplit(node, root, depth);
      MarkerPath(node.members, path, root);
      if KeywordsOk(node.members) {
        ChildrenClearExact(node, path, depth);
      }
    }
  }

  lemma MarkerPath(ms: seq<Member>, path: string, root: bool)
    ensures MarkerIssues(ms, path, root) == [] <==> MarkerIssues(ms, "", root) == []
  {
  }

  /** A schema raises no issue exactly when it is well formed. */
  lemma {:induction false} IssueFreeExact(schema: Json)
    ensures NodeIssues(schema, "", true, 0) == [] <==> WellFormedSchema(schema)
  {
    NodeIssuesNone(schema, "", true, 0);
  }
}
