/** Where schema issues point and what they name: every reported issue sits at the path of a schema node
    that breaks the condition its kind stands for, and every such node is reported. */
module IssueReport {
  import opened Decimals
  import opened Json
  import opened Options
  import opened Pointer
  import opened SchemaProfile
  import opened Sorting

  // ---- what each kind stands for ----

  predicate OfType(ms: seq<Member>, t: string) { Lookup(ms, "type") == Some(JStr(t)) }

  predicate OfNumber(ms: seq<Member>) { OfType(ms, "integer") || OfType(ms, "number") }

  predicate TextMember(v: Option<Json>) { v.Some? && v.value.JStr? }

  predicate Whole(v: Option<Json>) {
    v.Some? && v.value.JNum? && Integral(v.value.number) && Value(v.value.number) >= 0.0
  }

  predicate Number(v: Option<Json>) { v.Some? && v.value.JNum? }

  predicate Texts(v: Option<Json>) {
    v.Some? && v.value.JArr? && forall i | 0 <= i < |v.value.items| :: v.value.items[i].JStr?
  }

  predicate KnownType(ms: seq<Member>) {
    OfType(ms, "object") || OfType(ms, "array") || OfType(ms, "string") || OfType(ms, "integer")
    || OfType(ms, "number") || OfType(ms, "boolean") || OfType(ms, "null")
  }

  // The value is of the type the node names.
  predicate Typed(v: Json, ms: seq<Member>) {
    (OfType(ms, "object") ==> v.JObj?) && (OfType(ms, "array") ==> v.JArr?) && (OfType(ms, "string") ==> v.JStr?)
    && (OfType(ms, "integer") ==> v.JNum? && Integral(v.number)) && (OfType(ms, "number") ==> v.JNum?)
    && (OfType(ms, "boolean") ==> v.JBool?) && (OfType(ms, "null") ==> v.JNull?)
  }

  predicate ProfileKeyword(k: string) {
    k in ["$schema", "$id", "title", "description", "type", "properties", "required", "additionalProperties",
          "items", "minItems", "maxItems", "minLength", "maxLength", "minimum", "maximum", "enum", "const", "pattern"]
  }

  predicate MarkerBreaks(kind: IssueKind, ms: seq<Member>, root: bool) {
    match kind
    case WrongSchemaUri =>
      root && Lookup(ms, "$schema") != Some(JStr("https://json-schema.org/draft/2020-12/schema"))
    case MissingId => root && !(TextMember(Lookup(ms, "$id")) && Lookup(ms, "$id").value.text != "")
    case RootOnly => !root && (Has(ms, "$schema") || Has(ms, "$id"))
    case _ => false
  }

  predicate HeaderBreaks(kind: IssueKind, ms: seq<Member>) {
    match kind
    case AnnotationText(k) =>
      (k == "title" || k == "description") && Has(ms, k) && !TextMember(Lookup(ms, k))
    case BadType => !KnownType(ms)
    case GroupMismatch(group) =>
      (group == "object" && !OfType(ms, "object")
         && (Has(ms, "properties") || Has(ms, "required") || Has(ms, "additionalProperties")))
      || (group == "array" && !OfType(ms, "array")
            && (Has(ms, "items") || Has(ms, "minItems") || Has(ms, "maxItems")))
      || (group == "string" && !OfType(ms, "string")
            && (Has(ms, "minLength") || Has(ms, "maxLength") || Has(ms, "pattern")))
      || (group == "numeric" && !OfNumber(ms) && (Has(ms, "minimum") || Has(ms, "maximum")))
    case _ => false
  }

  predicate ObjectBreaks(kind: IssueKind, ms: seq<Member>) {
    match kind
    case PropertiesObject => !(Has(ms, "properties") && Get(ms, "properties").JObj?)
    case RequiredStrings => !Texts(Lookup(ms, "required"))
    case RequiredRepeats =>
      Texts(Lookup(ms, "required")) &&
      var names := Get(ms, "required").items;
      exists i, j | 0 <= i < j < |names| :: names[i] == names[j]
    case OpenObject => Lookup(ms, "additionalProperties") != Some(JBool(false))
    case RequiredUnknown =>
      Texts(Lookup(ms, "required")) &&
      var names := Get(ms, "required").items;
      exists i | 0 <= i < |names| ::
        !(Has(ms, "properties") && Get(ms, "properties").JObj?
          && Has(Get(ms, "properties").members, names[i].text))
    case _ => false
  }

  // Bounds of a counted type.
  predicate CountBreaks(kind: IssueKind, ms: seq<Member>, low: string, high: string) {
    match kind
    case NotNatural(k) => (k == low || k == high) && Has(ms, k) && !Whole(Lookup(ms, k))
    case CrossedBounds(k) =>
      k == low && Whole(Lookup(ms, low)) && Whole(Lookup(ms, high))
      && Value(Get(ms, low).number) > Value(Get(ms, high).number)
    case _ => false
  }

  predicate PatternBreaks(kind: IssueKind, ms: seq<Member>) {
    match kind
    case PatternText => Has(ms, "pattern") && !TextMember(Lookup(ms, "pattern"))
    case PatternUnaudited =>
      TextMember(Lookup(ms, "pattern")) && Lookup(ms, "pattern").value.text != IDENTIFIER_PATTERN
      && Lookup(ms, "pattern").value.text != CONTROL_SAFE_PATTERN
    case _ => false
  }

  predicate NumberBreaks(kind: IssueKind, ms: seq<Member>) {
    match kind
    case NotNumber(k) => (k == "minimum" || k == "maximum") && Has(ms, k) && !Number(Lookup(ms, k))
    case CrossedBounds(k) =>
      k == "minimum" && Number(Lookup(ms, "minimum")) && Number(Lookup(ms, "maximum"))
      && Value(Get(ms, "minimum").number) > Value(Get(ms, "maximum").number)
    case _ => false
  }

  predicate BodyBreaks(kind: IssueKind, ms: seq<Member>) {
    (OfType(ms, "object") && ObjectBreaks(kind, ms))
    || (OfType(ms, "array")
          && ((kind == ItemsMissing && !Has(ms, "items")) || CountBreaks(kind, ms, "minItems", "maxItems")))
    || (OfType(ms, "string") && (CountBreaks(kind, ms, "minLength", "maxLength") || PatternBreaks(kind, ms)))
    || (OfNumber(ms) && NumberBreaks(kind, ms))
  }

  predicate Listed(ms: seq<Member>) { Has(ms, "enum") && Get(ms, "enum").JArr? && Get(ms, "enum").items != [] }

  predicate Repeats(items: seq<Json>) { exists i, j | 0 <= i < j < |items| :: JsonEqual(items[i], items[j]) }

  // Later conditions on an enum are looked at only where the earlier ones hold.
  predicate EnumBreaks(kind: IssueKind, ms: seq<Member>) {
    match kind
    case EnumShape => Has(ms, "enum") && !Listed(ms)
    case EnumTooLong => Listed(ms) && |Get(ms, "enum").items| > 64
    case EnumRepeats => Listed(ms) && |Get(ms, "enum").items| <= 64 && Repeats(Get(ms, "enum").items)
    case EnumType =>
      Listed(ms) && |Get(ms, "enum").items| <= 64 && !Repeats(Get(ms, "enum").items) && KnownType(ms)
      && exists i | 0 <= i < |Get(ms, "enum").items| :: !Typed(Get(ms, "enum").items[i], ms)
    case ConstType => Has(ms, "const") && KnownType(ms) && !Typed(Get(ms, "const"), ms)
    case EnumWithConst => Has(ms, "enum") && Has(ms, "const")
    case _ => false
  }

  // The node breaks the condition of this kind, at this depth below the root.
  predicate Breaks(kind: IssueKind, node: Json, depth: nat) {
    if depth > 128 then kind == TooDeep
    else if !node.JObj? then kind == NotAnObject
    else
      (kind.UnsupportedKeyword? && Has(node.members, kind.keyword) && !ProfileKeyword(kind.keyword))
      || MarkerBreaks(kind, node.members, depth == 0) || HeaderBreaks(kind, node.members)
      || BodyBreaks(kind, node.members) || EnumBreaks(kind, node.members)
  }

  // The schema node that tokens lead to: through a property of an object node or the items of an array
  // node, and no further below a node that lies too deep.
  function NodeAt(node: Json, tokens: seq<string>, depth: nat): Option<Json>
    decreases tokens
  {
    if tokens == [] then Some(node)
    else if depth > 128 || !node.JObj? then None
    else if OfType(node.members, "object") then
      match Lookup(node.members, "properties")
      case Some(JObj(ps)) => if Has(ps, tokens[0]) then NodeAt(Get(ps, tokens[0]), tokens[1..], depth + 1) else None
      case _ => None
    else if OfType(node.members, "array") && tokens[0] == "items" && Has(node.members, "items") then
      NodeAt(Get(node.members, "items"), tokens[1..], depth + 1)
    else None
  }

  predicate BreaksAt(kind: IssueKind, node: Json, tokens: seq<string>, depth: nat) {
    NodeAt(node, tokens, depth).Some? && Breaks(kind, NodeAt(node, tokens, depth).value, depth + |tokens|)
  }

  // ---- one group of issues at a time ----

  lemma {:induction false} InUnsupported(ms: seq<Member>, k: string)
    ensures Keyed(k, true) in Unsupported(ms) <==> Has(ms, k) && !SupportedKeyword(k)
    ensures forall e | e in Unsupported(ms) :: e.value
  {
    hide SupportedKeyword;
    if ms != [] {
      InUnsupported(ms[1..], k);
      HasHead(ms, k);
    }
  }

  lemma HasHead(ms: seq<Member>, k: string)
    requires ms != []
    ensures Has(ms, k) <==> ms[0].name == k || Has(ms[1..], k)
  {
    assert forall i :: 0 < i < |ms| ==> ms[i] == ms[1..][i - 1];
    if i :| 0 <= i < |ms[1..]| && ms[1..][i].name == k {
      assert ms[i + 1].name == k;
    }
  }

  lemma ProfileKeywords(k: string)
    ensures SupportedKeyword(k) <==> ProfileKeyword(k)
  {
  }

  predicate Named(names: seq<Keyed<bool>>, k: string) { exists i | 0 <= i < |names| :: names[i].key == k }

  lemma InSorted(ms: seq<Member>, k: string)
    ensures Named(Sort(Unsupported(ms)), k) <==> Has(ms, k) && !ProfileKeyword(k)
  {
    InUnsupported(ms, k);
    ProfileKeywords(k);
    SortSorts(Unsupported(ms));
    hide Sort, Unsupported, SupportedKeyword, ProfileKeyword, Has;
    var all, names := Unsupported(ms), Sort(Unsupported(ms));
    assert forall e :: e in names <==> e in all by {
      forall e ensures e in names <==> e in all {
        assert e in multiset(names) <==> e in multiset(all);
      }
    }
    if i :| 0 <= i < |names| && names[i].key == k {
      assert names[i] in all && names[i] == Keyed(k, true);
    }
    if Keyed(k, true) in all {
      assert Keyed(k, true) in names;
      var i :| 0 <= i < |names| && names[i] == Keyed(k, true);
      assert names[i].key == k;
    }
  }

  lemma InKeywordList(x: Issue, names: seq<Keyed<bool>>, all: seq<Issue>, path: string)
    requires |all| == |names|
    requires forall i :: 0 <= i < |names| ==> all[i] == Issue(path, UnsupportedKeyword(names[i].key))
    ensures x in all <==>
      x.path == path && x.kind.UnsupportedKeyword? && Named(names, x.kind.keyword)
  {
    if x in all {
      var i :| 0 <= i < |all| && all[i] == x;
      assert names[i].key == x.kind.keyword;
    }
  }

  lemma {:induction false} InKeywords(x: Issue, ms: seq<Member>, path: string)
    ensures x in KeywordIssues(ms, path) <==>
      x.path == path && x.kind.UnsupportedKeyword? && Has(ms, x.kind.keyword) && !ProfileKeyword(x.kind.keyword)
  {
    hide Sort, Unsupported, ProfileKeyword, Has, Named;
    InKeywordList(x, Sort(Unsupported(ms)), KeywordIssues(ms, path), path);
    if x.kind.UnsupportedKeyword? {
      InSorted(ms, x.kind.keyword);
    }
  }

  lemma InCheck(x: Issue, holds: bool, path: string, kind: IssueKind)
    ensures x in Check(holds, path, kind) <==> !holds && x == Issue(path, kind)
  {
  }

  lemma InMarkers(x: Issue, ms: seq<Member>, path: string, root: bool)
    ensures x in MarkerIssues(ms, path, root) <==> x.path == path && MarkerBreaks(x.kind, ms, root)
  {
    hide Has;
  }

  lemma KnownTypes(ms: seq<Member>)
    ensures ValidType(ms) <==> KnownType(ms)
    ensures forall t :: TypeIs(ms, t) <==> OfType(ms, t)
    ensures Numeric(ms) <==> OfNumber(ms)
  {
    hide Has;
  }

  lemma GroupsAllowed(ms: seq<Member>)
    ensures GroupAllowed(ms, OBJECT_GROUP, TypeIs(ms, "object")) <==>
      OfType(ms, "object") || !(Has(ms, "properties") || Has(ms, "required") || Has(ms, "additionalProperties"))
    ensures GroupAllowed(ms, ARRAY_GROUP, TypeIs(ms, "array")) <==>
      OfType(ms, "array") || !(Has(ms, "items") || Has(ms, "minItems") || Has(ms, "maxItems"))
    ensures GroupAllowed(ms, STRING_GROUP, TypeIs(ms, "string")) <==>
      OfType(ms, "string") || !(Has(ms, "minLength") || Has(ms, "maxLength") || Has(ms, "pattern"))
    ensures GroupAllowed(ms, NUMERIC_GROUP, Numeric(ms)) <==>
      OfNumber(ms) || !(Has(ms, "minimum") || Has(ms, "maximum"))
  {
    KnownTypes(ms);
    hide Has, TypeIs, OfType, Numeric, OfNumber;
    assert OBJECT_GROUP[0] == "properties" && OBJECT_GROUP[1] == "required";
    assert OBJECT_GROUP[2] == "additionalProperties";
    assert ARRAY_GROUP[0] == "items" && ARRAY_GROUP[1] == "minItems" && ARRAY_GROUP[2] == "maxItems";
    assert STRING_GROUP[0] == "minLength" && STRING_GROUP[1] == "maxLength" && STRING_GROUP[2] == "pattern";
    assert NUMERIC_GROUP[0] == "minimum" && NUMERIC_GROUP[1] == "maximum";
  }

  lemma HeaderParts(x: Issue, ms: seq<Member>, path: string)
    ensures x in HeaderIssues(ms, path) <==>
      (!(Has(ms, "title") ==> TextAt(ms, "title")) && x == Issue(path, AnnotationText("title")))
      || (!(Has(ms, "description") ==> TextAt(ms, "description")) && x == Issue(path, AnnotationText("description")))
      || (!ValidType(ms) && x == Issue(path, BadType))
      || (!GroupAllowed(ms, OBJECT_GROUP, TypeIs(ms, "object")) && x == Issue(path, GroupMismatch("object")))
      || (!GroupAllowed(ms, ARRAY_GROUP, TypeIs(ms, "array")) && x == Issue(path, GroupMismatch("array")))
      || (!GroupAllowed(ms, STRING_GROUP, TypeIs(ms, "string")) && x == Issue(path, GroupMismatch("string")))
      || (!GroupAllowed(ms, NUMERIC_GROUP, Numeric(ms)) && x == Issue(path, GroupMismatch("numeric")))
  {
    hide GroupAllowed, TypeIs, Numeric, ValidType, Has, TextAt;
  }

  lemma InHeader(x: Issue, ms: seq<Member>, path: string)
    ensures x in HeaderIssues(ms, path) <==> x.path == path && HeaderBreaks(x.kind, ms)
  {
    HeaderParts(x, ms, path);
    KnownTypes(ms);
    GroupsAllowed(ms);
    hide HeaderIssues, GroupAllowed, TypeIs, OfType, Numeric, OfNumber, ValidType, KnownType, Has;
    if x.kind.GroupMismatch? {
      LabelsDiffer();
    }
  }

  lemma LabelsDiffer()
    ensures "object" != "string" && "array" != "object" && "array" != "string" && "numeric" != "object"
    ensures "numeric" != "string" && "title" != "description"
  {
    assert "object"[0] == 'o' && "string"[0] == 's';
  }

  lemma WholeNatural(ms: seq<Member>, k: string)
    ensures NaturalAt(ms, k) <==> Whole(Lookup(ms, k))
    ensures NumberAt(ms, k) <==> Number(Lookup(ms, k))
  {
    hide Has, Integral, Value;
    assert "integer"[0] == 'i' && "object"[0] == 'o' && "string"[0] == 's' && |"array"| == 5;
  }

  lemma InBounds(x: Issue, ms: seq<Member>, path: string, low: string, high: string)
    ensures x in BoundIssues(ms, path, low, high) <==> x.path == path && CountBreaks(x.kind, ms, low, high)
  {
    WholeNatural(ms, low);
    WholeNatural(ms, high);
    hide NaturalAt, NumberAt, Has, Integral, Value;
  }

  lemma InNumeric(x: Issue, ms: seq<Member>, path: string)
    ensures x in NumericIssues(ms, path) <==> x.path == path && NumberBreaks(x.kind, ms)
  {
    WholeNatural(ms, "minimum");
    WholeNatural(ms, "maximum");
    hide NumberAt, Has, Value;
  }

  lemma InPattern(x: Issue, ms: seq<Member>, path: string)
    ensures x in PatternIssues(ms, path) <==> x.path == path && PatternBreaks(x.kind, ms)
  {
    hide Has, IDENTIFIER_PATTERN, CONTROL_SAFE_PATTERN;
  }

  lemma TypedMatches(v: Json, ms: seq<Member>)
    requires ValidType(ms)
    ensures MatchesType(v, Get(ms, "type").text) <==> Typed(v, ms)
  {
    hide Has, Integral;
    var t := Get(ms, "type").text;
    assert t == "object" ==> t[0] == 'o';
    assert t == "string" ==> t[0] == 's';
    assert t == "number" ==> t[0] == 'n';
    assert t == "integer" ==> t[0] == 'i';
    assert t == "boolean" ==> t[0] == 'b';
  }

  lemma InEnum(x: Issue, ms: seq<Member>, path: string)
    ensures x in EnumIssues(ms, path) + ConstIssues(ms, path) <==> x.path == path && EnumBreaks(x.kind, ms)
  {
    KnownTypes(ms);
    EnumConditions(ms);
    ConstCondition(ms);
    hide Has, ValidType, KnownType, Typed, EnumTyped, ConstTyped, PairwiseDifferent, Repeats, TypeIs, OfType;
  }

  lemma EnumConditions(ms: seq<Member>)
    ensures EnumShaped(ms) <==> Listed(ms)
    ensures Listed(ms) ==> (PairwiseDifferent(Get(ms, "enum").items) <==> !Repeats(Get(ms, "enum").items))
    ensures Listed(ms) && ValidType(ms) ==>
      (EnumTyped(ms) <==> forall i | 0 <= i < |Get(ms, "enum").items| :: Typed(Get(ms, "enum").items[i], ms))
  {
    hide Has, JsonType, Typed, JsonEqual, MatchesType;
    if Listed(ms) && ValidType(ms) {
      forall i | 0 <= i < |Get(ms, "enum").items|
        ensures MatchesType(Get(ms, "enum").items[i], Get(ms, "type").text) <==> Typed(Get(ms, "enum").items[i], ms)
      {
        TypedMatches(Get(ms, "enum").items[i], ms);
      }
    }
  }

  lemma ConstCondition(ms: seq<Member>)
    ensures Has(ms, "const") && ValidType(ms) ==> (ConstTyped(ms) <==> Typed(Get(ms, "const"), ms))
  {
    hide Has, ValidType, Typed, MatchesType;
    if Has(ms, "const") && ValidType(ms) {
      TypedMatches(Get(ms, "const"), ms);
    }
  }

  // ---- a node's own issues, and its children's ----

  // The children the walk goes on to, each with its token.
  ghost predicate Child(node: Json, token: string, child: Json)
    requires node.JObj?
  {
    (OfType(node.members, "object") && Has(node.members, "properties") && Get(node.members, "properties").JObj?
       && Member(token, child) in Get(node.members, "properties").members)
    || (OfType(node.members, "array") && token == "items" && Has(node.members, "items")
          && child == Get(node.members, "items"))
  }

  lemma {:induction false} InChildren(x: Issue, children: seq<Member>, path: string, depth: nat)
    ensures x in ChildIssues(children, path, depth) <==>
      exists m | m in children :: x in NodeIssues(m.value, Join(path, m.name), false, depth + 1)
  {
    hide NodeIssues, Join;
    if children != [] {
      InChildren(x, children[1..], path, depth);
      assert children == [children[0]] + children[1..];
    }
  }

  lemma InRequired(x: Issue, ms: seq<Member>, path: string)
    ensures x in RequiredIssues(ms, path) <==>
      x.path == path && (x.kind == RequiredStrings || x.kind == RequiredRepeats) && ObjectBreaks(x.kind, ms)
  {
    hide Has;
    if Texts(Lookup(ms, "required")) {
      assert Required(ms) == Get(ms, "required").items;
    }
  }

  lemma InUnknown(ms: seq<Member>)
    ensures RequiredKnown(ms) <==> !ObjectBreaks(RequiredUnknown, ms)
  {
    hide Has;
    if TextListAt(ms, "required") {
      var names := Get(ms, "required").items;
      assert Texts(Lookup(ms, "required")) && Required(ms) == names;
      assert names != [] ==> names[0].JStr?;
    }
    if !ObjectAt(ms, "properties") {
      forall i | 0 <= i < |Required(ms)| ensures !Has(Properties(ms), Required(ms)[i].text) {
        NoneIn(Properties(ms), Required(ms)[i].text);
      }
    }
  }

  lemma NoneIn(ms: seq<Member>, name: string)
    ensures ms == [] ==> !Has(ms, name)
  {
  }

  // An issue in the part of the list that one child contributes.
  ghost predicate InChild(x: Issue, node: Json, path: string, depth: nat, token: string, child: Json)
    requires node.JObj?
  {
    Child(node, token, child) && x in NodeIssues(child, Join(path, token), false, depth + 1)
  }

  lemma ObjectParts(x: Issue, node: Json, path: string, depth: nat)
    requires node.JObj? && TypeIs(node.members, "object")
    ensures var ms := node.members;
      x in BodyIssues(node, path, depth) <==>
        (!ObjectAt(ms, "properties") && x == Issue(path, PropertiesObject))
        || x in RequiredIssues(ms, path)
        || (!ClosedObject(ms) && x == Issue(path, OpenObject))
        || (ObjectAt(ms, "properties") && x in ChildIssues(Get(ms, "properties").members, path, depth))
        || (!RequiredKnown(ms) && x == Issue(path, RequiredUnknown))
  {
    hide RequiredIssues, ChildIssues, RequiredKnown, ClosedObject, Has, TypeIs;
  }

  lemma ObjectOwn(x: Issue, ms: seq<Member>, path: string)
    ensures ((!ObjectAt(ms, "properties") && x == Issue(path, PropertiesObject))
             || x in RequiredIssues(ms, path)
             || (!ClosedObject(ms) && x == Issue(path, OpenObject))
             || (!RequiredKnown(ms) && x == Issue(path, RequiredUnknown))) <==>
      x.path == path && ObjectBreaks(x.kind, ms)
  {
    InRequired(x, ms, path);
    InUnknown(ms);
    hide RequiredIssues, RequiredKnown, Has, Texts;
  }

  lemma ObjectChildren(x: Issue, node: Json, path: string, depth: nat)
    requires node.JObj? && OfType(node.members, "object")
    ensures (ObjectAt(node.members, "properties")
             && x in ChildIssues(Get(node.members, "properties").members, path, depth)) <==>
      exists token, child :: InChild(x, node, path, depth, token, child)
  {
    ObjectOnly(node.members);
    hide Has, NodeIssues, ChildIssues, OfType, OfNumber, Join;
    if ObjectAt(node.members, "properties") {
      var ps := Get(node.members, "properties").members;
      InChildren(x, ps, path, depth);
      if m :| m in ps && x in NodeIssues(m.value, Join(path, m.name), false, depth + 1) {
        assert m == Member(m.name, m.value);
        assert InChild(x, node, path, depth, m.name, m.value);
      }
      if token, child :| InChild(x, node, path, depth, token, child) {
        assert Member(token, child) in ps;
      }
    }
  }

  lemma {:induction false} InObject(x: Issue, node: Json, path: string, depth: nat)
    requires node.JObj? && OfType(node.members, "object")
    ensures x in BodyIssues(node, path, depth) <==>
      (x.path == path && BodyBreaks(x.kind, node.members))
      || exists token, child :: InChild(x, node, path, depth, token, child)
  {
    var ms := node.members;
    KnownTypes(ms);
    ObjectParts(x, node, path, depth);
    ObjectOwn(x, ms, path);
    ObjectChildren(x, node, path, depth);
    ObjectOnly(ms);
    hide BodyIssues, RequiredIssues, RequiredKnown, ClosedObject, ObjectAt, ChildIssues, OfType, OfNumber;
    hide ObjectBreaks, CountBreaks, PatternBreaks, NumberBreaks, InChild, Has;
  }

  lemma ObjectOnly(ms: seq<Member>)
    ensures OfType(ms, "object") ==> !OfType(ms, "array") && !OfType(ms, "string") && !OfNumber(ms)
    ensures OfType(ms, "array") ==> !OfType(ms, "string") && !OfNumber(ms)
    ensures OfType(ms, "string") ==> !OfNumber(ms)
  {
    KnownTypes(ms);
    TypesExclusive(ms);
    hide TypeIs, OfType, Numeric, OfNumber;
  }

  lemma {:induction false} InArray(x: Issue, node: Json, path: string, depth: nat)
    requires node.JObj? && OfType(node.members, "array")
    ensures x in BodyIssues(node, path, depth) <==>
      (x.path == path && BodyBreaks(x.kind, node.members))
      || exists token, child :: InChild(x, node, path, depth, token, child)
  {
    var ms := node.members;
    KnownTypes(ms);
    ObjectOnly(ms);
    TypesExclusive(ms);
    InBounds(x, ms, path, "minItems", "maxItems");
    hide BoundIssues, Has, NodeIssues, OfType, OfNumber, CountBreaks, TypeIs, Numeric, ObjectBreaks;
    hide PatternBreaks, NumberBreaks, Join;
    if Has(ms, "items") && x in NodeIssues(Get(ms, "items"), Join(path, "items"), false, depth + 1) {
      assert InChild(x, node, path, depth, "items", Get(ms, "items"));
    }
  }

  lemma {:induction false} InScalar(x: Issue, node: Json, path: string, depth: nat)
    requires node.JObj? && !OfType(node.members, "object") && !OfType(node.members, "array")
    ensures x in BodyIssues(node, path, depth) <==> x.path == path && BodyBreaks(x.kind, node.members)
    ensures forall token, child :: !InChild(x, node, path, depth, token, child)
  {
    var ms := node.members;
    KnownTypes(ms);
    ObjectOnly(ms);
    InBounds(x, ms, path, "minLength", "maxLength");
    InPattern(x, ms, path);
    InNumeric(x, ms, path);
    hide BoundIssues, PatternIssues, NumericIssues, Has, NodeIssues, OfType, OfNumber, CountBreaks, TypeIs, Numeric;
    hide ObjectBreaks, PatternBreaks, NumberBreaks, Join;
  }

  lemma NodeParts(x: Issue, node: Json, path: string, root: bool, depth: nat)
    requires node.JObj? && depth <= 128
    ensures var ms := node.members;
      x in NodeIssues(node, path, root, depth) <==>
        x in KeywordIssues(ms, path) || x in MarkerIssues(ms, path, root) || x in HeaderIssues(ms, path)
        || x in BodyIssues(node, path, depth) || x in EnumIssues(ms, path) + ConstIssues(ms, path)
  {
    hide KeywordIssues, MarkerIssues, HeaderIssues, BodyIssues, EnumIssues, ConstIssues;
  }

  /** What one node contributes to the list: its own broken conditions, and its children's issues. */
  lemma {:induction false} InNode(x: Issue, node: Json, path: string, depth: nat)
    requires node.JObj? && depth <= 128
    ensures x in NodeIssues(node, path, depth == 0, depth) <==>
      (x.path == path && Breaks(x.kind, node, depth))
      || exists token, child :: InChild(x, node, path, depth, token, child)
  {
    hide *;
    var ms := node.members;
    NodeParts(x, node, path, depth == 0, depth);
    InKeywords(x, ms, path);
    InMarkers(x, ms, path, depth == 0);
    InHeader(x, ms, path);
    InEnum(x, ms, path);
    if OfType(ms, "object") {
      InObject(x, node, path, depth);
    } else if OfType(ms, "array") {
      InArray(x, node, path, depth);
    } else {
      InScalar(x, node, path, depth);
    }
    BreaksParts(x.kind, node, depth);
  }

  lemma BreaksParts(kind: IssueKind, node: Json, depth: nat)
    requires node.JObj? && depth <= 128
    ensures Breaks(kind, node, depth) <==>
      (kind.UnsupportedKeyword? && Has(node.members, kind.keyword) && !ProfileKeyword(kind.keyword))
      || MarkerBreaks(kind, node.members, depth == 0) || HeaderBreaks(kind, node.members)
      || BodyBreaks(kind, node.members) || EnumBreaks(kind, node.members)
  {
  }

  // ---- both directions along a path ----

  lemma {:induction false} Reported(kind: IssueKind, node: Json, tokens: seq<string>, path: string, depth: nat)
    requires Unique(node) && BreaksAt(kind, node, tokens, depth)
    ensures Issue(Render(path, tokens), kind) in NodeIssues(node, path, depth == 0, depth)
    decreases tokens
  {
    var x := Issue(Render(path, tokens), kind);
    hide NodeIssues, Breaks, Join, NodeAt, Unique, Child;
    HereAt(node, depth);
    if tokens == [] {
      ReportedHere(x, node, path, depth);
    } else {
      var child := ChildAt(node, tokens, depth);
      Reported(kind, child, tokens[1..], Join(path, tokens[0]), depth + 1);
      assert InChild(x, node, path, depth, tokens[0], child);
      InNode(x, node, path, depth);
    }
  }

  lemma ReportedHere(x: Issue, node: Json, path: string, depth: nat)
    requires x.path == path && Breaks(x.kind, node, depth)
    ensures x in NodeIssues(node, path, depth == 0, depth)
  {
    if depth <= 128 && node.JObj? {
      hide NodeIssues, Breaks;
      InNode(x, node, path, depth);
    }
  }

  // The first step of a path, as a child.
  lemma ChildAt(node: Json, tokens: seq<string>, depth: nat) returns (child: Json)
    requires tokens != [] && NodeAt(node, tokens, depth).Some? && Unique(node)
    ensures depth <= 128 && node.JObj? && Child(node, tokens[0], child) && Unique(child)
    ensures NodeAt(node, tokens, depth) == NodeAt(child, tokens[1..], depth + 1)
  {
    hide OfType;
    var ms := node.members;
    if OfType(ms, "object") {
      var i := IndexOf(ms, "properties");
      var ps := Get(ms, "properties").members;
      assert Unique(ms[i].value);
      child := Get(ps, tokens[0]);
      assert Unique(ps[IndexOf(ps, tokens[0])].value);
      assert ps[IndexOf(ps, tokens[0])] == Member(tokens[0], child);
    } else {
      child := Get(ms, "items");
      assert Unique(ms[IndexOf(ms, "items")].value);
    }
  }

  // A child is where its token leads.
  lemma ChildReached(node: Json, token: string, child: Json, rest: seq<string>, depth: nat)
    requires node.JObj? && depth <= 128 && Unique(node) && Child(node, token, child)
    ensures NodeAt(node, [token] + rest, depth) == NodeAt(child, rest, depth + 1) && Unique(child)
  {
    var ms := node.members;
    ObjectOnly(ms);
    hide OfType, OfNumber;
    assert ([token] + rest)[1..] == rest;
    if OfType(ms, "object") {
      var ps := Get(ms, "properties").members;
      assert Unique(ms[IndexOf(ms, "properties")].value);
      var j :| 0 <= j < |ps| && ps[j] == Member(token, child);
      GetAt(ps, j);
    } else {
      assert Unique(ms[IndexOf(ms, "items")].value);
    }
  }

  lemma {:induction false} Found(x: Issue, node: Json, path: string, depth: nat) returns (tokens: seq<string>)
    requires Unique(node) && x in NodeIssues(node, path, depth == 0, depth)
    ensures x.path == Render(path, tokens) && BreaksAt(x.kind, node, tokens, depth)
    decreases node
  {
    hide NodeIssues, Breaks, Join, Unique, NodeAt;
    tokens := [];
    HereAt(node, depth);
    if depth > 128 || !node.JObj? {
      FoundHere(x, node, path, depth);
    } else {
      InNode(x, node, path, depth);
      if !(x.path == path && Breaks(x.kind, node, depth)) {
        var token, child :| InChild(x, node, path, depth, token, child);
        hide Child;
        ChildSmaller(node, token, child);
        ChildReached(node, token, child, [], depth);
        var rest := Found(x, child, Join(path, token), depth + 1);
        ChildReached(node, token, child, rest, depth);
        tokens := [token] + rest;
        assert tokens[1..] == rest;
      }
    }
  }

  lemma HereAt(node: Json, depth: nat)
    ensures NodeAt(node, [], depth) == Some(node)
  {
  }

  lemma FoundHere(x: Issue, node: Json, path: string, depth: nat)
    requires (depth > 128 || !node.JObj?) && x in NodeIssues(node, path, depth == 0, depth)
    ensures x.path == path && Breaks(x.kind, node, depth)
  {
  }

  lemma ChildSmaller(node: Json, token: string, child: Json)
    requires node.JObj? && Child(node, token, child)
    ensures child < node
  {
  }

  /** The report is exact: an issue of a kind is reported at a path exactly when the path's tokens lead,
      through `properties` names and `items`, to a node that breaks the condition the kind stands for. */
  lemma {:induction false} IssuesExact(path: string, kind: IssueKind, schema: Json)
    requires Unique(schema)
    ensures Issue(path, kind) in NodeIssues(schema, "", true, 0) <==>
      exists tokens :: path == Render("", tokens) && BreaksAt(kind, schema, tokens, 0)
  {
    hide NodeIssues, BreaksAt;
    if Issue(path, kind) in NodeIssues(schema, "", true, 0) {
      var tokens := Found(Issue(path, kind), schema, "", 0);
    }
    if tokens :| path == Render("", tokens) && BreaksAt(kind, schema, tokens, 0) {
      Reported(kind, schema, tokens, "", 0);
    }
  }
}
