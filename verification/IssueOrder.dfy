/** In which order schema issues are reported: node by node as the schema is read from front to back, and at
    each node its broken conditions in one fixed order, some before its children and some after them. */
module IssueOrder {
  import opened Decimals
  import opened IssueReport
  import opened Json
  import opened Pointer
  import opened SchemaProfile

  // ---- the fixed orders ----

  const MARKER_KINDS := [WrongSchemaUri, MissingId, RootOnly]
  const HEADER_KINDS := [AnnotationText("title"), AnnotationText("description"), BadType, GroupMismatch("object"),
                         GroupMismatch("array"), GroupMismatch("string"), GroupMismatch("numeric")]
  const SHAPE_KINDS := [PropertiesObject, RequiredStrings, RequiredRepeats, OpenObject, ItemsMissing]
  const PATTERN_KINDS := [PatternText, PatternUnaudited]
  const NUMBER_KINDS := [NotNumber("minimum"), NotNumber("maximum"), CrossedBounds("minimum")]
  const ENUM_KINDS := [EnumShape, EnumTooLong, EnumRepeats, EnumType, ConstType, EnumWithConst]

  function CountKinds(low: string, high: string): seq<IssueKind> {
    [NotNatural(low), NotNatural(high), CrossedBounds(low)]
  }

  const BEFORE_CHILDREN := MARKER_KINDS + (HEADER_KINDS + SHAPE_KINDS)
  const AFTER_CHILDREN := [RequiredUnknown]
    + (CountKinds("minItems", "maxItems")
       + (CountKinds("minLength", "maxLength") + (PATTERN_KINDS + (NUMBER_KINDS + ENUM_KINDS))))

  // The conditions among these that the node breaks, in their order.
  function Picked(kinds: seq<IssueKind>, node: Json, depth: nat, path: string): seq<Issue> {
    if kinds == [] then []
    else (if Breaks(kinds[0], node, depth) then [Issue(path, kinds[0])] else []) + Picked(kinds[1..], node, depth, path)
  }

  // What a node reports: itself, then the children it has by type, then itself again.
  function Told(node: Json, path: string, depth: nat): seq<Issue>
    decreases node, 1
  {
    if depth > 128 then [Issue(path, TooDeep)]
    else if !node.JObj? then [Issue(path, NotAnObject)]
    else
      KeywordIssues(node.members, path) + Picked(BEFORE_CHILDREN, node, depth, path)
      + (if OfType(node.members, "object") then
           match Lookup(node.members, "properties")
           case Some(JObj(ps)) => ToldChildren(ps, path, depth)
           case _ => []
         else if OfType(node.members, "array") && Has(node.members, "items") then
           Told(Get(node.members, "items"), Join(path, "items"), depth + 1)
         else [])
      + Picked(AFTER_CHILDREN, node, depth, path)
  }

  function ToldChildren(children: seq<Member>, path: string, depth: nat): seq<Issue>
    decreases children, 0
  {
    if children == [] then []
    else Told(children[0].value, Join(path, children[0].name), depth + 1) + ToldChildren(children[1..], path, depth)
  }

  // ---- picking ----

  lemma {:induction false} PickedConcat(a: seq<IssueKind>, b: seq<IssueKind>, node: Json, depth: nat, path: string)
    ensures Picked(a + b, node, depth, path) == Picked(a, node, depth, path) + Picked(b, node, depth, path)
  {
    hide Breaks;
    if a == [] {
      assert a + b == b;
    } else {
      assert (a + b)[1..] == a[1..] + b;
      PickedConcat(a[1..], b, node, depth, path);
    }
  }

  function Tell(kind: IssueKind, node: Json, depth: nat, path: string): seq<Issue> {
    Check(!Breaks(kind, node, depth), path, kind)
  }

  lemma PickedStep(kinds: seq<IssueKind>, node: Json, depth: nat, path: string)
    requires kinds != []
    ensures Picked(kinds, node, depth, path) ==
      Tell(kinds[0], node, depth, path) + Picked(kinds[1..], node, depth, path)
    ensures Picked([], node, depth, path) == []
  {
    hide Breaks;
  }

  lemma PickedTwo(a: IssueKind, b: IssueKind, node: Json, depth: nat, path: string)
    ensures Picked([a, b], node, depth, path) == Tell(a, node, depth, path) + Tell(b, node, depth, path)
  {
    PickedStep([a, b], node, depth, path);
    PickedStep([b], node, depth, path);
    hide Picked, Tell;
    assert [a, b][1..] == [b] && [b][1..] == [];
    assert Tell(b, node, depth, path) + [] == Tell(b, node, depth, path);
  }

  lemma PickedThree(a: IssueKind, b: IssueKind, c: IssueKind, node: Json, depth: nat, path: string)
    ensures Picked([a, b, c], node, depth, path) ==
      Tell(a, node, depth, path) + Tell(b, node, depth, path) + Tell(c, node, depth, path)
  {
    PickedStep([a, b, c], node, depth, path);
    PickedTwo(b, c, node, depth, path);
    hide Picked, Tell;
    assert [a, b, c][1..] == [b, c];
  }

  // A kind is broken by its own group's rule alone.
  lemma MarkerApart(kind: IssueKind, node: Json, depth: nat)
    requires node.JObj? && depth <= 128
    requires kind.WrongSchemaUri? || kind.MissingId? || kind.RootOnly?
    ensures Breaks(kind, node, depth) <==> MarkerBreaks(kind, node.members, depth == 0)
  {
    hide OfType, OfNumber, Has, KnownType, Typed, Texts, Whole, Number, Listed, Repeats, TextMember, ProfileKeyword;
  }

  lemma HeaderApart(kind: IssueKind, node: Json, depth: nat)
    requires node.JObj? && depth <= 128
    requires kind.AnnotationText? || kind.BadType? || kind.GroupMismatch?
    ensures Breaks(kind, node, depth) <==> HeaderBreaks(kind, node.members)
  {
    hide OfType, OfNumber, Has, KnownType, Typed, Texts, Whole, Number, Listed, Repeats, TextMember, ProfileKeyword;
  }

  predicate EnumKind(kind: IssueKind) {
    kind.EnumShape? || kind.EnumTooLong? || kind.EnumRepeats? || kind.EnumType? || kind.ConstType?
    || kind.EnumWithConst?
  }

  predicate ObjectKind(kind: IssueKind) {
    kind.PropertiesObject? || kind.RequiredStrings? || kind.RequiredRepeats? || kind.OpenObject?
    || kind.RequiredUnknown?
  }

  lemma EnumApart(kind: IssueKind, node: Json, depth: nat)
    requires node.JObj? && depth <= 128
    requires EnumKind(kind)
    ensures Breaks(kind, node, depth) <==> EnumBreaks(kind, node.members)
  {
    hide OfType, OfNumber, Has, KnownType, Typed, Texts, Whole, Number, Listed, Repeats, TextMember, ProfileKeyword;
  }

  lemma ObjectApart(kind: IssueKind, node: Json, depth: nat)
    requires node.JObj? && depth <= 128
    requires ObjectKind(kind)
    ensures Breaks(kind, node, depth) <==> OfType(node.members, "object") && ObjectBreaks(kind, node.members)
  {
    hide OfType, OfNumber, Has, KnownType, Typed, Texts, Whole, Number, Listed, Repeats, TextMember, ProfileKeyword;
  }

  lemma ItemsApart(kind: IssueKind, node: Json, depth: nat)
    requires node.JObj? && depth <= 128
    requires kind.ItemsMissing?
    ensures Breaks(kind, node, depth) <==> OfType(node.members, "array") && !Has(node.members, "items")
  {
    hide OfType, OfNumber, Has, KnownType, Typed, Texts, Whole, Number, Listed, Repeats, TextMember, ProfileKeyword;
  }

  lemma PatternApart(kind: IssueKind, node: Json, depth: nat)
    requires node.JObj? && depth <= 128
    requires kind.PatternText? || kind.PatternUnaudited?
    ensures Breaks(kind, node, depth) <==> OfType(node.members, "string") && PatternBreaks(kind, node.members)
  {
    hide OfType, OfNumber, Has, KnownType, Typed, Texts, Whole, Number, Listed, Repeats, TextMember, ProfileKeyword;
  }

  lemma NumberApart(kind: IssueKind, node: Json, depth: nat)
    requires node.JObj? && depth <= 128
    requires kind.NotNumber?
    ensures Breaks(kind, node, depth) <==> OfNumber(node.members) && NumberBreaks(kind, node.members)
  {
    hide OfType, OfNumber, Has, KnownType, Typed, Texts, Whole, Number, Listed, Repeats, TextMember, ProfileKeyword;
  }

  lemma BoundApart(kind: IssueKind, node: Json, depth: nat)
    requires node.JObj? && depth <= 128
    requires kind.NotNatural? || kind.CrossedBounds?
    ensures Breaks(kind, node, depth) <==>
      (OfType(node.members, "array") && CountBreaks(kind, node.members, "minItems", "maxItems"))
      || (OfType(node.members, "string") && CountBreaks(kind, node.members, "minLength", "maxLength"))
      || (OfNumber(node.members) && NumberBreaks(kind, node.members))
  {
    hide OfType, OfNumber, Has, KnownType, Typed, Texts, Whole, Number, Listed, Repeats, TextMember, ProfileKeyword;
  }

  lemma MarkersPicked(node: Json, depth: nat, path: string)
    requires node.JObj? && depth <= 128
    ensures MarkerIssues(node.members, path, depth == 0) == Picked(MARKER_KINDS, node, depth, path)
  {
    PickedThree(WrongSchemaUri, MissingId, RootOnly, node, depth, path);
    MarkerApart(WrongSchemaUri, node, depth);
    MarkerApart(MissingId, node, depth);
    MarkerApart(RootOnly, node, depth);
    hide Breaks, Picked, Has;
  }

  // A check of one kind by its group's rule.
  function EnumTell(kind: IssueKind, ms: seq<Member>, path: string): seq<Issue> {
    Check(!EnumBreaks(kind, ms), path, kind)
  }

  lemma EnumTold(ms: seq<Member>, path: string)
    ensures EnumIssues(ms, path) ==
      EnumTell(EnumShape, ms, path) + EnumTell(EnumTooLong, ms, path) + EnumTell(EnumRepeats, ms, path)
      + EnumTell(EnumType, ms, path)
  {
    KnownTypes(ms);
    EnumConditions(ms);
    hide Has, ValidType, KnownType, Typed, EnumTyped, PairwiseDifferent, Repeats, TypeIs, OfType, Numeric, OfNumber;
  }

  lemma ConstTold(ms: seq<Member>, path: string)
    ensures ConstIssues(ms, path) == EnumTell(ConstType, ms, path) + EnumTell(EnumWithConst, ms, path)
  {
    KnownTypes(ms);
    ConstCondition(ms);
    hide Has, ValidType, KnownType, Typed, ConstTyped, TypeIs, OfType, Numeric, OfNumber;
  }

  lemma EnumTells(kind: IssueKind, node: Json, depth: nat, path: string)
    requires node.JObj? && depth <= 128 && EnumKind(kind)
    ensures Tell(kind, node, depth, path) == EnumTell(kind, node.members, path)
  {
    EnumApart(kind, node, depth);
    hide Breaks, EnumBreaks;
  }

  lemma EnumListed()
    ensures ENUM_KINDS == [EnumShape, EnumTooLong, EnumRepeats] + [EnumType, ConstType, EnumWithConst]
  {
  }

  lemma EnumPicked(node: Json, depth: nat, path: string)
    requires node.JObj? && depth <= 128
    ensures EnumIssues(node.members, path) + ConstIssues(node.members, path) == Picked(ENUM_KINDS, node, depth, path)
  {
    EnumKinds();
    hide *;
    var ms := node.members;
    EnumTold(ms, path);
    ConstTold(ms, path);
    EnumTells(EnumShape, node, depth, path);
    EnumTells(EnumTooLong, node, depth, path);
    EnumTells(EnumRepeats, node, depth, path);
    EnumTells(EnumType, node, depth, path);
    EnumTells(ConstType, node, depth, path);
    EnumTells(EnumWithConst, node, depth, path);
    PickedThree(EnumShape, EnumTooLong, EnumRepeats, node, depth, path);
    PickedThree(EnumType, ConstType, EnumWithConst, node, depth, path);
    PickedConcat([EnumShape, EnumTooLong, EnumRepeats], [EnumType, ConstType, EnumWithConst], node, depth, path);
    EnumListed();
    Six(Tell(EnumShape, node, depth, path), Tell(EnumTooLong, node, depth, path), Tell(EnumRepeats, node, depth, path),
        Tell(EnumType, node, depth, path), Tell(ConstType, node, depth, path), Tell(EnumWithConst, node, depth, path));
  }

  lemma EnumKinds()
    ensures EnumKind(EnumShape) && EnumKind(EnumTooLong) && EnumKind(EnumRepeats) && EnumKind(EnumType)
    ensures EnumKind(ConstType) && EnumKind(EnumWithConst)
  {
  }

  lemma Six<T>(a: seq<T>, b: seq<T>, c: seq<T>, d: seq<T>, e: seq<T>, f: seq<T>)
    ensures (a + b + c + d) + (e + f) == (a + b + c) + (d + e + f)
  {
    var front := a + b + c;
    assert front + d + (e + f) == front + (d + e + f);
  }

  lemma Seven<T>(a: seq<T>, b: seq<T>, c: seq<T>, d: seq<T>, e: seq<T>, f: seq<T>, g: seq<T>)
    ensures a + b + c + d + e + f + g == (a + b + c) + ((d + e) + (f + g))
  {
    var front := a + b + c;
    assert front + d + e == front + (d + e);
    var half := d + e;
    assert front + half + f + g == front + (half + (f + g));
  }

  // ---- the header ----

  lemma HeaderTold(node: Json, depth: nat, path: string)
    requires node.JObj? && depth <= 128
    ensures HeaderIssues(node.members, path) ==
      Tell(AnnotationText("title"), node, depth, path) + Tell(AnnotationText("description"), node, depth, path)
      + Tell(BadType, node, depth, path)
      + Tell(GroupMismatch("object"), node, depth, path) + Tell(GroupMismatch("array"), node, depth, path)
      + Tell(GroupMismatch("string"), node, depth, path) + Tell(GroupMismatch("numeric"), node, depth, path)
  {
    var ms := node.members;
    HeaderApart(AnnotationText("title"), node, depth);
    HeaderApart(AnnotationText("description"), node, depth);
    HeaderApart(BadType, node, depth);
    HeaderApart(GroupMismatch("object"), node, depth);
    HeaderApart(GroupMismatch("array"), node, depth);
    HeaderApart(GroupMismatch("string"), node, depth);
    HeaderApart(GroupMismatch("numeric"), node, depth);
    HeaderConditions(ms);
    hide Breaks, HeaderBreaks, Has, TextAt, ValidType, GroupAllowed, TypeIs, Numeric;
  }

  lemma HeaderConditions(ms: seq<Member>)
    ensures (Has(ms, "title") ==> TextAt(ms, "title")) <==> !HeaderBreaks(AnnotationText("title"), ms)
    ensures (Has(ms, "description") ==> TextAt(ms, "description")) <==> !HeaderBreaks(AnnotationText("description"), ms)
    ensures ValidType(ms) <==> !HeaderBreaks(BadType, ms)
    ensures GroupAllowed(ms, OBJECT_GROUP, TypeIs(ms, "object")) <==> !HeaderBreaks(GroupMismatch("object"), ms)
    ensures GroupAllowed(ms, ARRAY_GROUP, TypeIs(ms, "array")) <==> !HeaderBreaks(GroupMismatch("array"), ms)
    ensures GroupAllowed(ms, STRING_GROUP, TypeIs(ms, "string")) <==> !HeaderBreaks(GroupMismatch("string"), ms)
    ensures GroupAllowed(ms, NUMERIC_GROUP, Numeric(ms)) <==> !HeaderBreaks(GroupMismatch("numeric"), ms)
  {
    KnownTypes(ms);
    GroupsAllowed(ms);
    LabelsDiffer();
    hide GroupAllowed, TypeIs, OfType, Numeric, OfNumber, ValidType, KnownType, Has;
  }

  lemma HeaderPicked(node: Json, depth: nat, path: string)
    requires node.JObj? && depth <= 128
    ensures HeaderIssues(node.members, path) == Picked(HEADER_KINDS, node, depth, path)
  {
    HeaderListed();
    hide *;
    var (a, b, c) := (AnnotationText("title"), AnnotationText("description"), BadType);
    var (d, e) := (GroupMismatch("object"), GroupMismatch("array"));
    var (f, g) := (GroupMismatch("string"), GroupMismatch("numeric"));
    HeaderTold(node, depth, path);
    PickedThree(a, b, c, node, depth, path);
    PickedTwo(d, e, node, depth, path);
    PickedTwo(f, g, node, depth, path);
    PickedConcat([d, e], [f, g], node, depth, path);
    PickedConcat([a, b, c], [d, e] + [f, g], node, depth, path);
    Seven(Tell(a, node, depth, path), Tell(b, node, depth, path), Tell(c, node, depth, path),
          Tell(d, node, depth, path), Tell(e, node, depth, path), Tell(f, node, depth, path),
          Tell(g, node, depth, path));
  }

  lemma HeaderListed()
    ensures HEADER_KINDS == [AnnotationText("title"), AnnotationText("description"), BadType]
      + ([GroupMismatch("object"), GroupMismatch("array")] + [GroupMismatch("string"), GroupMismatch("numeric")])
  {
  }

  // ---- the body ----

  lemma ObjectTells(kind: IssueKind, node: Json, depth: nat, path: string)
    requires node.JObj? && depth <= 128 && ObjectKind(kind)
    ensures Tell(kind, node, depth, path) ==
      if OfType(node.members, "object") then Check(!ObjectBreaks(kind, node.members), path, kind) else []
  {
    ObjectApart(kind, node, depth);
    hide Breaks, ObjectBreaks, OfType;
  }

  lemma RequiredTold(ms: seq<Member>, path: string)
    ensures RequiredIssues(ms, path) ==
      Check(!ObjectBreaks(RequiredStrings, ms), path, RequiredStrings)
      + Check(!ObjectBreaks(RequiredRepeats, ms), path, RequiredRepeats)
  {
    hide Has;
    if Texts(Lookup(ms, "required")) {
      assert Required(ms) == Get(ms, "required").items;
    }
  }

  lemma ShapeListed()
    ensures SHAPE_KINDS == [PropertiesObject] + ([RequiredStrings, RequiredRepeats] + [OpenObject, ItemsMissing])
    ensures ObjectKind(PropertiesObject) && ObjectKind(RequiredStrings) && ObjectKind(RequiredRepeats)
    ensures ObjectKind(OpenObject) && ObjectKind(RequiredUnknown)
  {
  }

  lemma PickedOne(a: IssueKind, node: Json, depth: nat, path: string)
    ensures Picked([a], node, depth, path) == Tell(a, node, depth, path)
  {
    PickedStep([a], node, depth, path);
    hide Picked, Tell;
    assert [a][1..] == [];
    assert Tell(a, node, depth, path) + [] == Tell(a, node, depth, path);
  }

  lemma ShapeTold(node: Json, depth: nat, path: string)
    requires node.JObj? && depth <= 128
    ensures Picked(SHAPE_KINDS, node, depth, path) ==
      Tell(PropertiesObject, node, depth, path)
      + ((Tell(RequiredStrings, node, depth, path) + Tell(RequiredRepeats, node, depth, path))
         + (Tell(OpenObject, node, depth, path) + Tell(ItemsMissing, node, depth, path)))
  {
    ShapeListed();
    hide *;
    PickedOne(PropertiesObject, node, depth, path);
    PickedTwo(RequiredStrings, RequiredRepeats, node, depth, path);
    PickedTwo(OpenObject, ItemsMissing, node, depth, path);
    PickedConcat([RequiredStrings, RequiredRepeats], [OpenObject, ItemsMissing], node, depth, path);
    PickedConcat([PropertiesObject], [RequiredStrings, RequiredRepeats] + [OpenObject, ItemsMissing], node, depth,
                 path);
  }

  lemma ObjectConditions(ms: seq<Member>)
    ensures ObjectAt(ms, "properties") <==> !ObjectBreaks(PropertiesObject, ms)
    ensures ClosedObject(ms) <==> !ObjectBreaks(OpenObject, ms)
    ensures RequiredKnown(ms) <==> !ObjectBreaks(RequiredUnknown, ms)
  {
    InUnknown(ms);
    hide Has, RequiredKnown, Texts;
  }

  lemma ShapeExact(node: Json, depth: nat, path: string)
    requires node.JObj? && depth <= 128
    ensures Picked(SHAPE_KINDS, node, depth, path) ==
      if OfType(node.members, "object") then
        Check(ObjectAt(node.members, "properties"), path, PropertiesObject)
        + RequiredIssues(node.members, path)
        + Check(ClosedObject(node.members), path, OpenObject)
      else if OfType(node.members, "array") && !Has(node.members, "items") then [Issue(path, ItemsMissing)]
      else []
  {
    ShapeListed();
    ItemsTell(node, depth, path);
    hide *;
    var ms := node.members;
    ObjectOnly(ms);
    ObjectConditions(ms);
    ShapeTold(node, depth, path);
    ObjectTells(PropertiesObject, node, depth, path);
    ObjectTells(RequiredStrings, node, depth, path);
    ObjectTells(RequiredRepeats, node, depth, path);
    ObjectTells(OpenObject, node, depth, path);
    if OfType(ms, "object") {
      RequiredTold(ms, path);
      Dropped(Check(ObjectAt(ms, "properties"), path, PropertiesObject), RequiredIssues(ms, path),
              Check(ClosedObject(ms), path, OpenObject));
    } else {
      Alone(Tell(ItemsMissing, node, depth, path));
    }
  }

  lemma Dropped<T>(a: seq<T>, b: seq<T>, c: seq<T>)
    ensures a + (b + (c + [])) == a + b + c
  {
    assert c + [] == c;
  }

  lemma Alone<T>(d: seq<T>)
    ensures [] + (([] + []) + ([] + d)) == d
  {
  }

  lemma ItemsTell(node: Json, depth: nat, path: string)
    requires node.JObj? && depth <= 128
    ensures Tell(ItemsMissing, node, depth, path) ==
      if OfType(node.members, "array") && !Has(node.members, "items") then [Issue(path, ItemsMissing)] else []
  {
    ItemsApart(ItemsMissing, node, depth);
    hide Breaks, OfType, Has;
  }

  lemma BoundTells(kind: IssueKind, node: Json, depth: nat, path: string)
    requires node.JObj? && depth <= 128 && (kind.NotNatural? || kind.CrossedBounds?)
    ensures Tell(kind, node, depth, path) == Check(!(
      (OfType(node.members, "array") && CountBreaks(kind, node.members, "minItems", "maxItems"))
      || (OfType(node.members, "string") && CountBreaks(kind, node.members, "minLength", "maxLength"))
      || (OfNumber(node.members) && NumberBreaks(kind, node.members))), path, kind)
  {
    BoundApart(kind, node, depth);
    hide Breaks, CountBreaks, NumberBreaks, OfType, OfNumber;
  }

  lemma BoundsTold(ms: seq<Member>, path: string, low: string, high: string)
    ensures BoundIssues(ms, path, low, high) ==
      Check(!CountBreaks(NotNatural(low), ms, low, high), path, NotNatural(low))
      + Check(!CountBreaks(NotNatural(high), ms, low, high), path, NotNatural(high))
      + Check(!CountBreaks(CrossedBounds(low), ms, low, high), path, CrossedBounds(low))
  {
    WholeNatural(ms, low);
    WholeNatural(ms, high);
    hide NaturalAt, Has, Value, Integral;
  }

  // The names of the bounds keep the kinds of one type from the others.
  lemma BoundsForeign(ms: seq<Member>)
    ensures !CountBreaks(NotNatural("minItems"), ms, "minLength", "maxLength")
    ensures !CountBreaks(NotNatural("maxItems"), ms, "minLength", "maxLength")
    ensures !CountBreaks(CrossedBounds("minItems"), ms, "minLength", "maxLength")
    ensures !CountBreaks(NotNatural("minLength"), ms, "minItems", "maxItems")
    ensures !CountBreaks(NotNatural("maxLength"), ms, "minItems", "maxItems")
    ensures !CountBreaks(CrossedBounds("minLength"), ms, "minItems", "maxItems")
    ensures !CountBreaks(CrossedBounds("minimum"), ms, "minItems", "maxItems")
    ensures !CountBreaks(CrossedBounds("minimum"), ms, "minLength", "maxLength")
    ensures !NumberBreaks(NotNatural("minItems"), ms) && !NumberBreaks(NotNatural("maxItems"), ms)
    ensures !NumberBreaks(NotNatural("minLength"), ms) && !NumberBreaks(NotNatural("maxLength"), ms)
    ensures !NumberBreaks(CrossedBounds("minItems"), ms) && !NumberBreaks(CrossedBounds("minLength"), ms)
  {
    hide Whole, Number, Has, Value;
  }

  lemma ItemBoundsPicked(node: Json, depth: nat, path: string)
    requires node.JObj? && depth <= 128
    ensures Picked(CountKinds("minItems", "maxItems"), node, depth, path) ==
      if OfType(node.members, "array") then BoundIssues(node.members, path, "minItems", "maxItems") else []
  {
    var ms := node.members;
    var (a, b, c) := (NotNatural("minItems"), NotNatural("maxItems"), CrossedBounds("minItems"));
    PickedThree(a, b, c, node, depth, path);
    BoundTells(a, node, depth, path);
    BoundTells(b, node, depth, path);
    BoundTells(c, node, depth, path);
    BoundsTold(ms, path, "minItems", "maxItems");
    BoundsForeign(ms);
    hide Picked, Tell, CountBreaks, NumberBreaks, OfType, OfNumber, BoundIssues;
  }

  lemma TextBoundsPicked(node: Json, depth: nat, path: string)
    requires node.JObj? && depth <= 128
    ensures Picked(CountKinds("minLength", "maxLength"), node, depth, path) ==
      if OfType(node.members, "string") then BoundIssues(node.members, path, "minLength", "maxLength") else []
  {
    var ms := node.members;
    var (a, b, c) := (NotNatural("minLength"), NotNatural("maxLength"), CrossedBounds("minLength"));
    PickedThree(a, b, c, node, depth, path);
    BoundTells(a, node, depth, path);
    BoundTells(b, node, depth, path);
    BoundTells(c, node, depth, path);
    BoundsTold(ms, path, "minLength", "maxLength");
    BoundsForeign(ms);
    hide Picked, Tell, CountBreaks, NumberBreaks, OfType, OfNumber, BoundIssues;
  }

  lemma PatternPicked(node: Json, depth: nat, path: string)
    requires node.JObj? && depth <= 128
    ensures Picked(PATTERN_KINDS, node, depth, path) ==
      if OfType(node.members, "string") then PatternIssues(node.members, path) else []
  {
    PickedTwo(PatternText, PatternUnaudited, node, depth, path);
    PatternApart(PatternText, node, depth);
    PatternApart(PatternUnaudited, node, depth);
    hide Picked, Breaks, OfType, Has, IDENTIFIER_PATTERN, CONTROL_SAFE_PATTERN;
  }

  lemma NumberPicked(node: Json, depth: nat, path: string)
    requires node.JObj? && depth <= 128
    ensures Picked(NUMBER_KINDS, node, depth, path) ==
      if OfNumber(node.members) then NumericIssues(node.members, path) else []
  {
    var ms := node.members;
    PickedThree(NotNumber("minimum"), NotNumber("maximum"), CrossedBounds("minimum"), node, depth, path);
    NumberApart(NotNumber("minimum"), node, depth);
    NumberApart(NotNumber("maximum"), node, depth);
    BoundApart(CrossedBounds("minimum"), node, depth);
    BoundsForeign(ms);
    NumbersTold(ms, path);
    hide Picked, Breaks, OfType, OfNumber, CountBreaks, NumberBreaks, NumericIssues;
  }

  lemma NumbersTold(ms: seq<Member>, path: string)
    ensures NumericIssues(ms, path) ==
      Check(!NumberBreaks(NotNumber("minimum"), ms), path, NotNumber("minimum"))
      + Check(!NumberBreaks(NotNumber("maximum"), ms), path, NotNumber("maximum"))
      + Check(!NumberBreaks(CrossedBounds("minimum"), ms), path, CrossedBounds("minimum"))
  {
    WholeNatural(ms, "minimum");
    WholeNatural(ms, "maximum");
    hide Has, Value;
  }

  // ---- a whole node ----

  // What the body reports before its children, from them, and after them.
  function Shape(ms: seq<Member>, path: string): seq<Issue> {
    if OfType(ms, "object") then
      Check(ObjectAt(ms, "properties"), path, PropertiesObject) + RequiredIssues(ms, path)
      + Check(ClosedObject(ms), path, OpenObject)
    else if OfType(ms, "array") && !Has(ms, "items") then [Issue(path, ItemsMissing)]
    else []
  }

  function Kids(node: Json, path: string, depth: nat): seq<Issue>
    requires node.JObj?
  {
    var ms := node.members;
    if OfType(ms, "object") then
      if ObjectAt(ms, "properties") then ChildIssues(Get(ms, "properties").members, path, depth) else []
    else if OfType(ms, "array") && Has(ms, "items") then
      NodeIssues(Get(ms, "items"), Join(path, "items"), false, depth + 1)
    else []
  }

  function Tail(ms: seq<Member>, path: string): seq<Issue> {
    if OfType(ms, "object") then Check(RequiredKnown(ms), path, RequiredUnknown)
    else if OfType(ms, "array") then BoundIssues(ms, path, "minItems", "maxItems")
    else if OfType(ms, "string") then BoundIssues(ms, path, "minLength", "maxLength") + PatternIssues(ms, path)
    else if OfNumber(ms) then NumericIssues(ms, path)
    else []
  }

  lemma ObjectBody(node: Json, path: string, depth: nat)
    requires node.JObj? && OfType(node.members, "object")
    ensures BodyIssues(node, path, depth) == Shape(node.members, path) + Kids(node, path, depth)
      + Check(RequiredKnown(node.members), path, RequiredUnknown)
  {
    KnownTypes(node.members);
    hide OfType, OfNumber, TypeIs, Numeric, Has, RequiredIssues, ChildIssues, RequiredKnown, ClosedObject, Check;
  }

  lemma ArrayBody(node: Json, path: string, depth: nat)
    requires node.JObj? && OfType(node.members, "array")
    ensures BodyIssues(node, path, depth) == Shape(node.members, path) + Kids(node, path, depth)
      + BoundIssues(node.members, path, "minItems", "maxItems")
  {
    hide *;
    KnownTypes(node.members);
    ObjectOnly(node.members);
    ArrayUnfolded(node, path, depth);
    ArrayParts(node, path, depth);
    var bounds := BoundIssues(node.members, path, "minItems", "maxItems");
    var shape, kids := Shape(node.members, path), Kids(node, path, depth);
    assert [] + kids == kids && shape + [] == shape;
  }

  lemma ArrayParts(node: Json, path: string, depth: nat)
    requires node.JObj? && OfType(node.members, "array") && !OfType(node.members, "object")
    ensures Has(node.members, "items") ==>
      Shape(node.members, path) == []
      && Kids(node, path, depth) == NodeIssues(Get(node.members, "items"), Join(path, "items"), false, depth + 1)
    ensures !Has(node.members, "items") ==>
      Shape(node.members, path) == [Issue(path, ItemsMissing)] && Kids(node, path, depth) == []
  {
    hide OfType, Has, NodeIssues, Join;
  }

  lemma ArrayUnfolded(node: Json, path: string, depth: nat)
    requires node.JObj? && TypeIs(node.members, "array") && !TypeIs(node.members, "object")
    ensures BodyIssues(node, path, depth) ==
      (if !Has(node.members, "items") then [Issue(path, ItemsMissing)]
       else NodeIssues(Get(node.members, "items"), Join(path, "items"), false, depth + 1))
      + BoundIssues(node.members, path, "minItems", "maxItems")
  {
    hide TypeIs, Has, NodeIssues, BoundIssues, Join;
  }

  lemma ScalarBody(node: Json, path: string, depth: nat)
    requires node.JObj? && !OfType(node.members, "object") && !OfType(node.members, "array")
    ensures BodyIssues(node, path, depth) == Tail(node.members, path)
    ensures Shape(node.members, path) == [] && Kids(node, path, depth) == []
  {
    KnownTypes(node.members);
    hide OfType, OfNumber, TypeIs, Numeric, Has, BoundIssues, PatternIssues, NumericIssues;
  }

  lemma BodySplit(node: Json, path: string, depth: nat)
    requires node.JObj?
    ensures BodyIssues(node, path, depth) ==
      Shape(node.members, path) + Kids(node, path, depth) + Tail(node.members, path)
  {
    hide *;
    var ms := node.members;
    TailCases(ms, path);
    if OfType(ms, "object") {
      ObjectBody(node, path, depth);
    } else if OfType(ms, "array") {
      ArrayBody(node, path, depth);
    } else {
      ScalarBody(node, path, depth);
    }
  }

  lemma TailPicked(node: Json, depth: nat, path: string)
    requires node.JObj? && depth <= 128
    ensures Picked(AFTER_CHILDREN, node, depth, path) ==
      Tail(node.members, path) + (EnumIssues(node.members, path) + ConstIssues(node.members, path))
  {
    ShapeListed();
    hide *;
    var ms := node.members;
    var (a, b) := (CountKinds("minItems", "maxItems"), CountKinds("minLength", "maxLength"));
    PickedConcat(NUMBER_KINDS, ENUM_KINDS, node, depth, path);
    PickedConcat(PATTERN_KINDS, NUMBER_KINDS + ENUM_KINDS, node, depth, path);
    PickedConcat(b, PATTERN_KINDS + (NUMBER_KINDS + ENUM_KINDS), node, depth, path);
    PickedConcat(a, b + (PATTERN_KINDS + (NUMBER_KINDS + ENUM_KINDS)), node, depth, path);
    PickedConcat([RequiredUnknown], a + (b + (PATTERN_KINDS + (NUMBER_KINDS + ENUM_KINDS))), node, depth, path);
    AfterListed();
    PickedOne(RequiredUnknown, node, depth, path);
    ObjectTells(RequiredUnknown, node, depth, path);
    ObjectConditions(ms);
    ItemBoundsPicked(node, depth, path);
    TextBoundsPicked(node, depth, path);
    PatternPicked(node, depth, path);
    NumberPicked(node, depth, path);
    EnumPicked(node, depth, path);
    ObjectOnly(ms);
    TailCases(ms, path);
    TailSums(Tell(RequiredUnknown, node, depth, path), Picked(a, node, depth, path), Picked(b, node, depth, path),
             Picked(PATTERN_KINDS, node, depth, path), Picked(NUMBER_KINDS, node, depth, path),
             Picked(ENUM_KINDS, node, depth, path));
  }

  lemma AfterListed()
    ensures AFTER_CHILDREN == [RequiredUnknown] + (CountKinds("minItems", "maxItems")
      + (CountKinds("minLength", "maxLength") + (PATTERN_KINDS + (NUMBER_KINDS + ENUM_KINDS))))
  {
  }

  lemma TailCases(ms: seq<Member>, path: string)
    ensures OfType(ms, "object") ==> Tail(ms, path) == Check(RequiredKnown(ms), path, RequiredUnknown)
    ensures OfType(ms, "array") ==> Tail(ms, path) == BoundIssues(ms, path, "minItems", "maxItems")
    ensures OfType(ms, "string") ==>
      Tail(ms, path) == BoundIssues(ms, path, "minLength", "maxLength") + PatternIssues(ms, path)
    ensures OfNumber(ms) ==> Tail(ms, path) == NumericIssues(ms, path)
    ensures !OfType(ms, "object") && !OfType(ms, "array") && !OfType(ms, "string") && !OfNumber(ms) ==>
      Tail(ms, path) == []
  {
    ObjectOnly(ms);
    hide OfType, OfNumber, BoundIssues, PatternIssues, NumericIssues, RequiredKnown, Check;
  }

  lemma TailSums<T>(r: seq<T>, i: seq<T>, t: seq<T>, p: seq<T>, n: seq<T>, e: seq<T>)
    ensures r + (i + (t + (p + (n + e)))) == (r + i + (t + p) + n) + e
  {
    assert t + (p + (n + e)) == (t + p) + (n + e);
    var tp := t + p;
    assert r + (i + (tp + (n + e))) == r + i + tp + n + e;
  }

  lemma HeadPicked(node: Json, depth: nat, path: string)
    requires node.JObj? && depth <= 128
    ensures Picked(BEFORE_CHILDREN, node, depth, path) ==
      MarkerIssues(node.members, path, depth == 0) + (HeaderIssues(node.members, path) + Shape(node.members, path))
  {
    BeforeListed();
    ShapeUnfolded(node.members, path);
    hide *;
    PickedConcat(HEADER_KINDS, SHAPE_KINDS, node, depth, path);
    PickedConcat(MARKER_KINDS, HEADER_KINDS + SHAPE_KINDS, node, depth, path);
    MarkersPicked(node, depth, path);
    HeaderPicked(node, depth, path);
    ShapeExact(node, depth, path);
  }

  lemma BeforeListed()
    ensures BEFORE_CHILDREN == MARKER_KINDS + (HEADER_KINDS + SHAPE_KINDS)
  {
  }

  lemma ShapeUnfolded(ms: seq<Member>, path: string)
    ensures Shape(ms, path) ==
      if OfType(ms, "object") then
        Check(ObjectAt(ms, "properties"), path, PropertiesObject) + RequiredIssues(ms, path)
        + Check(ClosedObject(ms), path, OpenObject)
      else if OfType(ms, "array") && !Has(ms, "items") then [Issue(path, ItemsMissing)]
      else []
  {
  }

  lemma NodeSums<T>(k: seq<T>, m: seq<T>, h: seq<T>, s: seq<T>, c: seq<T>, t: seq<T>, e: seq<T>, f: seq<T>)
    ensures k + m + h + (s + c + t) + e + f == k + (m + (h + s)) + c + (t + (e + f))
  {
    assert k + (m + (h + s)) == k + m + h + s;
    var front := k + m + h;
    assert front + (s + c + t) == front + s + c + t;
    var all := front + s + c;
    assert all + t + e + f == all + (t + (e + f));
  }

  lemma NodeSplit(node: Json, path: string, depth: nat)
    requires node.JObj? && depth <= 128
    ensures NodeIssues(node, path, depth == 0, depth) ==
      KeywordIssues(node.members, path) + Picked(BEFORE_CHILDREN, node, depth, path) + Kids(node, path, depth)
      + Picked(AFTER_CHILDREN, node, depth, path)
  {
    NodeUnfolded(node, path, depth);
    hide *;
    var ms := node.members;
    BodySplit(node, path, depth);
    HeadPicked(node, depth, path);
    TailPicked(node, depth, path);
    NodeSums(KeywordIssues(ms, path), MarkerIssues(ms, path, depth == 0), HeaderIssues(ms, path), Shape(ms, path),
             Kids(node, path, depth), Tail(ms, path), EnumIssues(ms, path), ConstIssues(ms, path));
  }

  lemma NodeUnfolded(node: Json, path: string, depth: nat)
    requires node.JObj? && depth <= 128
    ensures var ms := node.members;
      NodeIssues(node, path, depth == 0, depth) ==
        KeywordIssues(ms, path) + MarkerIssues(ms, path, depth == 0) + HeaderIssues(ms, path)
        + BodyIssues(node, path, depth) + EnumIssues(ms, path) + ConstIssues(ms, path)
  {
    hide KeywordIssues, MarkerIssues, HeaderIssues, BodyIssues, EnumIssues, ConstIssues;
  }

  lemma {:induction false} ChildrenInOrder(children: seq<Member>, path: string, depth: nat)
    ensures ChildIssues(children, path, depth) == ToldChildren(children, path, depth)
    decreases children, 0
  {
    hide NodeIssues, Told, Join;
    if children != [] {
      InOrder(children[0].value, Join(path, children[0].name), depth + 1);
      ChildrenInOrder(children[1..], path, depth);
    }
  }

  /** The full list of issues is the schema read from front to back: unsupported keywords by name, the
      node's broken conditions in their fixed order, its children in turn, and then the conditions that come
      after them. */
  lemma {:induction false} InOrder(node: Json, path: string, depth: nat)
    ensures NodeIssues(node, path, depth == 0, depth) == Told(node, path, depth)
    decreases node, 1
  {
    hide *;
    if depth > 128 || !node.JObj? {
      NotWalked(node, path, depth);
    } else {
      var ms := node.members;
      NodeSplit(node, path, depth);
      ToldUnfolded(node, path, depth);
      KidsUnfolded(node, path, depth);
      if OfType(ms, "object") {
        if Has(ms, "properties") && Get(ms, "properties").JObj? {
          ChildrenInOrder(Get(ms, "properties").members, path, depth);
        }
      } else if OfType(ms, "array") && Has(ms, "items") {
        InOrder(Get(ms, "items"), Join(path, "items"), depth + 1);
      }
    }
  }

  lemma NotWalked(node: Json, path: string, depth: nat)
    requires depth > 128 || !node.JObj?
    ensures NodeIssues(node, path, depth == 0, depth) == Told(node, path, depth)
  {
  }

  // The children a node's issues come from, as the reference order goes through them.
  lemma ToldUnfolded(node: Json, path: string, depth: nat)
    requires node.JObj? && depth <= 128
    ensures var ms := node.members;
      Told(node, path, depth) ==
        KeywordIssues(ms, path) + Picked(BEFORE_CHILDREN, node, depth, path)
        + (if OfType(ms, "object") then
             if Has(ms, "properties") && Get(ms, "properties").JObj?
             then ToldChildren(Get(ms, "properties").members, path, depth) else []
           else if OfType(ms, "array") && Has(ms, "items") then
             Told(Get(ms, "items"), Join(path, "items"), depth + 1)
           else [])
        + Picked(AFTER_CHILDREN, node, depth, path)
  {
    hide Picked, KeywordIssues, ToldChildren, OfType, Has, Join;
  }

  lemma KidsUnfolded(node: Json, path: string, depth: nat)
    requires node.JObj?
    ensures var ms := node.members;
      Kids(node, path, depth) ==
        if OfType(ms, "object") then
          if Has(ms, "properties") && Get(ms, "properties").JObj?
          then ChildIssues(Get(ms, "properties").members, path, depth) else []
        else if OfType(ms, "array") && Has(ms, "items") then
          NodeIssues(Get(ms, "items"), Join(path, "items"), false, depth + 1)
        else []
  {
    hide NodeIssues, ChildIssues, OfType, Has, Join;
  }
}
