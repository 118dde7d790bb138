/** `validate_instance`: its complete list of violations, the capped list it returns, and the
    declarative meaning of a schema that both agree with. */
module Validator {
  import opened Decimals
  import opened Json
  import opened Pointer
  import opened SchemaProfile
  import opened Text

  const MAX_VIOLATIONS := 25

  datatype Rule =
    | TypeRule | EnumRule | ConstRule | RequiredRule | AdditionalPropertiesRule
    | MinItemsRule | MaxItemsRule | MinLengthRule | MaxLengthRule | PatternRule
    | MinimumRule | MaximumRule

  datatype Violation = Violation(rule: Rule, path: string)

  // ---- the two audited patterns ----

  predicate AsciiAlphaNumeric(c: char) {
    'A' <= c <= 'Z' || 'a' <= c <= 'z' || '0' <= c <= '9'
  }

  // ^[A-Za-z0-9][A-Za-z0-9._:-]* up to the end of the text
  predicate IdentifierText(s: string) {
    s != "" && AsciiAlphaNumeric(s[0]) &&
    forall i | 1 <= i < |s| :: AsciiAlphaNumeric(s[i]) || s[i] in "._:-"
  }

  predicate UnsafeCharacter(c: char) {
    c as int <= 0x1F || 0x7F <= c as int <= 0x9F || c as int == 0x2028 || c as int == 0x2029
  }

  // one or more characters, none of them a control or line separator
  predicate ControlSafeText(s: string) {
    s != "" && forall i | 0 <= i < |s| :: !UnsafeCharacter(s[i])
  }

  predicate MatchesPattern(pattern: string, s: string) {
    if pattern == IDENTIFIER_PATTERN then IdentifierText(s)
    else if pattern == CONTROL_SAFE_PATTERN then ControlSafeText(s)
    else false
  }

  lemma PatternsDiffer()
    ensures IDENTIFIER_PATTERN != CONTROL_SAFE_PATTERN
  {
    assert IDENTIFIER_PATTERN[2] == 'A' && CONTROL_SAFE_PATTERN[2] == '^';
  }

  // ---- single comparisons ----

  predicate InEnum(v: Json, items: seq<Json>) {
    exists i | 0 <= i < |items| :: JsonEqual(v, items[i])
  }

  // `keyword in node and low < node[keyword]`, and the converse
  predicate Below(x: real, ms: seq<Member>, keyword: string)
    requires Has(ms, keyword) ==> NumberAt(ms, keyword)
  {
    Has(ms, keyword) && x < Value(Get(ms, keyword).number)
  }

  predicate Above(x: real, ms: seq<Member>, keyword: string)
    requires Has(ms, keyword) ==> NumberAt(ms, keyword)
  {
    Has(ms, keyword) && x > Value(Get(ms, keyword).number)
  }

  predicate PatternFails(s: string, ms: seq<Member>)
    requires Has(ms, "pattern") ==> TextAt(ms, "pattern")
  {
    Has(ms, "pattern") && !MatchesPattern(Get(ms, "pattern").text, s)
  }

  function TypeOf(node: Json): string
    requires NodeOk(node)
  {
    Get(node.members, "type").text
  }

  function Items(node: Json): (item: Json)
    requires NodeOk(node) && TypeIs(node.members, "array")
    ensures NodeOk(item)
  {
    Get(node.members, "items")
  }

  function Fields(node: Json): (fields: seq<Member>)
    requires NodeOk(node) && TypeIs(node.members, "object")
    ensures forall i :: 0 <= i < |fields| ==> NodeOk(fields[i].value)
  {
    Get(node.members, "properties").members
  }

  function When(fails: bool, rule: Rule, path: string): seq<Violation> {
    if fails then [Violation(rule, path)] else []
  }

  // ---- every violation, uncapped ----

  function ValueViolations(v: Json, ms: seq<Member>, path: string): seq<Violation>
    requires EnumOk(ms)
  {
    When(Has(ms, "enum") && !InEnum(v, Get(ms, "enum").items), EnumRule, path)
    + When(Has(ms, "const") && !JsonEqual(v, Get(ms, "const")), ConstRule, path)
  }

  function MissingRequired(names: seq<Json>, ms: seq<Member>, path: string): seq<Violation>
    requires AllText(names)
  {
    if names == [] then []
    else When(!Has(ms, names[0].text), RequiredRule, path) + MissingRequired(names[1..], ms, path)
  }

  function ArrayBounds(count: nat, ms: seq<Member>, path: string): seq<Violation>
    requires NaturalBounds(ms, "minItems", "maxItems")
  {
    When(Below(count as real, ms, "minItems"), MinItemsRule, path)
    + When(Above(count as real, ms, "maxItems"), MaxItemsRule, path)
  }

  function TextViolations(s: string, ms: seq<Member>, path: string): seq<Violation>
    requires StringKeywordsOk(ms)
  {
    When(Below(|s| as real, ms, "minLength"), MinLengthRule, path)
    + When(Above(|s| as real, ms, "maxLength"), MaxLengthRule, path)
    + When(PatternFails(s, ms), PatternRule, path)
  }

  function NumberViolations(d: Decimal, ms: seq<Member>, path: string): seq<Violation>
    requires NumericKeywordsOk(ms)
  {
    When(Below(Value(d), ms, "minimum"), MinimumRule, path)
    + When(Above(Value(d), ms, "maximum"), MaximumRule, path)
  }

  function Violations(v: Json, node: Json, path: string): seq<Violation>
    requires NodeOk(node)
    decreases v, 1
  {
    if !MatchesType(v, TypeOf(node)) then [Violation(TypeRule, path)]
    else ValueViolations(v, node.members, path) + BodyViolations(v, node, path)
  }

  function BodyViolations(v: Json, node: Json, path: string): seq<Violation>
    requires NodeOk(node) && MatchesType(v, TypeOf(node))
    decreases v, 0
  {
    var ms := node.members;
    if TypeIs(ms, "object") then
      MissingRequired(Required(ms), v.members, path) + MemberViolations(v.members, Fields(node), path)
    else if TypeIs(ms, "array") then
      ArrayBounds(|v.items|, ms, path) + ItemViolations(v.items, 0, Items(node), path)
    else if TypeIs(ms, "string") then TextViolations(v.text, ms, path)
    else if Numeric(ms) then NumberViolations(v.number, ms, path)
    else []
  }

  function MemberViolations(ms: seq<Member>, fields: seq<Member>, path: string): seq<Violation>
    requires forall i :: 0 <= i < |fields| ==> NodeOk(fields[i].value)
    decreases ms, 0
  {
    if ms == [] then []
    else MemberViolation(ms[0], fields, path) + MemberViolations(ms[1..], fields, path)
  }

  function MemberViolation(m: Member, fields: seq<Member>, path: string): seq<Violation>
    requires forall i :: 0 <= i < |fields| ==> NodeOk(fields[i].value)
    decreases m, 0
  {
    if Has(fields, m.name) then Violations(m.value, Get(fields, m.name), Join(path, m.name))
    else [Violation(AdditionalPropertiesRule, path)]
  }

  function ItemViolations(items: seq<Json>, first: nat, node: Json, path: string): seq<Violation>
    requires NodeOk(node)
    decreases items, 0
  {
    if items == [] then []
    else Violations(items[0], node, Join(path, NatText(first)))
         + ItemViolations(items[1..], first + 1, node, path)
  }

  // ---- the capped walk, as the source runs it ----

  function Capped(vs: seq<Violation>): seq<Violation> {
    if |vs| <= MAX_VIOLATIONS then vs else vs[..MAX_VIOLATIONS]
  }

  lemma CappedAppend(a: seq<Violation>, b: seq<Violation>)
    ensures Capped(Capped(a) + b) == Capped(a + b)
  {
  }

  lemma CappedThen(a: seq<Violation>, b: seq<Violation>, c: seq<Violation>)
    ensures Capped(Capped(a + b) + c) == Capped(a + (b + c))
  {
    CappedAppend(a + b, c);
    assert a + b + c == a + (b + c);
  }

  class Walker {
    var violations: seq<Violation>

    constructor ()
      ensures violations == []
    {
      violations := [];
    }

    ghost predicate Valid()
      reads this
    {
      |violations| <= MAX_VIOLATIONS
    }

    method Add(rule: Rule, path: string)
      requires Valid()
      modifies this
      ensures Valid() && violations == Capped(old(violations) + [Violation(rule, path)])
    {
      if |violations| < MAX_VIOLATIONS {
        violations := violations + [Violation(rule, path)];
      } else {
        assert (violations + [Violation(rule, path)])[..MAX_VIOLATIONS] == violations;
      }
    }

    method AddWhen(fails: bool, rule: Rule, path: string)
      requires Valid()
      modifies this
      ensures Valid() && violations == Capped(old(violations) + When(fails, rule, path))
    {
      if fails {
        Add(rule, path);
      } else {
        assert violations + [] == violations;
      }
    }

    method Walk(value: Json, node: Json, path: string)
      requires Valid() && NodeOk(node)
      modifies this
      ensures Valid() && violations == Capped(old(violations) + Violations(value, node, path))
      decreases value, 1
    {
      hide ValueViolations, BodyViolations, MatchesType;
      if |violations| >= MAX_VIOLATIONS {
        assert (violations + Violations(value, node, path))[..MAX_VIOLATIONS] == violations;
        return;
      }
      if !MatchesType(value, TypeOf(node)) {
        Add(TypeRule, path);
        return;
      }
      CheckValue(value, node, path);
      CheckBody(value, node, path);
      CappedThen(old(violations), ValueViolations(value, node.members, path), BodyViolations(value, node, path));
    }

    method CheckValue(value: Json, node: Json, path: string)
      requires Valid() && NodeOk(node)
      modifies this
      ensures Valid() && violations == Capped(old(violations) + ValueViolations(value, node.members, path))
    {
      var ms := node.members;
      var enumFails := Has(ms, "enum") && !InEnum(value, Get(ms, "enum").items);
      var constFails := Has(ms, "const") && !JsonEqual(value, Get(ms, "const"));
      hide *;
      AddWhen(enumFails, EnumRule, path);
      AddWhen(constFails, ConstRule, path);
      CappedThen(old(violations), When(enumFails, EnumRule, path), When(constFails, ConstRule, path));
    }

    method CheckBody(value: Json, node: Json, path: string)
      requires Valid() && NodeOk(node) && MatchesType(value, TypeOf(node))
      modifies this
      ensures Valid() && violations == Capped(old(violations) + BodyViolations(value, node, path))
      decreases value, 0
    {
      hide MissingRequired, MemberViolations, ItemViolations, ArrayBounds, TextViolations, NumberViolations;
      var ms := node.members;
      if TypeIs(ms, "object") {
        CheckRequired(Required(ms), value.members, path);
        WalkMembers(value.members, Fields(node), path);
        CappedThen(old(violations), MissingRequired(Required(ms), value.members, path),
                   MemberViolations(value.members, Fields(node), path));
      } else if TypeIs(ms, "array") {
        CheckArrayBounds(|value.items|, ms, path);
        WalkItems(value.items, Items(node), path);
        CappedThen(old(violations), ArrayBounds(|value.items|, ms, path),
                   ItemViolations(value.items, 0, Items(node), path));
      } else if TypeIs(ms, "string") {
        CheckText(value.text, ms, path);
      } else if Numeric(ms) {
        CheckNumber(value.number, ms, path);
      } else {
        assert violations + [] == violations;
      }
    }

    method CheckRequired(names: seq<Json>, members: seq<Member>, path: string)
      requires Valid() && AllText(names)
      modifies this
      ensures Valid() && violations == Capped(old(violations) + MissingRequired(names, members, path))
    {
      hide When;
      for i := 0 to |names|
        invariant Valid()
        invariant Capped(violations + MissingRequired(names[i..], members, path)) ==
                  Capped(old(violations) + MissingRequired(names, members, path))
      {
        ghost var before := violations;
        var fails := !Has(members, names[i].text);
        AddWhen(fails, RequiredRule, path);
        assert names[i..][1..] == names[i + 1..];
        CappedThen(before, When(fails, RequiredRule, path), MissingRequired(names[i + 1..], members, path));
      }
      assert violations + [] == violations;
    }

    method WalkMembers(members: seq<Member>, fields: seq<Member>, path: string)
      requires Valid() && forall i :: 0 <= i < |fields| ==> NodeOk(fields[i].value)
      modifies this
      ensures Valid() && violations == Capped(old(violations) + MemberViolations(members, fields, path))
      decreases members, 0
    {
      hide NodeOk, Violations;
      for i := 0 to |members|
        invariant Valid()
        invariant Capped(violations + MemberViolations(members[i..], fields, path)) ==
                  Capped(old(violations) + MemberViolations(members, fields, path))
      {
        ghost var before := violations;
        var m := members[i];
        if Has(fields, m.name) {
          Walk(m.value, Get(fields, m.name), Join(path, m.name));
        } else {
          Add(AdditionalPropertiesRule, path);
        }
        assert members[i..][1..] == members[i + 1..];
        CappedThen(before, MemberViolation(m, fields, path), MemberViolations(members[i + 1..], fields, path));
      }
      assert violations + [] == violations;
    }

    method WalkItems(items: seq<Json>, node: Json, path: string)
      requires Valid() && NodeOk(node)
      modifies this
      ensures Valid() && violations == Capped(old(violations) + ItemViolations(items, 0, node, path))
      decreases items, 0
    {
      hide NodeOk, Violations;
      for i := 0 to |items|
        invariant Valid()
        invariant Capped(violations + ItemViolations(items[i..], i, node, path)) ==
                  Capped(old(violations) + ItemViolations(items, 0, node, path))
      {
        ghost var before := violations;
        Walk(items[i], node, Join(path, NatText(i)));
        assert items[i..][1..] == items[i + 1..];
        CappedThen(before, Violations(items[i], node, Join(path, NatText(i))),
                   ItemViolations(items[i + 1..], i + 1, node, path));
      }
      assert violations + [] == violations;
    }

    method CheckArrayBounds(count: nat, ms: seq<Member>, path: string)
      requires Valid() && NaturalBounds(ms, "minItems", "maxItems")
      modifies this
      ensures Valid() && violations == Capped(old(violations) + ArrayBounds(count, ms, path))
    {
      var few, many := Below(count as real, ms, "minItems"), Above(count as real, ms, "maxItems");
      hide When;
      AddWhen(few, MinItemsRule, path);
      AddWhen(many, MaxItemsRule, path);
      CappedThen(old(violations), When(few, MinItemsRule, path), When(many, MaxItemsRule, path));
    }

    method CheckText(text: string, ms: seq<Member>, path: string)
      requires Valid() && StringKeywordsOk(ms)
      modifies this
      ensures Valid() && violations == Capped(old(violations) + TextViolations(text, ms, path))
    {
      var short, long := Below(|text| as real, ms, "minLength"), Above(|text| as real, ms, "maxLength");
      var bad := PatternFails(text, ms);
      hide When;
      AddWhen(short, MinLengthRule, path);
      AddWhen(long, MaxLengthRule, path);
      AddWhen(bad, PatternRule, path);
      ghost var a, b := When(short, MinLengthRule, path), When(long, MaxLengthRule, path);
      ghost var c := When(bad, PatternRule, path);
      CappedThen(old(violations), a, b);
      CappedThen(old(violations), a + b, c);
    }

    method CheckNumber(number: Decimal, ms: seq<Member>, path: string)
      requires Valid() && NumericKeywordsOk(ms)
      modifies this
      ensures Valid() && violations == Capped(old(violations) + NumberViolations(number, ms, path))
    {
      var low, high := Below(Value(number), ms, "minimum"), Above(Value(number), ms, "maximum");
      hide When;
      AddWhen(low, MinimumRule, path);
      AddWhen(high, MaximumRule, path);
      CappedThen(old(violations), When(low, MinimumRule, path), When(high, MaximumRule, path));
    }
  }

  /** `validate_instance`: the first violations in walk order, at most twenty-five of them. */
  method ValidateInstance(instance: Json, schema: Json) returns (violations: seq<Violation>)
    requires WellFormedSchema(schema)
    ensures violations == Capped(Violations(instance, schema, ""))
    ensures |violations| <= 25 && violations <= Violations(instance, schema, "")
    ensures |violations| < 25 ==> violations == Violations(instance, schema, "")
    ensures violations == [] <==> Conforms(instance, schema)
  {
    var walker := new Walker();
    walker.Walk(instance, schema, "");
    violations := walker.violations;
    assert [] + Violations(instance, schema, "") == Violations(instance, schema, "");
    ViolationsNone(instance, schema, "");
  }

  // ---- what a schema means ----

  // The instance satisfies the schema: each keyword says what it says in JSON Schema 2020-12.
  predicate Conforms(v: Json, node: Json)
    requires NodeOk(node)
    decreases v, 1
  {
    var ms := node.members;
    MatchesType(v, TypeOf(node))
    && (Has(ms, "enum") ==> exists i | 0 <= i < |Get(ms, "enum").items| :: JsonEqual(v, Get(ms, "enum").items[i]))
    && (Has(ms, "const") ==> JsonEqual(v, Get(ms, "const")))
    && ConformsInside(v, node)
  }

  predicate ConformsInside(v: Json, node: Json)
    requires NodeOk(node)
    decreases v, 0
  {
    var ms := node.members;
    match v
    case JObj(members) =>
      TypeIs(ms, "object") ==>
        (forall i | 0 <= i < |Required(ms)| :: Has(members, Required(ms)[i].text))
        && forall i | 0 <= i < |members| ::
             Has(Fields(node), members[i].name) &&
             Conforms(members[i].value, Get(Fields(node), members[i].name))
    case JArr(items) =>
      TypeIs(ms, "array") ==>
        (Has(ms, "minItems") ==> Value(Get(ms, "minItems").number) <= |items| as real)
        && (Has(ms, "maxItems") ==> |items| as real <= Value(Get(ms, "maxItems").number))
        && forall i | 0 <= i < |items| :: Conforms(items[i], Items(node))
    case JStr(s) =>
      TypeIs(ms, "string") ==>
        (Has(ms, "minLength") ==> Value(Get(ms, "minLength").number) <= |s| as real)
        && (Has(ms, "maxLength") ==> |s| as real <= Value(Get(ms, "maxLength").number))
        && (Has(ms, "pattern") ==> MatchesPattern(Get(ms, "pattern").text, s))
    case JNum(d) =>
      Numeric(ms) ==>
        (Has(ms, "minimum") ==> Value(Get(ms, "minimum").number) <= Value(d))
        && (Has(ms, "maximum") ==> Value(d) <= Value(Get(ms, "maximum").number))
    case _ => true
  }

  lemma {:induction false} MissingRequiredNone(names: seq<Json>, ms: seq<Member>, path: string)
    requires AllText(names)
    ensures MissingRequired(names, ms, path) == [] <==>
      forall i | 0 <= i < |names| :: Has(ms, names[i].text)
  {
    if names != [] {
      MissingRequiredNone(names[1..], ms, path);
      assert forall i | 0 < i < |names| :: names[i] == names[1..][i - 1];
    }
  }

  lemma {:induction false} MemberViolationsNone(ms: seq<Member>, fields: seq<Member>, path: string)
    requires forall i :: 0 <= i < |fields| ==> NodeOk(fields[i].value)
    ensures MemberViolations(ms, fields, path) == [] <==>
      forall i | 0 <= i < |ms| ::
        Has(fields, ms[i].name) && Conforms(ms[i].value, Get(fields, ms[i].name))
    decreases ms, 0
  {
    hide NodeOk, Violations, Conforms;
    if ms != [] {
      if Has(fields, ms[0].name) {
        ViolationsNone(ms[0].value, Get(fields, ms[0].name), Join(path, ms[0].name));
      }
      MemberViolationsNone(ms[1..], fields, path);
      assert forall i | 0 < i < |ms| :: ms[i] == ms[1..][i - 1];
    }
  }

  lemma {:induction false} ItemViolationsNone(items: seq<Json>, first: nat, node: Json, path: string)
    requires NodeOk(node)
    ensures ItemViolations(items, first, node, path) == [] <==>
      forall i | 0 <= i < |items| :: Conforms(items[i], node)
    decreases items, 0
  {
    hide NodeOk, Violations, Conforms;
    if items != [] {
      ViolationsNone(items[0], node, Join(path, NatText(first)));
      ItemViolationsNone(items[1..], first + 1, node, path);
      assert forall i | 0 < i < |items| :: items[i] == items[1..][i - 1];
    }
  }

  // A value that has its node's type picks the matching branch of the walk.
  lemma KindOfType(v: Json, node: Json)
    requires NodeOk(node) && MatchesType(v, TypeOf(node))
    ensures TypeIs(node.members, "object") <==> v.JObj?
    ensures TypeIs(node.members, "array") <==> v.JArr?
    ensures TypeIs(node.members, "string") <==> v.JStr?
    ensures Numeric(node.members) <==> v.JNum?
  {
    hide GroupsOk, BodyOk, EnumConstOk, AllSupported;
    TypesExclusive(node.members);
  }

  lemma {:induction false} BodyViolationsNone(v: Json, node: Json, path: string)
    requires NodeOk(node) && MatchesType(v, TypeOf(node))
    ensures BodyViolations(v, node, path) == [] <==> ConformsInside(v, node)
    decreases v, 0
  {
    hide MatchesType, TypeIs, Numeric, MissingRequired, MemberViolations, ItemViolations, Conforms;
    hide MatchesPattern, GroupsOk, AllSupported, EnumConstOk, ArrayBounds, TextViolations, NumberViolations, Has;
    var ms := node.members;
    KindOfType(v, node);
    match v
    case JObj(members) =>
      MissingRequiredNone(Required(ms), members, path);
      MemberViolationsNone(members, Fields(node), path);
    case JArr(items) =>
      ArrayBoundsNone(|items|, ms, path);
      ItemViolationsNone(items, 0, Items(node), path);
    case JStr(s) => TextViolationsNone(s, ms, path);
    case JNum(d) => NumberViolationsNone(d, ms, path);
    case _ =>
  }

  lemma ArrayBoundsNone(count: nat, ms: seq<Member>, path: string)
    requires NaturalBounds(ms, "minItems", "maxItems")
    ensures ArrayBounds(count, ms, path) == [] <==>
      (Has(ms, "minItems") ==> Value(Get(ms, "minItems").number) <= count as real)
      && (Has(ms, "maxItems") ==> count as real <= Value(Get(ms, "maxItems").number))
  {
    hide Has;
  }

  lemma TextViolationsNone(s: string, ms: seq<Member>, path: string)
    requires StringKeywordsOk(ms)
    ensures TextViolations(s, ms, path) == [] <==>
      (Has(ms, "minLength") ==> Value(Get(ms, "minLength").number) <= |s| as real)
      && (Has(ms, "maxLength") ==> |s| as real <= Value(Get(ms, "maxLength").number))
      && (Has(ms, "pattern") ==> MatchesPattern(Get(ms, "pattern").text, s))
  {
    hide Has, MatchesPattern;
  }

  lemma NumberViolationsNone(d: Decimal, ms: seq<Member>, path: string)
    requires NumericKeywordsOk(ms)
    ensures NumberViolations(d, ms, path) == [] <==>
      (Has(ms, "minimum") ==> Value(Get(ms, "minimum").number) <= Value(d))
      && (Has(ms, "maximum") ==> Value(d) <= Value(Get(ms, "maximum").number))
  {
    hide Has, Value;
  }

  /** No violation is reported exactly when the instance conforms. */
  lemma {:induction false} ViolationsNone(v: Json, node: Json, path: string)
    requires NodeOk(node)
    ensures Violations(v, node, path) == [] <==> Conforms(v, node)
    decreases v, 1
  {
    hide BodyViolations, ConformsInside, HeaderOk, BodyOk;
    if MatchesType(v, TypeOf(node)) {
      BodyViolationsNone(v, node, path);
    }
  }
}
