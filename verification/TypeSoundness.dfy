/** `validate_instance` over any JSON value in the place of a schema, with `None` where Python raises a
    KeyError or a TypeError, and the proof that a well-formed schema never gets there. */
module TypeSoundness {
  import opened Decimals
  import opened Json
  import opened Options
  import opened Pointer
  import opened SchemaProfile
  import opened Text
  import opened Validator

  type Found = seq<Violation>

  // `add`
  function Add(found: Found, rule: Rule, path: string): Found {
    if |found| < MAX_VIOLATIONS then found + [Violation(rule, path)] else found
  }

  function AddIf(found: Found, fails: bool, rule: Rule, path: string): Found {
    if fails then Add(found, rule, path) else found
  }

  // ---- Python's operators on decoded JSON ----

  // What a `for` loop takes from a value: items, keys or characters; anything else is a TypeError.
  function Iterate(v: Json): Option<seq<Json>> {
    match v
    case JArr(items) => Some(items)
    case JObj(ms) => Some(seq(|ms|, i requires 0 <= i < |ms| => JStr(ms[i].name)))
    case JStr(s) => Some(seq(|s|, i requires 0 <= i < |s| => JStr([s[i]])))
    case _ => None
  }

  predicate Hashable(v: Json) { !v.JArr? && !v.JObj? }

  // The left side of `<` and `>` is a number, and a bool on the right counts as 0 or 1.
  function AsNumber(v: Json): Option<real> {
    match v
    case JNum(d) => Some(Value(d))
    case JBool(b) => Some(if b then 1.0 else 0.0)
    case _ => None
  }

  // `name in container` for a string: a key, an item or a substring.
  function Contains(container: Json, name: string): Option<bool> {
    match container
    case JObj(ms) => Some(Has(ms, name))
    case JArr(items) => Some(JStr(name) in items)
    case JStr(s) => Some(exists i | 0 <= i <= |s| :: name <= s[i..])
    case _ => None
  }

  // ---- the interpreter ----

  // `matches_type` for whatever stands as the type: an unknown one is taken for null.
  predicate Matches(v: Json, schemaType: Json) {
    if schemaType.JStr? then MatchesType(v, schemaType.text) else v.JNull?
  }

  // `any(json_equal(value, item) for item in node["enum"])`
  function CheckEnum(found: Found, v: Json, ms: seq<Member>, path: string): Option<Found> {
    if !Has(ms, "enum") then Some(found)
    else match Iterate(Get(ms, "enum"))
      case None => None
      case Some(items) => Some(AddIf(found, !InEnum(v, items), EnumRule, path))
  }

  function CheckConst(found: Found, v: Json, ms: seq<Member>, path: string): Found {
    AddIf(found, Has(ms, "const") && !JsonEqual(v, Get(ms, "const")), ConstRule, path)
  }

  // `name not in value` for each name, which must be hashable
  function CheckRequired(found: Found, names: seq<Json>, members: seq<Member>, path: string): Option<Found>
    decreases |names|
  {
    if names == [] then Some(found)
    else if !Hashable(names[0]) then None
    else
      var present := names[0].JStr? && Has(members, names[0].text);
      CheckRequired(AddIf(found, !present, RequiredRule, path), names[1..], members, path)
  }

  function CheckLow(found: Found, x: real, ms: seq<Member>, keyword: string, rule: Rule, path: string): Option<Found> {
    if !Has(ms, keyword) then Some(found)
    else match AsNumber(Get(ms, keyword))
      case None => None
      case Some(bound) => Some(AddIf(found, x < bound, rule, path))
  }

  function CheckHigh(found: Found, x: real, ms: seq<Member>, keyword: string, rule: Rule, path: string): Option<Found> {
    if !Has(ms, keyword) then Some(found)
    else match AsNumber(Get(ms, keyword))
      case None => None
      case Some(bound) => Some(AddIf(found, x > bound, rule, path))
  }

  function CheckBounds(found: Found, x: real, ms: seq<Member>, low: string, lowRule: Rule, high: string,
                       highRule: Rule, path: string): Option<Found>
  {
    match CheckLow(found, x, ms, low, lowRule, path)
    case None => None
    case Some(f) => CheckHigh(f, x, ms, high, highRule, path)
  }

  // A matcher is looked up by the pattern, which must be hashable.
  function CheckPattern(found: Found, s: string, ms: seq<Member>, path: string): Option<Found> {
    if !Has(ms, "pattern") then Some(found)
    else
      var pattern := Get(ms, "pattern");
      if !Hashable(pattern) then None
      else Some(AddIf(found, !(pattern.JStr? && MatchesPattern(pattern.text, s)), PatternRule, path))
  }

  function CheckText(found: Found, s: string, ms: seq<Member>, path: string): Option<Found> {
    match CheckBounds(found, |s| as real, ms, "minLength", MinLengthRule, "maxLength", MaxLengthRule, path)
    case None => None
    case Some(f) => CheckPattern(f, s, ms, path)
  }

  function Run(found: Found, v: Json, node: Json, path: string): Option<Found>
    decreases v, 1
  {
    if |found| >= MAX_VIOLATIONS then Some(found)
    else if !node.JObj? || !Has(node.members, "type") then None
    else if !Matches(v, Get(node.members, "type")) then Some(Add(found, TypeRule, path))
    else match CheckEnum(found, v, node.members, path)
      case None => None
      case Some(f) => RunBody(CheckConst(f, v, node.members, path), v, node.members, path)
  }

  function RunBody(found: Found, v: Json, ms: seq<Member>, path: string): Option<Found>
    requires Has(ms, "type") && Matches(v, Get(ms, "type"))
    decreases v, 0
  {
    var t := Get(ms, "type");
    if t == JStr("object") then
      if !Has(ms, "properties") || !Has(ms, "required") then None
      else match Iterate(Get(ms, "required"))
        case None => None
        case Some(names) =>
          match CheckRequired(found, names, v.members, path)
          case None => None
          case Some(f) => RunMembers(f, v.members, Get(ms, "properties"), path)
    else if t == JStr("array") then
      match CheckBounds(found, |v.items| as real, ms, "minItems", MinItemsRule, "maxItems", MaxItemsRule, path)
      case None => None
      case Some(f) => RunItems(f, v.items, 0, ms, path)
    else if t == JStr("string") then CheckText(found, v.text, ms, path)
    else if !Hashable(t) then None  // `in {"integer", "number"}`
    else if t == JStr("integer") || t == JStr("number") then
      CheckBounds(found, Value(v.number), ms, "minimum", MinimumRule, "maximum", MaximumRule, path)
    else Some(found)
  }

  function RunMembers(found: Found, members: seq<Member>, properties: Json, path: string): Option<Found>
    decreases members, 0
  {
    if members == [] then Some(found)
    else match RunMember(found, members[0], properties, path)
      case None => None
      case Some(f) => RunMembers(f, members[1..], properties, path)
  }

  // `properties[name]` needs a dict, even where `name in properties` does not.
  function RunMember(found: Found, m: Member, properties: Json, path: string): Option<Found>
    decreases m, 0
  {
    match Contains(properties, m.name)
    case None => None
    case Some(false) => Some(Add(found, AdditionalPropertiesRule, path))
    case Some(true) =>
      if !properties.JObj? then None
      else Run(found, m.value, Get(properties.members, m.name), Join(path, m.name))
  }

  function RunItems(found: Found, items: seq<Json>, first: nat, ms: seq<Member>, path: string): Option<Found>
    decreases items, 0
  {
    if items == [] then Some(found)
    else if !Has(ms, "items") then None
    else match Run(found, items[0], Get(ms, "items"), Join(path, NatText(first)))
      case None => None
      case Some(f) => RunItems(f, items[1..], first + 1, ms, path)
  }

  /** Getting stuck is real: an object node without its two keywords raises on every object. */
  lemma ObjectNeedsKeywords(found: Found, v: Json, node: Json, path: string)
    requires |found| < MAX_VIOLATIONS && v.JObj? && node.JObj? && Lookup(node.members, "type") == Some(JStr("object"))
    requires !Has(node.members, "properties") || !Has(node.members, "required")
    ensures Run(found, v, node, path).None?
  {
  }

  // ---- a well-formed schema never gets stuck ----

  predicate Bounded(found: Found) { |found| <= MAX_VIOLATIONS }

  lemma AddIfCapped(found: Found, fails: bool, rule: Rule, path: string)
    requires Bounded(found)
    ensures AddIf(found, fails, rule, path) == Capped(found + When(fails, rule, path))
    ensures Bounded(AddIf(found, fails, rule, path))
  {
    if fails && |found| >= MAX_VIOLATIONS {
      assert (found + [Violation(rule, path)])[..MAX_VIOLATIONS] == found;
    }
  }

  lemma Nothing(found: Found)
    requires Bounded(found)
    ensures Capped(found + []) == found
  {
    assert found + [] == found;
  }

  lemma RequiredSound(found: Found, names: seq<Json>, members: seq<Member>, path: string)
    requires Bounded(found) && AllText(names)
    ensures CheckRequired(found, names, members, path) ==
            Some(Capped(found + MissingRequired(names, members, path)))
    decreases |names|
  {
    hide When, AddIf, Capped;
    if names == [] {
      Nothing(found);
    } else {
      var fails := !Has(members, names[0].text);
      AddIfCapped(found, fails, RequiredRule, path);
      RequiredSound(AddIf(found, fails, RequiredRule, path), names[1..], members, path);
      CappedThen(found, When(fails, RequiredRule, path), MissingRequired(names[1..], members, path));
    }
  }

  lemma BoundsSound(found: Found, x: real, ms: seq<Member>, low: string, lowRule: Rule, high: string,
                    highRule: Rule, path: string)
    requires Bounded(found)
    requires (Has(ms, low) ==> NumberAt(ms, low)) && (Has(ms, high) ==> NumberAt(ms, high))
    ensures CheckBounds(found, x, ms, low, lowRule, high, highRule, path) ==
            Some(Capped(found + (When(Below(x, ms, low), lowRule, path) + When(Above(x, ms, high), highRule, path))))
  {
    var (below, above) := (Below(x, ms, low), Above(x, ms, high));
    LowSound(found, x, ms, low, lowRule, path);
    var f := AddIf(found, below, lowRule, path);
    HighSound(f, x, ms, high, highRule, path);
    AddIfCapped(found, below, lowRule, path);
    AddIfCapped(f, above, highRule, path);
    hide When, AddIf, Capped, Has, Below, Above, CheckLow, CheckHigh;
    CappedThen(found, When(below, lowRule, path), When(above, highRule, path));
  }

  lemma LowSound(found: Found, x: real, ms: seq<Member>, keyword: string, rule: Rule, path: string)
    requires Has(ms, keyword) ==> NumberAt(ms, keyword)
    ensures CheckLow(found, x, ms, keyword, rule, path) == Some(AddIf(found, Below(x, ms, keyword), rule, path))
  {
    hide Has, Value;
  }

  lemma HighSound(found: Found, x: real, ms: seq<Member>, keyword: string, rule: Rule, path: string)
    requires Has(ms, keyword) ==> NumberAt(ms, keyword)
    ensures CheckHigh(found, x, ms, keyword, rule, path) == Some(AddIf(found, Above(x, ms, keyword), rule, path))
  {
    hide Has, Value;
  }

  lemma NotFailing(found: Found, rule: Rule, path: string)
    ensures AddIf(found, false, rule, path) == found
  {
  }

  lemma NaturalNumbers(ms: seq<Member>, low: string, high: string)
    requires NaturalBounds(ms, low, high)
    ensures (Has(ms, low) ==> NumberAt(ms, low)) && (Has(ms, high) ==> NumberAt(ms, high))
  {
    assert "integer" != "object" && "integer" != "array" && "integer" != "string" by {
      assert "integer"[0] == 'i';
    }
    hide Has;
  }

  lemma TextSound(found: Found, s: string, ms: seq<Member>, path: string)
    requires Bounded(found) && StringKeywordsOk(ms)
    ensures CheckText(found, s, ms, path) == Some(Capped(found + TextViolations(s, ms, path)))
  {
    NaturalNumbers(ms, "minLength", "maxLength");
    BoundsSound(found, |s| as real, ms, "minLength", MinLengthRule, "maxLength", MaxLengthRule, path);
    hide When, AddIf, Capped, Has, NaturalBounds, CheckBounds, MatchesPattern, Bounded;
    var (short, long) := (Below(|s| as real, ms, "minLength"), Above(|s| as real, ms, "maxLength"));
    var lengths := When(short, MinLengthRule, path) + When(long, MaxLengthRule, path);
    CappedBounded(found + lengths);
    var f := Capped(found + lengths);
    AddIfCapped(f, PatternFails(s, ms), PatternRule, path);
    NotFailing(f, PatternRule, path);
    CappedThen(found, lengths, When(PatternFails(s, ms), PatternRule, path));
  }

  lemma CappedBounded(all: Found)
    ensures Bounded(Capped(all))
  {
  }

  lemma ValueSound(found: Found, v: Json, ms: seq<Member>, path: string)
    requires Bounded(found) && EnumOk(ms)
    ensures CheckEnum(found, v, ms, path).Some?
    ensures CheckConst(CheckEnum(found, v, ms, path).value, v, ms, path) ==
            Capped(found + ValueViolations(v, ms, path))
  {
    hide When, AddIf, Capped, Has, InEnum, PairwiseDifferent, EnumTyped, Bounded;
    var enumFails := Has(ms, "enum") && !InEnum(v, Get(ms, "enum").items);
    var constFails := Has(ms, "const") && !JsonEqual(v, Get(ms, "const"));
    AddIfCapped(found, enumFails, EnumRule, path);
    NotFailing(found, EnumRule, path);
    var f := AddIf(found, enumFails, EnumRule, path);
    AddIfCapped(f, constFails, ConstRule, path);
    CappedThen(found, When(enumFails, EnumRule, path), When(constFails, ConstRule, path));
  }

  lemma {:induction false} MembersSound(found: Found, members: seq<Member>, properties: seq<Member>, path: string)
    requires Bounded(found) && forall i :: 0 <= i < |properties| ==> NodeOk(properties[i].value)
    ensures RunMembers(found, members, JObj(properties), path) ==
            Some(Capped(found + MemberViolations(members, properties, path)))
    decreases members, 0
  {
    hide NodeOk, Run, Violations, Capped, When, Bounded;
    if members == [] {
      Nothing(found);
    } else {
      MemberSound(found, members[0], properties, path);
      var here := MemberViolation(members[0], properties, path);
      CappedBounded(found + here);
      MembersSound(Capped(found + here), members[1..], properties, path);
      CappedThen(found, here, MemberViolations(members[1..], properties, path));
    }
  }

  lemma {:induction false} MemberSound(found: Found, m: Member, properties: seq<Member>, path: string)
    requires Bounded(found) && forall i :: 0 <= i < |properties| ==> NodeOk(properties[i].value)
    ensures RunMember(found, m, JObj(properties), path) ==
            Some(Capped(found + MemberViolation(m, properties, path)))
    decreases m, 0
  {
    hide NodeOk, Run, Violations, Capped, Bounded;
    if Has(properties, m.name) {
      RunSound(found, m.value, Get(properties, m.name), Join(path, m.name));
    } else {
      AddIfCapped(found, true, AdditionalPropertiesRule, path);
    }
  }

  lemma {:induction false} ItemsSound(found: Found, items: seq<Json>, first: nat, ms: seq<Member>, path: string)
    requires Bounded(found) && Has(ms, "items") && NodeOk(Get(ms, "items"))
    ensures RunItems(found, items, first, ms, path) ==
            Some(Capped(found + ItemViolations(items, first, Get(ms, "items"), path)))
    decreases items, 0
  {
    hide NodeOk, Run, Violations, Capped, Has, Bounded;
    if items == [] {
      Nothing(found);
    } else {
      var node := Get(ms, "items");
      RunSound(found, items[0], node, Join(path, NatText(first)));
      var here := Violations(items[0], node, Join(path, NatText(first)));
      CappedBounded(found + here);
      ItemsSound(Capped(found + here), items[1..], first + 1, ms, path);
      CappedThen(found, here, ItemViolations(items[1..], first + 1, node, path));
    }
  }

  lemma {:induction false} BodySound(found: Found, v: Json, node: Json, path: string)
    requires Bounded(found) && NodeOk(node) && MatchesType(v, TypeOf(node))
    ensures RunBody(found, v, node.members, path) == Some(Capped(found + BodyViolations(v, node, path)))
    decreases v, 0
  {
    hide RunMembers, RunItems, CheckRequired, CheckBounds, CheckText, Capped, Bounded;
    hide MissingRequired, MemberViolations, ItemViolations, TextViolations, GroupsOk, AllSupported, EnumConstOk;
    var ms := node.members;
    if TypeIs(ms, "object") {
      RequiredSound(found, Required(ms), v.members, path);
      var missing := MissingRequired(Required(ms), v.members, path);
      CappedBounded(found + missing);
      MembersSound(Capped(found + missing), v.members, Fields(node), path);
      CappedThen(found, missing, MemberViolations(v.members, Fields(node), path));
    } else if TypeIs(ms, "array") {
      NaturalNumbers(ms, "minItems", "maxItems");
      BoundsSound(found, |v.items| as real, ms, "minItems", MinItemsRule, "maxItems", MaxItemsRule, path);
      var counts := ArrayBounds(|v.items|, ms, path);
      CappedBounded(found + counts);
      ItemsSound(Capped(found + counts), v.items, 0, ms, path);
      CappedThen(found, counts, ItemViolations(v.items, 0, Items(node), path));
    } else if TypeIs(ms, "string") {
      TextSound(found, v.text, ms, path);
    } else if Numeric(ms) {
      BoundsSound(found, Value(v.number), ms, "minimum", MinimumRule, "maximum", MaximumRule, path);
    } else {
      Nothing(found);
    }
  }

  /** On a well-formed node no lookup, iteration or comparison fails, whatever the instance and the
      violations found before: the interpreter ends with the capped list of violations. */
  lemma {:induction false} RunSound(found: Found, v: Json, node: Json, path: string)
    requires Bounded(found) && NodeOk(node)
    ensures Run(found, v, node, path) == Some(Capped(found + Violations(v, node, path)))
    decreases v, 1
  {
    hide CheckEnum, CheckConst, RunBody, ValueViolations, BodyViolations, AllSupported, GroupsOk, BodyOk, Capped;
    if |found| >= MAX_VIOLATIONS {
      Full(found, Violations(v, node, path));
    } else if !MatchesType(v, TypeOf(node)) {
      AddIfCapped(found, true, TypeRule, path);
    } else {
      ValueSound(found, v, node.members, path);
      var values := ValueViolations(v, node.members, path);
      CappedBounded(found + values);
      BodySound(Capped(found + values), v, node, path);
      CappedThen(found, values, BodyViolations(v, node, path));
    }
  }

  lemma Full(found: Found, more: Found)
    requires |found| == MAX_VIOLATIONS
    ensures Capped(found + more) == found
  {
    assert (found + more)[..MAX_VIOLATIONS] == found;
  }

  /** A schema without issues never makes the interpreter raise, and the verdict is sound and complete:
      nothing is found exactly for conforming instances. */
  lemma {:induction false} NeverStuck(instance: Json, schema: Json)
    requires WellFormedSchema(schema)
    ensures Run([], instance, schema, "") == Some(Capped(Violations(instance, schema, "")))
    ensures Run([], instance, schema, "") == Some([]) <==> Conforms(instance, schema)
  {
    hide Run, Violations, Conforms, NodeOk, Placed;
    RunSound([], instance, schema, "");
    assert [] + Violations(instance, schema, "") == Violations(instance, schema, "");
    ViolationsNone(instance, schema, "");
  }
}
