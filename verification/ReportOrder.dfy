/** In which order the interpreter reports: place by place as the instance is read from front to back, and at
    each place rule by rule in one fixed order. */
module ReportOrder {
  import Decimals
  import opened Json
  import opened Locations
  import opened Pointer
  import opened SchemaProfile
  import opened Text
  import opened Validator

  // A value beside the schema node it is held to, or a member that no property names.
  datatype Place = Held(value: Json, node: Json, path: string) | Extra(path: string)

  // The places of an instance in the order they are written: a value before its members or items.
  ghost function Places(v: Json, node: Json, path: string): seq<Place>
    requires NodeOk(node)
    decreases v, 1
  {
    [Held(v, node, path)] +
    (if !MatchesType(v, TypeOf(node)) then []
     else if v.JObj? && TypeIs(node.members, "object") then MemberPlaces(v.members, Fields(node), path)
     else if v.JArr? && TypeIs(node.members, "array") then ItemPlaces(v.items, 0, Items(node), path)
     else [])
  }

  ghost function MemberPlaces(ms: seq<Member>, fields: seq<Member>, path: string): seq<Place>
    requires forall i :: 0 <= i < |fields| ==> NodeOk(fields[i].value)
    decreases ms, 0
  {
    if ms == [] then []
    else
      (if Has(fields, ms[0].name) then Places(ms[0].value, Get(fields, ms[0].name), Join(path, ms[0].name))
       else [Extra(path)])
      + MemberPlaces(ms[1..], fields, path)
  }

  ghost function ItemPlaces(items: seq<Json>, first: nat, node: Json, path: string): seq<Place>
    requires NodeOk(node)
    decreases items, 0
  {
    if items == [] then []
    else Places(items[0], node, Join(path, NatText(first))) + ItemPlaces(items[1..], first + 1, node, path)
  }

  // How many required names an object misses.
  function Missing(names: seq<Json>, ms: seq<Member>): nat
    requires AllText(names)
  {
    if names == [] then 0 else (if Has(ms, names[0].text) then 0 else 1) + Missing(names[1..], ms)
  }

  // A value is missing once for each name, and breaks any other rule once.
  ghost function Times(rule: Rule, v: Json, node: Json): nat
    requires NodeOk(node)
  {
    if rule == AdditionalPropertiesRule || !Breaks(rule, v, node) then 0
    else if rule == RequiredRule && v.JObj? then Missing(Required(node.members), v.members)
    else 1
  }

  const RULES := [TypeRule, EnumRule, ConstRule, RequiredRule, MinItemsRule, MaxItemsRule, MinLengthRule,
                  MaxLengthRule, PatternRule, MinimumRule, MaximumRule]

  function Copies(n: nat, x: Violation): seq<Violation> { seq(n, _ => x) }

  ghost function InRuleOrder(rules: seq<Rule>, v: Json, node: Json, path: string): seq<Violation>
    requires NodeOk(node)
  {
    if rules == [] then []
    else Copies(Times(rules[0], v, node), Violation(rules[0], path)) + InRuleOrder(rules[1..], v, node, path)
  }

  ghost function Reports(p: Place): seq<Violation> {
    match p
    case Extra(path) => [Violation(AdditionalPropertiesRule, path)]
    case Held(v, node, path) => if NodeOk(node) then InRuleOrder(RULES, v, node, path) else []
  }

  ghost function Flat(places: seq<Place>): seq<Violation> {
    if places == [] then [] else Reports(places[0]) + Flat(places[1..])
  }

  lemma {:induction false} FlatConcat(a: seq<Place>, b: seq<Place>)
    ensures Flat(a + b) == Flat(a) + Flat(b)
  {
    hide Reports;
    if a == [] {
      assert a + b == b;
    } else {
      assert (a + b)[1..] == a[1..] + b;
      FlatConcat(a[1..], b);
    }
  }

  lemma FlatOne(p: Place)
    ensures Flat([p]) == Reports(p)
  {
    hide Reports;
    assert Reports(p) + [] == Reports(p);
  }

  lemma {:induction false} MissingCopies(names: seq<Json>, ms: seq<Member>, path: string)
    requires AllText(names)
    ensures MissingRequired(names, ms, path) == Copies(Missing(names, ms), Violation(RequiredRule, path))
    ensures Missing(names, ms) > 0 <==> exists i | 0 <= i < |names| :: !Has(ms, names[i].text)
  {
    hide Has;
    if names != [] {
      MissingCopies(names[1..], ms, path);
      assert forall i | 0 < i < |names| :: names[i] == names[1..][i - 1];
    }
  }

  lemma WhenCopies(fails: bool, rule: Rule, path: string)
    ensures When(fails, rule, path) == Copies(if fails then 1 else 0, Violation(rule, path))
  {
  }

  // One rule after another, each as often as the value breaks it.
  ghost function Eleven(v: Json, node: Json, path: string): seq<Violation>
    requires NodeOk(node)
  {
    One(TypeRule, v, node, path) + (One(EnumRule, v, node, path) + (One(ConstRule, v, node, path)
    + (One(RequiredRule, v, node, path) + (One(MinItemsRule, v, node, path) + (One(MaxItemsRule, v, node, path)
    + (One(MinLengthRule, v, node, path) + (One(MaxLengthRule, v, node, path) + (One(PatternRule, v, node, path)
    + (One(MinimumRule, v, node, path) + One(MaximumRule, v, node, path))))))))))
  }

  ghost function One(rule: Rule, v: Json, node: Json, path: string): seq<Violation>
    requires NodeOk(node)
  {
    Copies(Times(rule, v, node), Violation(rule, path))
  }

  lemma RulesUnrolled(v: Json, node: Json, path: string)
    requires NodeOk(node)
    ensures InRuleOrder(RULES, v, node, path) == Eleven(v, node, path)
  {
    hide NodeOk, Times, Copies;
    var r := RULES;
    RuleStep(r, v, node, path);
    RuleStep(r[1..], v, node, path);
    RuleStep(r[2..], v, node, path);
    RuleStep(r[3..], v, node, path);
    RuleStep(r[4..], v, node, path);
    RuleStep(r[5..], v, node, path);
    RuleStep(r[6..], v, node, path);
    RuleStep(r[7..], v, node, path);
    RuleStep(r[8..], v, node, path);
    RuleStep(r[9..], v, node, path);
    RuleStep(r[10..], v, node, path);
    assert r[1..][1..] == r[2..] && r[2..][1..] == r[3..] && r[3..][1..] == r[4..] && r[4..][1..] == r[5..]
      && r[5..][1..] == r[6..] && r[6..][1..] == r[7..] && r[7..][1..] == r[8..] && r[8..][1..] == r[9..]
      && r[9..][1..] == r[10..] && r[10..][1..] == [];
    hide InRuleOrder;
    assert One(MaximumRule, v, node, path) + [] == One(MaximumRule, v, node, path);
  }

  lemma RuleStep(rules: seq<Rule>, v: Json, node: Json, path: string)
    requires NodeOk(node) && rules != []
    ensures InRuleOrder(rules, v, node, path) == One(rules[0], v, node, path) + InRuleOrder(rules[1..], v, node, path)
    ensures InRuleOrder([], v, node, path) == []
  {
    hide NodeOk, Times, Copies;
  }

  // Where no rule of a kind is broken, nothing is reported for it.
  lemma Quiet(rule: Rule, v: Json, node: Json, path: string)
    requires NodeOk(node) && !Breaks(rule, v, node)
    ensures One(rule, v, node, path) == []
  {
    hide NodeOk, Breaks;
  }

  lemma Loud(rule: Rule, v: Json, node: Json, path: string, fails: bool)
    requires NodeOk(node) && (Breaks(rule, v, node) <==> fails)
    requires rule != AdditionalPropertiesRule && rule != RequiredRule
    ensures One(rule, v, node, path) == When(fails, rule, path)
  {
    hide NodeOk, Breaks;
  }

  lemma WrongType(v: Json, node: Json, path: string)
    requires NodeOk(node) && !MatchesType(v, TypeOf(node))
    ensures Eleven(v, node, path) == [Violation(TypeRule, path)]
  {
    hide NodeOk, MatchesType;
    Loud(TypeRule, v, node, path, true);
    Quiet(EnumRule, v, node, path);
    Quiet(ConstRule, v, node, path);
    Quiet(RequiredRule, v, node, path);
    Quiet(MinItemsRule, v, node, path);
    Quiet(MaxItemsRule, v, node, path);
    Quiet(MinLengthRule, v, node, path);
    Quiet(MaxLengthRule, v, node, path);
    Quiet(PatternRule, v, node, path);
    Quiet(MinimumRule, v, node, path);
    Quiet(MaximumRule, v, node, path);
    hide One;
  }

  // The enum and const rules, common to all types.
  lemma ValueOrdered(v: Json, node: Json, path: string)
    requires NodeOk(node) && MatchesType(v, TypeOf(node))
    ensures One(TypeRule, v, node, path) == []
    ensures One(EnumRule, v, node, path) + One(ConstRule, v, node, path) == ValueViolations(v, node.members, path)
  {
    hide MatchesType, InEnum, JsonEqual, TypeIs, Numeric, Has, Below, Above, PatternFails;
    var ms := node.members;
    Quiet(TypeRule, v, node, path);
    Loud(EnumRule, v, node, path, Has(ms, "enum") && !InEnum(v, Get(ms, "enum").items));
    Loud(ConstRule, v, node, path, Has(ms, "const") && !JsonEqual(v, Get(ms, "const")));
  }

  // The rest of what one place reports, by the kind of its value.
  ghost function BodyReports(v: Json, node: Json, path: string): seq<Violation>
    requires NodeOk(node) && MatchesType(v, TypeOf(node))
  {
    var ms := node.members;
    if TypeIs(ms, "object") then MissingRequired(Required(ms), v.members, path)
    else if TypeIs(ms, "array") then ArrayBounds(|v.items|, ms, path)
    else if TypeIs(ms, "string") then TextViolations(v.text, ms, path)
    else if Numeric(ms) then NumberViolations(v.number, ms, path)
    else []
  }

  lemma RequiredOrdered(v: Json, node: Json, path: string)
    requires NodeOk(node) && MatchesType(v, TypeOf(node))
    ensures One(RequiredRule, v, node, path) ==
      if TypeIs(node.members, "object") then MissingRequired(Required(node.members), v.members, path) else []
  {
    KindOfType(v, node);
    if TypeIs(node.members, "object") {
      MissingCopies(Required(node.members), v.members, path);
      hide MatchesType, TypeIs, NodeOk, Missing, MissingRequired, ValueBreaks;
    } else {
      hide MatchesType, TypeIs, NodeOk, Below, Above, PatternFails;
      Quiet(RequiredRule, v, node, path);
    }
  }

  lemma ItemsOrdered(v: Json, node: Json, path: string)
    requires NodeOk(node) && MatchesType(v, TypeOf(node))
    ensures One(MinItemsRule, v, node, path) + One(MaxItemsRule, v, node, path) ==
      if TypeIs(node.members, "array") then ArrayBounds(|v.items|, node.members, path) else []
  {
    hide MatchesType, TypeIs, NodeOk, Below, Above, PatternFails, NaturalBounds, Numeric, Has, InEnum, JsonEqual;
    hide One;
    NodeShape(node);
    KindOfType(v, node);
    NodeBounds(node);
    var ms := node.members;
    var array_ := TypeIs(ms, "array");
    if array_ {
      ArrayNumbers(ms);
    }
    Loud(MinItemsRule, v, node, path, array_ && Below(|v.items| as real, ms, "minItems"));
    Loud(MaxItemsRule, v, node, path, array_ && Above(|v.items| as real, ms, "maxItems"));
  }

  lemma ArrayNumbers(ms: seq<Member>)
    requires NaturalBounds(ms, "minItems", "maxItems")
    ensures (Has(ms, "minItems") ==> NumberAt(ms, "minItems")) && (Has(ms, "maxItems") ==> NumberAt(ms, "maxItems"))
  {
    hide Has;
    assert "integer"[0] == 'i' && "object"[0] == 'o' && "string"[0] == 's' && |"array"| == 5;
  }

  lemma TextNumbers(ms: seq<Member>)
    requires StringKeywordsOk(ms)
    ensures (Has(ms, "minLength") ==> NumberAt(ms, "minLength")) && (Has(ms, "maxLength") ==> NumberAt(ms, "maxLength"))
    ensures Has(ms, "pattern") ==> TextAt(ms, "pattern")
  {
    hide Has;
    assert "integer"[0] == 'i' && "object"[0] == 'o' && "string"[0] == 's' && |"array"| == 5;
  }

  lemma NodeShape(node: Json)
    requires NodeOk(node)
    ensures node.JObj?
  {
  }

  lemma NodeBounds(node: Json)
    requires NodeOk(node)
    ensures TypeIs(node.members, "array") ==> NaturalBounds(node.members, "minItems", "maxItems")
    ensures TypeIs(node.members, "string") ==> StringKeywordsOk(node.members)
    ensures Numeric(node.members) ==> NumericKeywordsOk(node.members)
  {
    hide GroupsOk, AllSupported, EnumConstOk, TypeIs, Numeric, NaturalBounds, StringKeywordsOk, NumericKeywordsOk;
  }

  lemma TextOrdered(v: Json, node: Json, path: string)
    requires NodeOk(node) && MatchesType(v, TypeOf(node))
    ensures One(MinLengthRule, v, node, path) + (One(MaxLengthRule, v, node, path) + One(PatternRule, v, node, path)) ==
      if TypeIs(node.members, "string") then TextViolations(v.text, node.members, path) else []
  {
    hide MatchesType, TypeIs, NodeOk, Below, Above, PatternFails, NaturalBounds, Numeric, Has, InEnum, JsonEqual;
    hide One;
    NodeShape(node);
    KindOfType(v, node);
    NodeBounds(node);
    var ms := node.members;
    var string_ := TypeIs(ms, "string");
    if string_ {
      TextNumbers(ms);
    }
    Loud(MinLengthRule, v, node, path, string_ && Below(|v.text| as real, ms, "minLength"));
    Loud(MaxLengthRule, v, node, path, string_ && Above(|v.text| as real, ms, "maxLength"));
    Loud(PatternRule, v, node, path, string_ && PatternFails(v.text, ms));
  }

  lemma NumberOrdered(v: Json, node: Json, path: string)
    requires NodeOk(node) && MatchesType(v, TypeOf(node))
    ensures One(MinimumRule, v, node, path) + One(MaximumRule, v, node, path) ==
      if Numeric(node.members) then NumberViolations(v.number, node.members, path) else []
  {
    hide MatchesType, TypeIs, NodeOk, Below, Above, PatternFails, Numeric, Has, InEnum, JsonEqual, One;
    NodeShape(node);
    KindOfType(v, node);
    NodeBounds(node);
    var ms := node.members;
    var numeric := Numeric(ms);
    Loud(MinimumRule, v, node, path, numeric && Below(Decimals.Value(v.number), ms, "minimum"));
    Loud(MaximumRule, v, node, path, numeric && Above(Decimals.Value(v.number), ms, "maximum"));
  }

  lemma Regroup<T>(b: seq<T>, c: seq<T>, d: seq<T>, e: seq<T>, f: seq<T>, g: seq<T>, h: seq<T>, i: seq<T>,
                   j: seq<T>, k: seq<T>)
    ensures b + (c + (d + (e + (f + (g + (h + (i + (j + k)))))))) ==
      (b + c) + (d + ((e + f) + ((g + (h + i)) + (j + k))))
  {
    var jk := j + k;
    var ghi := g + (h + (i + jk));
    assert g + (h + (i + jk)) == (g + (h + i)) + jk;
    assert e + (f + ghi) == (e + f) + ghi;
    var rest := d + (e + (f + ghi));
    assert b + (c + rest) == (b + c) + rest;
  }

  // Of the four groups at most one has anything to report.
  lemma BodyGroups(v: Json, node: Json, path: string)
    requires NodeOk(node) && MatchesType(v, TypeOf(node))
    ensures One(RequiredRule, v, node, path)
      + ((One(MinItemsRule, v, node, path) + One(MaxItemsRule, v, node, path))
         + ((One(MinLengthRule, v, node, path) + (One(MaxLengthRule, v, node, path) + One(PatternRule, v, node, path)))
            + (One(MinimumRule, v, node, path) + One(MaximumRule, v, node, path)))) == BodyReports(v, node, path)
  {
    NodeShape(node);
    hide *;
    RequiredOrdered(v, node, path);
    ItemsOrdered(v, node, path);
    TextOrdered(v, node, path);
    NumberOrdered(v, node, path);
    TypesExclusive(node.members);
    BodyKinds(v, node, path);
    if TypeIs(node.members, "object") || TypeIs(node.members, "array") {
      Early(One(RequiredRule, v, node, path), One(MinItemsRule, v, node, path) + One(MaxItemsRule, v, node, path));
    } else {
      Late(One(MinLengthRule, v, node, path) + (One(MaxLengthRule, v, node, path) + One(PatternRule, v, node, path)),
           One(MinimumRule, v, node, path) + One(MaximumRule, v, node, path));
    }
  }

  lemma Early<T>(r: seq<T>, i: seq<T>)
    ensures r == [] || i == [] ==> r + (i + ([] + [])) == if r == [] then i else r
  {
    assert i + ([] + []) == i;
  }

  lemma Late<T>(t: seq<T>, n: seq<T>)
    ensures t == [] || n == [] ==> [] + ([] + (t + n)) == if t == [] then n else t
  {
  }

  lemma BodyKinds(v: Json, node: Json, path: string)
    requires NodeOk(node) && MatchesType(v, TypeOf(node))
    ensures var ms := node.members;
      (TypeIs(ms, "object") ==> BodyReports(v, node, path) == MissingRequired(Required(ms), v.members, path))
      && (TypeIs(ms, "array") ==> BodyReports(v, node, path) == ArrayBounds(|v.items|, ms, path))
      && (TypeIs(ms, "string") ==> BodyReports(v, node, path) == TextViolations(v.text, ms, path))
      && (Numeric(ms) ==> BodyReports(v, node, path) == NumberViolations(v.number, ms, path))
      && (!TypeIs(ms, "object") && !TypeIs(ms, "array") && !TypeIs(ms, "string") && !Numeric(ms) ==>
            BodyReports(v, node, path) == [])
  {
    KindOfType(v, node);
    TypesExclusive(node.members);
    hide NodeOk, MatchesType, TypeIs, Numeric, MissingRequired, ArrayBounds, TextViolations, NumberViolations;
  }

  lemma {:induction false} PlaceOrdered(v: Json, node: Json, path: string)
    requires NodeOk(node) && MatchesType(v, TypeOf(node))
    ensures Eleven(v, node, path) == ValueViolations(v, node.members, path) + BodyReports(v, node, path)
  {
    ValueOrdered(v, node, path);
    BodyGroups(v, node, path);
    hide One, NodeOk, MatchesType, ValueViolations, BodyReports;
    Regroup(One(EnumRule, v, node, path), One(ConstRule, v, node, path), One(RequiredRule, v, node, path),
            One(MinItemsRule, v, node, path), One(MaxItemsRule, v, node, path), One(MinLengthRule, v, node, path),
            One(MaxLengthRule, v, node, path), One(PatternRule, v, node, path), One(MinimumRule, v, node, path),
            One(MaximumRule, v, node, path));
  }

  lemma {:induction false} MembersInOrder(ms: seq<Member>, fields: seq<Member>, path: string)
    requires forall i :: 0 <= i < |fields| ==> NodeOk(fields[i].value)
    ensures MemberViolations(ms, fields, path) == Flat(MemberPlaces(ms, fields, path))
    decreases ms, 0
  {
    hide NodeOk, Violations, Places, Reports, Join;
    if ms != [] {
      MembersInOrder(ms[1..], fields, path);
      if Has(fields, ms[0].name) {
        InOrder(ms[0].value, Get(fields, ms[0].name), Join(path, ms[0].name));
        FlatConcat(Places(ms[0].value, Get(fields, ms[0].name), Join(path, ms[0].name)),
                   MemberPlaces(ms[1..], fields, path));
      } else {
        ExtraReports(path);
        FlatConcat([Extra(path)], MemberPlaces(ms[1..], fields, path));
      }
      hide Flat, Has;
    }
  }

  lemma ExtraReports(path: string)
    ensures Flat([Extra(path)]) == [Violation(AdditionalPropertiesRule, path)]
  {
    FlatOne(Extra(path));
  }

  lemma {:induction false} ItemsInOrder(items: seq<Json>, first: nat, node: Json, path: string)
    requires NodeOk(node)
    ensures ItemViolations(items, first, node, path) == Flat(ItemPlaces(items, first, node, path))
    decreases items, 0
  {
    hide NodeOk, Violations, Places, Reports, Join, NatText;
    if items != [] {
      InOrder(items[0], node, Join(path, NatText(first)));
      ItemsInOrder(items[1..], first + 1, node, path);
      FlatConcat(Places(items[0], node, Join(path, NatText(first))), ItemPlaces(items[1..], first + 1, node, path));
    }
  }

  lemma HeldReports(v: Json, node: Json, path: string)
    requires NodeOk(node)
    ensures Flat([Held(v, node, path)]) == Eleven(v, node, path)
  {
    hide NodeOk, Eleven, InRuleOrder;
    FlatOne(Held(v, node, path));
    RulesUnrolled(v, node, path);
  }

  /** The full list of violations is the instance read from front to back: at each place the broken rules in
      their fixed order, required once for each missing name, then the members or items in turn. */
  lemma {:induction false} InOrder(v: Json, node: Json, path: string)
    requires NodeOk(node)
    ensures Violations(v, node, path) == Flat(Places(v, node, path))
    decreases v, 1
  {
    hide NodeOk, MatchesType, Eleven, Flat, MemberPlaces, ItemPlaces, ValueViolations, MemberViolations;
    hide ItemViolations, MissingRequired, ArrayBounds, TextViolations, NumberViolations, TypeIs, Numeric;
    NodeShape(node);
    HeldReports(v, node, path);
    if !MatchesType(v, TypeOf(node)) {
      WrongType(v, node, path);
      assert [Held(v, node, path)] + [] == [Held(v, node, path)];
    } else {
      KindOfType(v, node);
      TypesExclusive(node.members);
      PlaceOrdered(v, node, path);
      if TypeIs(node.members, "object") {
        MembersInOrder(v.members, Fields(node), path);
        FlatConcat([Held(v, node, path)], MemberPlaces(v.members, Fields(node), path));
      } else if TypeIs(node.members, "array") {
        ItemsInOrder(v.items, 0, Items(node), path);
        FlatConcat([Held(v, node, path)], ItemPlaces(v.items, 0, Items(node), path));
      } else {
        assert [Held(v, node, path)] + [] == [Held(v, node, path)];
      }
    }
  }
}
