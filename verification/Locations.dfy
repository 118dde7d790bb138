/** Where violations point: every reported path is a JSON Pointer into the instance at a value
    that breaks the named rule of the schema node reached by the same path, and vice versa. */
module Locations {
  import opened Json
  import opened Options
  import opened Pointer
  import opened SchemaProfile
  import opened Text
  import opened Validator

  // Follow one path through the instance and the schema together.
  function At(v: Json, node: Json, tokens: seq<string>): (r: Option<(Json, Json)>)
    requires NodeOk(node)
    ensures r.Some? ==> NodeOk(r.value.1)
    decreases tokens
  {
    if tokens == [] then Some((v, node))
    else if !MatchesType(v, TypeOf(node)) then None
    else if TypeIs(node.members, "object") then
      (if Has(v.members, tokens[0]) && Has(Fields(node), tokens[0])
       then At(Get(v.members, tokens[0]), Get(Fields(node), tokens[0]), tokens[1..]) else None)
    else if TypeIs(node.members, "array") then
      (match ArrayIndex(tokens[0])
       case Some(i) => if i < |v.items| then At(v.items[i], Items(node), tokens[1..]) else None
       case None => None)
    else None
  }

  // The enum and const rules, which every value of the right type is held to.
  ghost predicate ValueBreaks(rule: Rule, v: Json, ms: seq<Member>)
    requires EnumOk(ms)
  {
    (rule == EnumRule && Has(ms, "enum") && !InEnum(v, Get(ms, "enum").items))
    || (rule == ConstRule && Has(ms, "const") && !JsonEqual(v, Get(ms, "const")))
  }

  ghost predicate MissesRequired(v: Json, node: Json)
    requires NodeOk(node) && v.JObj?
  {
    exists i | 0 <= i < |Required(node.members)| :: !Has(v.members, Required(node.members)[i].text)
  }

  ghost predicate HasExtra(v: Json, node: Json)
    requires NodeOk(node) && v.JObj? && TypeIs(node.members, "object")
  {
    exists i | 0 <= i < |v.members| :: !Has(Fields(node), v.members[i].name)
  }

  // The rules a value of one kind is held to.
  ghost predicate BodyBreaks(rule: Rule, v: Json, node: Json)
    requires NodeOk(node)
  {
    var ms := node.members;
    match v
    case JObj(_) =>
      TypeIs(ms, "object") &&
      ((rule == RequiredRule && MissesRequired(v, node))
       || (rule == AdditionalPropertiesRule && HasExtra(v, node)))
    case JArr(items) =>
      TypeIs(ms, "array") &&
      ((rule == MinItemsRule && Below(|items| as real, ms, "minItems"))
       || (rule == MaxItemsRule && Above(|items| as real, ms, "maxItems")))
    case JStr(text) =>
      TypeIs(ms, "string") &&
      ((rule == MinLengthRule && Below(|text| as real, ms, "minLength"))
       || (rule == MaxLengthRule && Above(|text| as real, ms, "maxLength"))
       || (rule == PatternRule && PatternFails(text, ms)))
    case JNum(d) =>
      Numeric(ms) &&
      ((rule == MinimumRule && Below(Decimals.Value(d), ms, "minimum"))
       || (rule == MaximumRule && Above(Decimals.Value(d), ms, "maximum")))
    case _ => false
  }

  // The value breaks this rule of the node.
  ghost predicate Breaks(rule: Rule, v: Json, node: Json)
    requires NodeOk(node)
  {
    if !MatchesType(v, TypeOf(node)) then rule == TypeRule
    else ValueBreaks(rule, v, node.members) || BodyBreaks(rule, v, node)
  }

  ghost predicate BreaksAt(rule: Rule, v: Json, node: Json, tokens: seq<string>)
    requires NodeOk(node)
  {
    At(v, node, tokens).Some? && Breaks(rule, At(v, node, tokens).value.0, At(v, node, tokens).value.1)
  }

  // ---- what each part of the walk contributes ----

  lemma {:induction false} InMissingRequired(names: seq<Json>, ms: seq<Member>, path: string, x: Violation)
    requires AllText(names)
    ensures x in MissingRequired(names, ms, path) <==>
      x == Violation(RequiredRule, path) && exists i | 0 <= i < |names| :: !Has(ms, names[i].text)
  {
    if names != [] {
      InMissingRequired(names[1..], ms, path, x);
      assert forall i | 0 < i < |names| :: names[i] == names[1..][i - 1];
    }
  }

  lemma {:induction false} InMemberViolations(ms: seq<Member>, fields: seq<Member>, path: string, x: Violation)
    requires forall i :: 0 <= i < |fields| ==> NodeOk(fields[i].value)
    ensures x in MemberViolations(ms, fields, path) <==>
      exists i | 0 <= i < |ms| :: x in MemberViolation(ms[i], fields, path)
  {
    hide NodeOk, MemberViolation;
    if ms != [] {
      InMemberViolations(ms[1..], fields, path, x);
      assert forall i | 0 < i < |ms| :: ms[i] == ms[1..][i - 1];
    }
  }

  ghost predicate ItemAt(x: Violation, items: seq<Json>, first: nat, node: Json, path: string, i: nat)
    requires NodeOk(node) && i < |items|
  {
    x in Violations(items[i], node, Join(path, NatText(first + i)))
  }

  lemma ItemAtShift(x: Violation, items: seq<Json>, first: nat, node: Json, path: string, i: nat)
    requires NodeOk(node) && 0 < i < |items|
    ensures ItemAt(x, items, first, node, path, i) <==> ItemAt(x, items[1..], first + 1, node, path, i - 1)
  {
    hide NodeOk, Violations, Join, NatText;
    assert items[1..][i - 1] == items[i] && first + 1 + (i - 1) == first + i;
  }

  lemma {:induction false} InItemViolations(items: seq<Json>, first: nat, node: Json, path: string, x: Violation)
    requires NodeOk(node)
    ensures x in ItemViolations(items, first, node, path) <==>
      exists i | 0 <= i < |items| :: ItemAt(x, items, first, node, path, i)
    decreases items
  {
    hide NodeOk, Violations, Join, NatText;
    if items != [] {
      InItemViolations(items[1..], first + 1, node, path, x);
      assert ItemAt(x, items, first, node, path, 0) <==> x in Violations(items[0], node, Join(path, NatText(first)));
      hide ItemAt;
      forall i | 0 < i < |items|
        ensures ItemAt(x, items, first, node, path, i) <==> ItemAt(x, items[1..], first + 1, node, path, i - 1)
      {
        ItemAtShift(x, items, first, node, path, i);
      }
      var tail, next := items[1..], first + 1;
      if j :| 0 <= j < |tail| && ItemAt(x, tail, next, node, path, j) {
        assert ItemAt(x, items, first, node, path, j + 1);
      }
    }
  }

  // A violation of the value itself, at its own path.
  ghost predicate Own(x: Violation, v: Json, node: Json, path: string)
    requires NodeOk(node)
  {
    x.path == path && Breaks(x.rule, v, node)
  }

  // A violation inside the named member or the indexed item.
  ghost predicate InMember(x: Violation, v: Json, node: Json, path: string, i: nat)
    requires NodeOk(node) && TypeIs(node.members, "object") && v.JObj? && i < |v.members|
  {
    Has(Fields(node), v.members[i].name) &&
    x in Violations(v.members[i].value, Get(Fields(node), v.members[i].name), Join(path, v.members[i].name))
  }

  ghost predicate InItem(x: Violation, v: Json, node: Json, path: string, i: nat)
    requires NodeOk(node) && TypeIs(node.members, "array") && v.JArr? && i < |v.items|
  {
    x in Violations(v.items[i], Items(node), Join(path, NatText(i)))
  }

  lemma InValueViolations(x: Violation, v: Json, ms: seq<Member>, path: string)
    requires EnumOk(ms)
    ensures x in ValueViolations(v, ms, path) <==> x.path == path && ValueBreaks(x.rule, v, ms)
  {
    hide EnumOk, InEnum, JsonEqual;
  }

  lemma MembersSplit(x: Violation, v: Json, node: Json, path: string)
    requires NodeOk(node) && v.JObj? && TypeIs(node.members, "object")
    ensures (exists i | 0 <= i < |v.members| :: x in MemberViolation(v.members[i], Fields(node), path)) <==>
      (x == Violation(AdditionalPropertiesRule, path) && HasExtra(v, node))
      || exists i | 0 <= i < |v.members| :: InMember(x, v, node, path, i)
  {
    hide NodeOk, Violations, TypeIs;
    forall i | 0 <= i < |v.members|
      ensures x in MemberViolation(v.members[i], Fields(node), path) <==>
        InMember(x, v, node, path, i) ||
        (!Has(Fields(node), v.members[i].name) && x == Violation(AdditionalPropertiesRule, path))
    {
    }
  }

  lemma ObjectParts(x: Violation, v: Json, node: Json, path: string)
    requires NodeOk(node) && MatchesType(v, TypeOf(node)) && v.JObj? && TypeIs(node.members, "object")
    ensures x in Violations(v, node, path) <==>
      x in ValueViolations(v, node.members, path)
      || x in MissingRequired(Required(node.members), v.members, path)
      || x in MemberViolations(v.members, Fields(node), path)
  {
    hide NodeOk, MatchesType, MissingRequired, MemberViolations, ValueViolations;
  }

  lemma {:induction false} ObjectStep(x: Violation, v: Json, node: Json, path: string)
    requires NodeOk(node) && MatchesType(v, TypeOf(node)) && v.JObj? && TypeIs(node.members, "object")
    ensures x in Violations(v, node, path) <==>
      Own(x, v, node, path) || exists i | 0 <= i < |v.members| :: InMember(x, v, node, path, i)
  {
    var ms := node.members;
    ObjectParts(x, v, node, path);
    InValueViolations(x, v, ms, path);
    InMissingRequired(Required(ms), v.members, path, x);
    InMemberViolations(v.members, Fields(node), path, x);
    MembersSplit(x, v, node, path);
    hide NodeOk, MatchesType, TypeIs, Violations, ValueViolations, MissingRequired, MemberViolations;
    hide ValueBreaks, InMember, HasExtra, MissesRequired;
  }

  lemma ArrayParts(x: Violation, v: Json, node: Json, path: string)
    requires NodeOk(node) && MatchesType(v, TypeOf(node)) && v.JArr? && TypeIs(node.members, "array")
    ensures x in Violations(v, node, path) <==>
      x in ValueViolations(v, node.members, path)
      || x in ArrayBounds(|v.items|, node.members, path)
      || x in ItemViolations(v.items, 0, Items(node), path)
  {
    TypesExclusive(node.members);
    hide NodeOk, MatchesType, TypeIs, ItemViolations, ValueViolations, ArrayBounds;
  }

  lemma InArrayBounds(x: Violation, count: nat, ms: seq<Member>, path: string)
    requires NaturalBounds(ms, "minItems", "maxItems")
    ensures x in ArrayBounds(count, ms, path) <==>
      (x == Violation(MinItemsRule, path) && Below(count as real, ms, "minItems"))
      || (x == Violation(MaxItemsRule, path) && Above(count as real, ms, "maxItems"))
  {
    hide NaturalBounds, NaturalAt, Below, Above;
  }

  lemma ItemsSplit(x: Violation, v: Json, node: Json, path: string)
    requires NodeOk(node) && v.JArr? && TypeIs(node.members, "array")
    ensures x in ItemViolations(v.items, 0, Items(node), path) <==>
      exists i | 0 <= i < |v.items| :: InItem(x, v, node, path, i)
  {
    InItemViolations(v.items, 0, Items(node), path, x);
    hide NodeOk, Violations, ItemViolations, TypeIs, Join, NatText, Items;
    assert forall i | 0 <= i < |v.items| ::
      InItem(x, v, node, path, i) <==> ItemAt(x, v.items, 0, Items(node), path, i);
  }

  lemma {:induction false} ArrayStep(x: Violation, v: Json, node: Json, path: string)
    requires NodeOk(node) && MatchesType(v, TypeOf(node)) && v.JArr? && TypeIs(node.members, "array")
    ensures x in Violations(v, node, path) <==>
      Own(x, v, node, path) || exists i | 0 <= i < |v.items| :: InItem(x, v, node, path, i)
  {
    ArrayParts(x, v, node, path);
    InValueViolations(x, v, node.members, path);
    ItemsSplit(x, v, node, path);
    InArrayBounds(x, |v.items|, node.members, path);
    hide NodeOk, MatchesType, TypeIs, Violations, ValueViolations, ItemViolations, ArrayBounds;
    hide ValueBreaks, Below, Above, InItem, Items;
  }

  lemma TextParts(x: Violation, v: Json, node: Json, path: string)
    requires NodeOk(node) && MatchesType(v, TypeOf(node)) && v.JStr? && TypeIs(node.members, "string")
    ensures x in Violations(v, node, path) <==>
      x in ValueViolations(v, node.members, path) || x in TextViolations(v.text, node.members, path)
  {
    TypesExclusive(node.members);
    hide NodeOk, MatchesType, TypeIs, Numeric, ValueViolations, TextViolations;
  }

  lemma InTextViolations(x: Violation, s: string, ms: seq<Member>, path: string)
    requires StringKeywordsOk(ms)
    ensures x in TextViolations(s, ms, path) <==>
      (x == Violation(MinLengthRule, path) && Below(|s| as real, ms, "minLength"))
      || (x == Violation(MaxLengthRule, path) && Above(|s| as real, ms, "maxLength"))
      || (x == Violation(PatternRule, path) && PatternFails(s, ms))
  {
    hide StringKeywordsOk, NaturalBounds, Below, Above, PatternFails;
  }

  lemma {:induction false} TextStep(x: Violation, v: Json, node: Json, path: string)
    requires NodeOk(node) && MatchesType(v, TypeOf(node)) && v.JStr? && TypeIs(node.members, "string")
    ensures x in Violations(v, node, path) <==> Own(x, v, node, path)
  {
    TextParts(x, v, node, path);
    InValueViolations(x, v, node.members, path);
    InTextViolations(x, v.text, node.members, path);
    hide NodeOk, MatchesType, TypeIs, Violations, ValueViolations, TextViolations;
    hide ValueBreaks, Below, Above, PatternFails;
  }

  lemma NumberParts(x: Violation, v: Json, node: Json, path: string)
    requires NodeOk(node) && MatchesType(v, TypeOf(node)) && v.JNum? && Numeric(node.members)
    ensures x in Violations(v, node, path) <==>
      x in ValueViolations(v, node.members, path) || x in NumberViolations(v.number, node.members, path)
  {
    TypesExclusive(node.members);
    hide NodeOk, MatchesType, TypeIs, Numeric, ValueViolations, NumberViolations;
  }

  lemma {:induction false} NumberStep(x: Violation, v: Json, node: Json, path: string)
    requires NodeOk(node) && MatchesType(v, TypeOf(node)) && v.JNum? && Numeric(node.members)
    ensures x in Violations(v, node, path) <==> Own(x, v, node, path)
  {
    NumberParts(x, v, node, path);
    InValueViolations(x, v, node.members, path);
    hide NodeOk, MatchesType, Numeric, Violations, ValueViolations;
    hide ValueBreaks, Below, Above;
  }

  lemma {:induction false} ScalarStep(x: Violation, v: Json, node: Json, path: string)
    requires NodeOk(node) && MatchesType(v, TypeOf(node)) && !v.JObj? && !v.JArr?
    ensures x in Violations(v, node, path) <==> Own(x, v, node, path)
  {
    KindOfType(v, node);
    if v.JStr? {
      TextStep(x, v, node, path);
    } else if v.JNum? {
      NumberStep(x, v, node, path);
    } else {
      InValueViolations(x, v, node.members, path);
      hide NodeOk, MatchesType, TypeIs, Numeric, ValueViolations, InEnum;
    }
  }

  // ---- both directions along a path ----

  /** Completeness: whatever breaks a rule at some path is reported there. */
  lemma {:induction false} Reported(rule: Rule, v: Json, node: Json, tokens: seq<string>, path: string)
    requires NodeOk(node) && Unique(v) && BreaksAt(rule, v, node, tokens)
    ensures Violation(rule, Render(path, tokens)) in Violations(v, node, path)
    decreases tokens
  {
    var x := Violation(rule, Render(path, tokens));
    if tokens == [] {
      if MatchesType(v, TypeOf(node)) {
        ReportedHere(x, v, node, path);
      }
    } else {
      var t, rest := tokens[0], tokens[1..];
      KindOfType(v, node);
      if v.JObj? {
        var i := IndexOf(v.members, t);
        Reported(rule, v.members[i].value, Get(Fields(node), t), rest, Join(path, t));
        ObjectStep(x, v, node, path);
        assert InMember(x, v, node, path, i);
      } else {
        var i := ArrayIndex(t).value;
        IndexTextUnique(t);
        Reported(rule, v.items[i], Items(node), rest, Join(path, t));
        ArrayStep(x, v, node, path);
        assert InItem(x, v, node, path, i);
      }
    }
  }

  lemma ReportedHere(x: Violation, v: Json, node: Json, path: string)
    requires NodeOk(node) && MatchesType(v, TypeOf(node)) && Own(x, v, node, path)
    ensures x in Violations(v, node, path)
  {
    KindOfType(v, node);
    if v.JObj? {
      ObjectStep(x, v, node, path);
    } else if v.JArr? {
      ArrayStep(x, v, node, path);
    } else {
      ScalarStep(x, v, node, path);
    }
  }

  lemma NatTextStep(n: nat, d: nat)
    requires n > 0 && d < 10
    ensures NatText(n * 10 + d) == NatText(n) + [DigitChar(d)]
  {
    assert (n * 10 + d) / 10 == n && (n * 10 + d) % 10 == d;
  }

  // An array index text is the one Python prints for that index.
  lemma {:induction false} IndexTextUnique(t: string)
    requires ArrayIndex(t).Some?
    ensures NatText(ArrayIndex(t).value) == t
  {
    if |t| > 1 {
      var front, last := t[..|t| - 1], t[|t| - 1];
      assert front[0] == t[0];
      IndexTextUnique(front);
      IndexPositive(front);
      hide NatText;
      var d := last as int - '0' as int;
      assert ReadNat(t) == ReadNat(front) * 10 + d;
      NatTextStep(ReadNat(front), d);
      assert last == DigitChar(d) && t == front + [last];
    } else {
      assert t[..0] == "" && t == [t[0]];
    }
  }

  lemma {:induction false} IndexPositive(t: string)
    requires t != "" && t[0] != '0' && forall i :: 0 <= i < |t| ==> '0' <= t[i] <= '9'
    ensures ReadNat(t) > 0
  {
    if |t| > 1 {
      IndexPositive(t[..|t| - 1]);
    } else {
      assert t[..0] == "";
    }
  }

  lemma TypeStep(x: Violation, v: Json, node: Json, path: string)
    requires NodeOk(node) && !MatchesType(v, TypeOf(node))
    ensures x in Violations(v, node, path) <==> Own(x, v, node, path)
  {
    hide NodeOk, MatchesType;
  }

  /** Soundness: whatever is reported breaks its rule at its path. */
  lemma {:induction false} Found(x: Violation, v: Json, node: Json, path: string) returns (tokens: seq<string>)
    requires NodeOk(node) && Unique(v) && x in Violations(v, node, path)
    ensures x.path == Render(path, tokens) && BreaksAt(x.rule, v, node, tokens)
    decreases v
  {
    tokens := [];
    hide Violations, Breaks, AllSupported, HeaderOk, EnumConstOk;
    if !MatchesType(v, TypeOf(node)) {
      TypeStep(x, v, node, path);
    } else if !Own(x, v, node, path) {
      KindOfType(v, node);
      if v.JObj? {
        ObjectStep(x, v, node, path);
        var i :| 0 <= i < |v.members| && InMember(x, v, node, path, i);
        var name := v.members[i].name;
        GetAt(v.members, i);
        var rest := Found(x, v.members[i].value, Get(Fields(node), name), Join(path, name));
        tokens := [name] + rest;
        assert tokens[1..] == rest;
      } else if v.JArr? {
        TypesExclusive(node.members);
        ArrayStep(x, v, node, path);
        var i :| 0 <= i < |v.items| && InItem(x, v, node, path, i);
        ArrayIndexText(i);
        var rest := Found(x, v.items[i], Items(node), Join(path, NatText(i)));
        tokens := [NatText(i)] + rest;
        assert tokens[1..] == rest;
      } else {
        ScalarStep(x, v, node, path);
      }
    }
  }

  // The shared path resolves in the instance by RFC 6901 section 4 to the value it names.
  lemma {:induction false} AtEvaluates(v: Json, node: Json, tokens: seq<string>)
    requires NodeOk(node) && At(v, node, tokens).Some?
    ensures Evaluate(v, tokens) == Some(At(v, node, tokens).value.0)
    decreases tokens
  {
    if tokens != [] {
      KindOfType(v, node);
      TypesExclusive(node.members);
      if v.JObj? {
        AtEvaluates(Get(v.members, tokens[0]), Get(Fields(node), tokens[0]), tokens[1..]);
      } else {
        AtEvaluates(v.items[ArrayIndex(tokens[0]).value], Items(node), tokens[1..]);
      }
    }
  }

  /** The report is exact: a rule is reported at a path exactly when the path's tokens lead,
      through instance and schema together, to a value that breaks the rule of its node. */
  lemma {:induction false} ReportExact(rule: Rule, path: string, instance: Json, schema: Json)
    requires NodeOk(schema) && Unique(instance)
    ensures Violation(rule, path) in Violations(instance, schema, "") <==>
      exists tokens :: path == Render("", tokens) && BreaksAt(rule, instance, schema, tokens)
  {
    if Violation(rule, path) in Violations(instance, schema, "") {
      var tokens := Found(Violation(rule, path), instance, schema, "");
    }
    if tokens :| path == Render("", tokens) && BreaksAt(rule, instance, schema, tokens) {
      Reported(rule, instance, schema, tokens, "");
    }
  }

  /** Every reported path parses as a JSON Pointer, resolves inside the instance, and the value
      there breaks the rule of the schema node found by the same tokens. */
  lemma {:induction false} ReportedPathsResolve(x: Violation, instance: Json, schema: Json)
    requires NodeOk(schema) && Unique(instance)
    requires x in Violations(instance, schema, "")
    ensures Parse(x.path).Some?
    ensures Evaluate(instance, Parse(x.path).value).Some?
    ensures BreaksAt(x.rule, instance, schema, Parse(x.path).value)
    ensures At(instance, schema, Parse(x.path).value).value.0 == Evaluate(instance, Parse(x.path).value).value
  {
    var tokens := Found(x, instance, schema, "");
    ParseRender(tokens);
    AtEvaluates(instance, schema, tokens);
  }
}
