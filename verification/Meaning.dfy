/** Schemas with one canonical text mean the same: they report the same violations. */
module Meaning {
  import opened Canonical
  import opened Decimals
  import opened Json
  import opened Pointer
  import opened SchemaProfile
  import opened Text
  import opened Validator

  // A keyword of a group is present only beside the group's type.
  lemma GroupNeedsType(ms: seq<Member>)
    requires GroupsOk(ms)
    ensures Has(ms, "properties") || Has(ms, "required") ==> TypeIs(ms, "object")
    ensures Has(ms, "items") || Has(ms, "minItems") || Has(ms, "maxItems") ==> TypeIs(ms, "array")
    ensures Has(ms, "minLength") || Has(ms, "maxLength") || Has(ms, "pattern") ==> TypeIs(ms, "string")
    ensures Has(ms, "minimum") || Has(ms, "maximum") ==> Numeric(ms)
  {
    assert OBJECT_GROUP[0] == "properties" && OBJECT_GROUP[1] == "required";
    assert ARRAY_GROUP[0] == "items" && ARRAY_GROUP[1] == "minItems" && ARRAY_GROUP[2] == "maxItems";
    assert STRING_GROUP[0] == "minLength" && STRING_GROUP[1] == "maxLength" && STRING_GROUP[2] == "pattern";
    assert NUMERIC_GROUP[0] == "minimum" && NUMERIC_GROUP[1] == "maximum";
    hide TypeIs, Numeric, Has;
  }

  /** The canonicaliser never raises on an issue-free schema. */
  lemma {:induction false} WellFormedEncodable(node: Json)
    requires NodeOk(node) && Unique(node)
    ensures Encodable(node)
    decreases node
  {
    var ms := node.members;
    GroupNeedsType(ms);
    hide TypeIs, AllSupported, HeaderOk, StringKeywordsOk, NumericKeywordsOk;
    forall i | 0 <= i < |ms| ensures EncodableKeyword(ms[i].name, ms[i].value) {
      GetAt(ms, i);
      if ms[i].name == "properties" {
        var ps := ms[i].value.members;
        forall j | 0 <= j < |ps| ensures Encodable(ps[j].value) {
          WellFormedEncodable(ps[j].value);
        }
      } else if ms[i].name == "items" {
        WellFormedEncodable(ms[i].value);
      }
    }
  }

  lemma KeywordMatch(a: Json, b: Json, k: string)
    requires SchemaEquivalent(a, b) && !Annotation(k)
    ensures Has(a.members, k) <==> Has(b.members, k)
    ensures Has(a.members, k) ==> KeywordEquivalent(k, Get(a.members, k), Get(b.members, k))
  {
    if Has(a.members, k) {
      var i := IndexOf(a.members, k);
      assert a.members[i].name == k;
    }
  }

  lemma {:induction false} UniqueKeyword(node: Json, k: string)
    requires Unique(node) && node.JObj? && Has(node.members, k)
    ensures Unique(Get(node.members, k))
  {
    var i := IndexOf(node.members, k);
    assert Unique(node.members[i].value);
  }

  // Keywords compared by value compare alike in both schemas.
  lemma NumberKeyword(a: Json, b: Json, k: string, x: real)
    requires SchemaEquivalent(a, b)
    requires k in ["minItems", "maxItems", "minLength", "maxLength", "minimum", "maximum"]
    requires Has(a.members, k) ==> NumberAt(a.members, k)
    requires Has(b.members, k) ==> NumberAt(b.members, k)
    ensures Below(x, a.members, k) <==> Below(x, b.members, k)
    ensures Above(x, a.members, k) <==> Above(x, b.members, k)
  {
    assert k[0] == 'm';
    KeywordMatch(a, b, k);
  }

  lemma TypeMatch(a: Json, b: Json)
    requires SchemaEquivalent(a, b) && NodeOk(a) && NodeOk(b)
    ensures TypeOf(a) == TypeOf(b)
    ensures forall t :: TypeIs(a.members, t) <==> TypeIs(b.members, t)
  {
    KeywordMatch(a, b, "type");
    hide SchemaEquivalent, BodyOk, EnumConstOk, AllSupported, GroupsOk;
  }

  lemma {:induction false} InEnumEncoded(v: Json, items: seq<Json>)
    requires Unique(v) && Unique(JArr(items))
    ensures InEnum(v, items) <==> Encode(v) in EncodeItems(items)
  {
    hide Encode, JsonEqual;
    forall i | 0 <= i < |items| ensures JsonEqual(v, items[i]) <==> Encode(v) == EncodeItems(items)[i] {
      EncodeExact(v, items[i]);
    }
  }

  lemma {:induction false} EnumMatch(v: Json, a: Json, b: Json)
    requires SchemaEquivalent(a, b) && EnumOk(a.members) && EnumOk(b.members)
    requires Unique(v) && Unique(a) && Unique(b) && Has(a.members, "enum")
    ensures Has(b.members, "enum")
    ensures InEnum(v, Get(a.members, "enum").items) <==> InEnum(v, Get(b.members, "enum").items)
  {
    KeywordMatch(a, b, "enum");
    UniqueKeyword(a, "enum");
    UniqueKeyword(b, "enum");
    var x, y := Get(a.members, "enum").items, Get(b.members, "enum").items;
    InEnumEncoded(v, x);
    InEnumEncoded(v, y);
    RearrangedExact(x, y);
    hide SchemaEquivalent, Encode, EncodeItems, InEnum, Rearranged;
    assert Encode(v) in EncodeItems(x) <==> Encode(v) in multiset(EncodeItems(x));
    assert Encode(v) in EncodeItems(y) <==> Encode(v) in multiset(EncodeItems(y));
  }

  lemma {:induction false} ConstMatch(v: Json, a: Json, b: Json)
    requires SchemaEquivalent(a, b) && Unique(v) && Unique(a) && Unique(b) && Has(a.members, "const")
    ensures Has(b.members, "const")
    ensures JsonEqual(v, Get(a.members, "const")) <==> JsonEqual(v, Get(b.members, "const"))
  {
    KeywordMatch(a, b, "const");
    UniqueKeyword(a, "const");
    UniqueKeyword(b, "const");
    var x, y := Get(a.members, "const"), Get(b.members, "const");
    EncodeExact(x, y);
    EncodeExact(v, x);
    EncodeExact(v, y);
    hide SchemaEquivalent, Encode;
  }

  lemma {:induction false} ValueMatch(v: Json, a: Json, b: Json, path: string)
    requires SchemaEquivalent(a, b) && NodeOk(a) && NodeOk(b) && Unique(v) && Unique(a) && Unique(b)
    ensures ValueViolations(v, a.members, path) == ValueViolations(v, b.members, path)
  {
    KeywordMatch(a, b, "enum");
    KeywordMatch(a, b, "const");
    if Has(a.members, "enum") { EnumMatch(v, a, b); }
    if Has(a.members, "const") { ConstMatch(v, a, b); }
    hide SchemaEquivalent, KeywordEquivalent, InEnum, JsonEqual, HeaderOk, BodyOk, AllSupported;
  }

  // ---- required ----

  lemma MissingHead(names: seq<Json>, ms: seq<Member>, path: string)
    requires AllText(names) && names != []
    ensures AllText(names[1..])
    ensures multiset(MissingRequired(names, ms, path)) ==
      multiset(When(!Has(ms, names[0].text), RequiredRule, path))
      + multiset(MissingRequired(names[1..], ms, path))
  {
    hide When, Has;
  }

  lemma {:induction false} MissingWithout(names: seq<Json>, j: nat, ms: seq<Member>, path: string)
    requires AllText(names) && j < |names|
    ensures AllText(Without(names, j))
    ensures multiset(MissingRequired(names, ms, path)) ==
      multiset(When(!Has(ms, names[j].text), RequiredRule, path))
      + multiset(MissingRequired(Without(names, j), ms, path))
  {
    hide *;
    MissingHead(names, ms, path);
    if j == 0 {
      WithoutHead(names, j);
    } else {
      WithoutHead(names, j);
      MissingWithout(names[1..], j - 1, ms, path);
      MissingHead(Without(names, j), ms, path);
    }
  }

  lemma WithoutHead(names: seq<Json>, j: nat)
    requires AllText(names) && j < |names|
    ensures AllText(Without(names, j)) && AllText(names[1..])
    ensures j == 0 ==> Without(names, j) == names[1..]
    ensures j > 0 ==> Without(names, j) != [] && Without(names, j)[0] == names[0]
    ensures j > 0 ==> names[1..][j - 1] == names[j]
    ensures j > 0 ==> Without(names, j)[1..] == Without(names[1..], j - 1)
  {
  }

  lemma {:induction false} RequiredMatch(a: seq<Json>, b: seq<Json>, ms: seq<Member>, path: string)
    requires AllText(a) && AllText(b) && Rearranged(a, b)
    ensures multiset(MissingRequired(a, ms, path)) == multiset(MissingRequired(b, ms, path))
  {
    if a != [] {
      var j :| 0 <= j < |b| && JsonEqual(a[0], b[j]) && Rearranged(a[1..], Without(b, j));
      MissingWithout(b, j, ms, path);
      RequiredMatch(a[1..], Without(b, j), ms, path);
    }
  }

  // ---- the induction over the instance ----

  lemma {:induction false} FieldMatch(a: Json, b: Json, name: string)
    requires SchemaEquivalent(a, b) && NodeOk(a) && NodeOk(b) && Unique(a) && Unique(b)
    requires TypeIs(a.members, "object") && TypeIs(b.members, "object")
    ensures Has(Fields(a), name) <==> Has(Fields(b), name)
    ensures Has(Fields(a), name) ==>
      SchemaEquivalent(Get(Fields(a), name), Get(Fields(b), name))
      && Unique(Get(Fields(a), name)) && Unique(Get(Fields(b), name))
  {
    KeywordMatch(a, b, "properties");
    UniqueKeyword(a, "properties");
    UniqueKeyword(b, "properties");
    hide NodeOk, SchemaEquivalent, TypeIs;
    var x, y := Get(a.members, "properties"), Get(b.members, "properties");
    if Has(x.members, name) {
      assert x.members[IndexOf(x.members, name)].name == name;
      UniqueKeyword(x, name);
      UniqueKeyword(y, name);
    }
  }

  lemma {:induction false} MembersMatch(ms: seq<Member>, a: Json, b: Json, path: string)
    requires SchemaEquivalent(a, b) && NodeOk(a) && NodeOk(b) && Unique(a) && Unique(b)
    requires TypeIs(a.members, "object") && TypeIs(b.members, "object")
    requires forall i :: 0 <= i < |ms| ==> Unique(ms[i].value)
    ensures multiset(MemberViolations(ms, Fields(a), path)) == multiset(MemberViolations(ms, Fields(b), path))
    decreases ms, 0
  {
    hide SchemaEquivalent, NodeOk, Unique, Violations, TypeIs, Fields;
    if ms != [] {
      FieldMatch(a, b, ms[0].name);
      if Has(Fields(a), ms[0].name) {
        ViolationsMatch(ms[0].value, Get(Fields(a), ms[0].name), Get(Fields(b), ms[0].name),
                        Join(path, ms[0].name));
      }
      MembersMatch(ms[1..], a, b, path);
    }
  }

  lemma {:induction false} ItemsMatch(items: seq<Json>, first: nat, a: Json, b: Json, path: string)
    requires SchemaEquivalent(a, b) && NodeOk(a) && NodeOk(b) && Unique(a) && Unique(b)
    requires forall i :: 0 <= i < |items| ==> Unique(items[i])
    ensures multiset(ItemViolations(items, first, a, path)) == multiset(ItemViolations(items, first, b, path))
    decreases items, 0
  {
    hide SchemaEquivalent, NodeOk, Unique, Violations;
    if items != [] {
      ViolationsMatch(items[0], a, b, Join(path, NatText(first)));
      ItemsMatch(items[1..], first + 1, a, b, path);
    }
  }

  lemma {:induction false} ArrayMatch(v: Json, a: Json, b: Json, path: string)
    requires SchemaEquivalent(a, b) && NodeOk(a) && NodeOk(b) && Unique(v) && Unique(a) && Unique(b)
    requires v.JArr? && TypeIs(a.members, "array") && TypeIs(b.members, "array")
    ensures ArrayBounds(|v.items|, a.members, path) == ArrayBounds(|v.items|, b.members, path)
    ensures SchemaEquivalent(Items(a), Items(b)) && Unique(Items(a)) && Unique(Items(b))
  {
    KeywordMatch(a, b, "items");
    UniqueKeyword(a, "items");
    UniqueKeyword(b, "items");
    NumberKeyword(a, b, "minItems", |v.items| as real);
    NumberKeyword(a, b, "maxItems", |v.items| as real);
    hide NodeOk, Below, Above, TypeIs, Unique, SchemaEquivalent;
  }

  lemma {:induction false} TextMatch(s: string, a: Json, b: Json, path: string)
    requires SchemaEquivalent(a, b) && NodeOk(a) && NodeOk(b)
    requires TypeIs(a.members, "string") && TypeIs(b.members, "string")
    ensures TextViolations(s, a.members, path) == TextViolations(s, b.members, path)
  {
    KeywordMatch(a, b, "pattern");
    NumberKeyword(a, b, "minLength", |s| as real);
    NumberKeyword(a, b, "maxLength", |s| as real);
    hide NodeOk, Below, Above, TypeIs, SchemaEquivalent, MatchesPattern;
  }

  lemma {:induction false} NumberMatch(d: Decimal, a: Json, b: Json, path: string)
    requires SchemaEquivalent(a, b) && NodeOk(a) && NodeOk(b) && Numeric(a.members) && Numeric(b.members)
    ensures NumberViolations(d, a.members, path) == NumberViolations(d, b.members, path)
  {
    NumberKeyword(a, b, "minimum", Value(d));
    NumberKeyword(a, b, "maximum", Value(d));
    hide NodeOk, Below, Above, Numeric, SchemaEquivalent;
  }

  lemma {:induction false} ObjectMatch(v: Json, a: Json, b: Json, path: string)
    requires SchemaEquivalent(a, b) && NodeOk(a) && NodeOk(b) && Unique(v) && Unique(a) && Unique(b)
    requires v.JObj? && TypeIs(a.members, "object") && TypeIs(b.members, "object")
    ensures multiset(MissingRequired(Required(a.members), v.members, path)
                     + MemberViolations(v.members, Fields(a), path)) ==
            multiset(MissingRequired(Required(b.members), v.members, path)
                     + MemberViolations(v.members, Fields(b), path))
    decreases v, 0
  {
    KeywordMatch(a, b, "required");
    MembersMatch(v.members, a, b, path);
    RequiredMatch(Required(a.members), Required(b.members), v.members, path);
    hide NodeOk, TypeIs, SchemaEquivalent, MemberViolations, MissingRequired;
  }

  lemma {:induction false} BodyMatch(v: Json, a: Json, b: Json, path: string)
    requires SchemaEquivalent(a, b) && NodeOk(a) && NodeOk(b) && Unique(v) && Unique(a) && Unique(b)
    requires MatchesType(v, TypeOf(a)) && MatchesType(v, TypeOf(b))
    ensures multiset(BodyViolations(v, a, path)) == multiset(BodyViolations(v, b, path))
    decreases v, 1
  {
    TypeMatch(a, b);
    KindOfType(v, a);
    TypesExclusive(a.members);
    hide NodeOk, MatchesType, TypeIs, SchemaEquivalent, Unique, MissingRequired, MemberViolations, ItemViolations;
    if TypeIs(a.members, "object") {
      ObjectMatch(v, a, b, path);
    } else if TypeIs(a.members, "array") {
      ArrayMatch(v, a, b, path);
      UniqueItems(v);
      ItemsMatch(v.items, 0, Items(a), Items(b), path);
    } else if TypeIs(a.members, "string") {
      TextMatch(v.text, a, b, path);
    } else if Numeric(a.members) {
      NumberMatch(v.number, a, b, path);
    }
  }

  lemma UniqueItems(v: Json)
    requires v.JArr? && Unique(v)
    ensures forall i :: 0 <= i < |v.items| ==> Unique(v.items[i])
  {
  }

  lemma {:induction false} ViolationsMatch(v: Json, a: Json, b: Json, path: string)
    requires SchemaEquivalent(a, b) && NodeOk(a) && NodeOk(b) && Unique(v) && Unique(a) && Unique(b)
    ensures multiset(Violations(v, a, path)) == multiset(Violations(v, b, path))
    decreases v, 2
  {
    TypeMatch(a, b);
    hide NodeOk, MatchesType, SchemaEquivalent, Unique, ValueViolations, BodyViolations;
    if MatchesType(v, TypeOf(a)) {
      ValueMatch(v, a, b, path);
      BodyMatch(v, a, b, path);
    }
  }

  /** Two issue-free schemas of one canonical text accept the same instances, report equally many
      violations, and report the same ones whenever the report is short of its cap. */
  lemma {:induction false} CanonicalTextMeans(a: Json, b: Json, v: Json)
    requires WellFormedSchema(a) && WellFormedSchema(b) && Unique(a) && Unique(b) && Unique(v)
    requires Encodable(a) && Encodable(b) && CanonicalText(a) == CanonicalText(b)
    ensures Conforms(v, a) <==> Conforms(v, b)
    ensures var (x, y) := (Capped(Violations(v, a, "")), Capped(Violations(v, b, "")));
      |x| == |y| && (|x| < 25 ==> multiset(x) == multiset(y))
  {
    hide Violations, Conforms, NodeOk, Placed, SchemaEquivalent, CanonicalText, Unique, Capped;
    CanonicalTextExact(a, b);
    ViolationsMatch(v, a, b, "");
    ViolationsNone(v, a, "");
    ViolationsNone(v, b, "");
    CappedMatch(Violations(v, a, ""), Violations(v, b, ""));
  }

  lemma CappedMatch(s: seq<Violation>, t: seq<Violation>)
    requires multiset(s) == multiset(t)
    ensures s == [] <==> t == []
    ensures |Capped(s)| == |Capped(t)|
    ensures |Capped(s)| < MAX_VIOLATIONS ==> multiset(Capped(s)) == multiset(Capped(t))
  {
    assert |s| == |multiset(s)| == |multiset(t)| == |t|;
  }
}
