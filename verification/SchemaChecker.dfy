/** `schema_issues` as it runs: a walk that appends to one bounded issue list. */
module SchemaChecker {
  import opened Json
  import opened Options
  import opened Pointer
  import opened SchemaProfile
  import opened Sorting

  function Kept(issues: seq<Issue>): seq<Issue> {
    if |issues| <= MAX_ERRORS then issues else issues[..MAX_ERRORS]
  }

  lemma KeptThen(a: seq<Issue>, b: seq<Issue>, c: seq<Issue>)
    ensures Kept(Kept(a + b) + c) == Kept(a + (b + c))
  {
    assert a + b + c == a + (b + c);
  }

  lemma KeptAlready(issues: seq<Issue>)
    ensures |issues| <= MAX_ERRORS ==> Kept(issues) == issues
  {
  }

  lemma KeywordIssuesAt(ms: seq<Member>, path: string)
    ensures var (names, all) := (Sort(Unsupported(ms)), KeywordIssues(ms, path));
      |all| == |names| && forall i :: 0 <= i < |names| ==> all[i] == Issue(path, UnsupportedKeyword(names[i].key))
  {
    hide Sort, Unsupported;
  }

  class Checker {
    var issues: seq<Issue>

    constructor ()
      ensures issues == []
    {
      issues := [];
    }

    ghost predicate Valid()
      reads this
    {
      |issues| <= MAX_ERRORS
    }

    method Add(path: string, kind: IssueKind)
      requires Valid()
      modifies this
      ensures Valid() && issues == Kept(old(issues) + [Issue(path, kind)])
    {
      if |issues| < MAX_ERRORS {
        issues := issues + [Issue(path, kind)];
      } else {
        assert (issues + [Issue(path, kind)])[..MAX_ERRORS] == issues;
      }
    }

    method AddUnless(holds: bool, path: string, kind: IssueKind)
      requires Valid()
      modifies this
      ensures Valid() && issues == Kept(old(issues) + Check(holds, path, kind))
    {
      if !holds {
        Add(path, kind);
      } else {
        assert issues + [] == issues;
      }
    }

    method AddUnlessBoth(first: bool, firstKind: IssueKind, second: bool, secondKind: IssueKind, path: string)
      requires Valid()
      modifies this
      ensures Valid()
      ensures issues == Kept(old(issues) + (Check(first, path, firstKind) + Check(second, path, secondKind)))
    {
      hide Check;
      AddUnless(first, path, firstKind);
      AddUnless(second, path, secondKind);
      KeptThen(old(issues), Check(first, path, firstKind), Check(second, path, secondKind));
    }

    method CheckKeywords(ms: seq<Member>, path: string)
      requires Valid()
      modifies this
      ensures Valid() && issues == Kept(old(issues) + KeywordIssues(ms, path))
    {
      hide Sort, Unsupported, Kept, KeywordIssues;
      var names := Sort(Unsupported(ms));
      ghost var all := KeywordIssues(ms, path);
      KeywordIssuesAt(ms, path);
      KeptAlready(issues);
      assert issues + all[..0] == issues;
      for i := 0 to |names|
        invariant Valid()
        invariant issues == Kept(old(issues) + all[..i])
      {
        Add(path, UnsupportedKeyword(names[i].key));
        KeptThen(old(issues), all[..i], [all[i]]);
        assert all[..i + 1] == all[..i] + [all[i]];
      }
      assert all[..|names|] == all;
    }

    method CheckMarkers(ms: seq<Member>, path: string, root: bool)
      requires Valid()
      modifies this
      ensures Valid() && issues == Kept(old(issues) + MarkerIssues(ms, path, root))
    {
      hide Check;
      if root {
        AddUnlessBoth(Lookup(ms, "$schema") == Some(JStr(SCHEMA_URI)), WrongSchemaUri,
                      IdPresent(ms), MissingId, path);
      } else {
        AddUnless(!Has(ms, "$schema") && !Has(ms, "$id"), path, RootOnly);
      }
    }

    method CheckHeader(ms: seq<Member>, path: string)
      requires Valid()
      modifies this
      ensures Valid() && issues == Kept(old(issues) + HeaderIssues(ms, path))
    {
      var title := Has(ms, "title") ==> TextAt(ms, "title");
      var description := Has(ms, "description") ==> TextAt(ms, "description");
      var valid := ValidType(ms);
      var object_ := GroupAllowed(ms, OBJECT_GROUP, TypeIs(ms, "object"));
      var array_ := GroupAllowed(ms, ARRAY_GROUP, TypeIs(ms, "array"));
      var string_ := GroupAllowed(ms, STRING_GROUP, TypeIs(ms, "string"));
      var numeric := GroupAllowed(ms, NUMERIC_GROUP, Numeric(ms));
      hide Check, Kept, Has, TextAt, ValidType, GroupAllowed, TypeIs, Numeric;
      ghost var a := Check(title, path, AnnotationText("title"));
      ghost var b := Check(description, path, AnnotationText("description"));
      ghost var c := Check(valid, path, BadType);
      ghost var d := Check(object_, path, GroupMismatch("object"));
      ghost var e := Check(array_, path, GroupMismatch("array"));
      ghost var f := Check(string_, path, GroupMismatch("string"));
      ghost var g := Check(numeric, path, GroupMismatch("numeric"));
      AddUnlessBoth(title, AnnotationText("title"), description, AnnotationText("description"), path);
      AddUnless(valid, path, BadType);
      KeptThen(old(issues), a + b, c);
      AddUnless(object_, path, GroupMismatch("object"));
      KeptThen(old(issues), a + b + c, d);
      AddUnless(array_, path, GroupMismatch("array"));
      KeptThen(old(issues), a + b + c + d, e);
      AddUnless(string_, path, GroupMismatch("string"));
      KeptThen(old(issues), a + b + c + d + e, f);
      AddUnless(numeric, path, GroupMismatch("numeric"));
      KeptThen(old(issues), a + b + c + d + e + f, g);
    }

    method CheckBounds(ms: seq<Member>, path: string, low: string, high: string)
      requires Valid()
      modifies this
      ensures Valid() && issues == Kept(old(issues) + BoundIssues(ms, path, low, high))
    {
      var lowOk, highOk := Has(ms, low) ==> NaturalAt(ms, low), Has(ms, high) ==> NaturalAt(ms, high);
      var ordered := NaturalAt(ms, low) && NaturalAt(ms, high) ==> BoundsOrdered(ms, low, high);
      hide Check, Kept, Has, NaturalAt, BoundsOrdered;
      AddUnlessBoth(lowOk, NotNatural(low), highOk, NotNatural(high), path);
      AddUnless(ordered, path, CrossedBounds(low));
      KeptThen(old(issues), Check(lowOk, path, NotNatural(low)) + Check(highOk, path, NotNatural(high)),
               Check(ordered, path, CrossedBounds(low)));
    }

    method CheckRequired(ms: seq<Member>, path: string)
      requires Valid()
      modifies this
      ensures Valid() && issues == Kept(old(issues) + RequiredIssues(ms, path))
    {
      if !TextListAt(ms, "required") {
        Add(path, RequiredStrings);
      } else {
        AddUnless(NoRepeats(Required(ms)), path, RequiredRepeats);
      }
    }

    method CheckPattern(ms: seq<Member>, path: string)
      requires Valid()
      modifies this
      ensures Valid() && issues == Kept(old(issues) + PatternIssues(ms, path))
    {
      hide AuditedPattern;
      if !Has(ms, "pattern") {
        assert issues + [] == issues;
      } else if !TextAt(ms, "pattern") {
        Add(path, PatternText);
      } else {
        AddUnless(AuditedPattern(ms), path, PatternUnaudited);
      }
    }

    method CheckNumeric(ms: seq<Member>, path: string)
      requires Valid()
      modifies this
      ensures Valid() && issues == Kept(old(issues) + NumericIssues(ms, path))
    {
      var lowOk := Has(ms, "minimum") ==> NumberAt(ms, "minimum");
      var highOk := Has(ms, "maximum") ==> NumberAt(ms, "maximum");
      var ordered := BoundsOrdered(ms, "minimum", "maximum");
      hide Check, Kept, Has, NumberAt, BoundsOrdered;
      AddUnlessBoth(lowOk, NotNumber("minimum"), highOk, NotNumber("maximum"), path);
      AddUnless(ordered, path, CrossedBounds("minimum"));
      KeptThen(old(issues),
               Check(lowOk, path, NotNumber("minimum")) + Check(highOk, path, NotNumber("maximum")),
               Check(ordered, path, CrossedBounds("minimum")));
    }

    method CheckEnum(ms: seq<Member>, path: string)
      requires Valid()
      modifies this
      ensures Valid() && issues == Kept(old(issues) + EnumIssues(ms, path))
    {
      hide PairwiseDifferent, EnumTyped, ValidType;
      if !Has(ms, "enum") {
        assert issues + [] == issues;
      } else if !EnumShaped(ms) {
        Add(path, EnumShape);
      } else if |Get(ms, "enum").items| > MAX_ENUM_ITEMS {
        Add(path, EnumTooLong);
      } else if !PairwiseDifferent(Get(ms, "enum").items) {
        Add(path, EnumRepeats);
      } else {
        AddUnless(ValidType(ms) ==> EnumTyped(ms), path, EnumType);
      }
    }

    method CheckConst(ms: seq<Member>, path: string)
      requires Valid()
      modifies this
      ensures Valid() && issues == Kept(old(issues) + ConstIssues(ms, path))
    {
      hide Check, ConstTyped, ValidType;
      AddUnlessBoth(Has(ms, "const") && ValidType(ms) ==> ConstTyped(ms), ConstType,
                    !(Has(ms, "enum") && Has(ms, "const")), EnumWithConst, path);
    }

    method Walk(node: Json, path: string, root: bool, depth: nat)
      requires Valid()
      modifies this
      ensures Valid() && issues == Kept(old(issues) + NodeIssues(node, path, root, depth))
      decreases node, 2
    {
      hide KeywordIssues, MarkerIssues, HeaderIssues, BodyIssues, EnumIssues, ConstIssues, Kept;
      if depth > MAX_NESTING_DEPTH {
        Add(path, TooDeep);
        return;
      }
      if !node.JObj? {
        Add(path, NotAnObject);
        return;
      }
      var ms := node.members;
      ghost var a, b, c := KeywordIssues(ms, path), MarkerIssues(ms, path, root), HeaderIssues(ms, path);
      ghost var d, e, f := BodyIssues(node, path, depth), EnumIssues(ms, path), ConstIssues(ms, path);
      CheckKeywords(ms, path);
      CheckMarkers(ms, path, root);
      KeptThen(old(issues), a, b);
      CheckHeader(ms, path);
      KeptThen(old(issues), a + b, c);
      WalkBody(node, path, depth);
      KeptThen(old(issues), a + b + c, d);
      CheckEnum(ms, path);
      KeptThen(old(issues), a + b + c + d, e);
      CheckConst(ms, path);
      KeptThen(old(issues), a + b + c + d + e, f);
    }

    method WalkBody(node: Json, path: string, depth: nat)
      requires Valid() && node.JObj?
      modifies this
      ensures Valid() && issues == Kept(old(issues) + BodyIssues(node, path, depth))
      decreases node, 1
    {
      hide BoundIssues, PatternIssues, NumericIssues, RequiredIssues, ChildIssues, NodeIssues, Check, Kept;
      hide TypeIs, Numeric, RequiredKnown, ClosedObject;
      var ms := node.members;
      if TypeIs(ms, "object") {
        WalkObject(node, path, depth);
      } else if TypeIs(ms, "array") {
        if !Has(ms, "items") {
          Add(path, ItemsMissing);
          CheckBounds(ms, path, "minItems", "maxItems");
          KeptThen(old(issues), [Issue(path, ItemsMissing)], BoundIssues(ms, path, "minItems", "maxItems"));
        } else {
          var item := Get(ms, "items");
          Walk(item, Join(path, "items"), false, depth + 1);
          CheckBounds(ms, path, "minItems", "maxItems");
          KeptThen(old(issues), NodeIssues(item, Join(path, "items"), false, depth + 1),
                   BoundIssues(ms, path, "minItems", "maxItems"));
        }
      } else if TypeIs(ms, "string") {
        CheckBounds(ms, path, "minLength", "maxLength");
        CheckPattern(ms, path);
        KeptThen(old(issues), BoundIssues(ms, path, "minLength", "maxLength"), PatternIssues(ms, path));
      } else if Numeric(ms) {
        CheckNumeric(ms, path);
      } else {
        KeptNothing(issues);
      }
    }

    method WalkObject(node: Json, path: string, depth: nat)
      requires Valid() && node.JObj? && TypeIs(node.members, "object")
      modifies this
      ensures Valid() && issues == Kept(old(issues) + BodyIssues(node, path, depth))
      decreases node, 0
    {
      hide RequiredIssues, ChildIssues, Check, Kept, TypeIs, RequiredKnown, ClosedObject;
      var ms := node.members;
      ghost var a := Check(ObjectAt(ms, "properties"), path, PropertiesObject);
      ghost var b := RequiredIssues(ms, path);
      ghost var c := Check(ClosedObject(ms), path, OpenObject);
      AddUnless(ObjectAt(ms, "properties"), path, PropertiesObject);
      CheckRequired(ms, path);
      KeptThen(old(issues), a, b);
      AddUnless(ClosedObject(ms), path, OpenObject);
      KeptThen(old(issues), a + b, c);
      ghost var d := [];
      if ObjectAt(ms, "properties") {
        var children := Get(ms, "properties").members;
        d := ChildIssues(children, path, depth);
        WalkChildren(children, path, depth);
      } else {
        KeptNothing(issues);
      }
      KeptThen(old(issues), a + b + c, d);
      AddUnless(RequiredKnown(ms), path, RequiredUnknown);
      KeptThen(old(issues), a + b + c + d, Check(RequiredKnown(ms), path, RequiredUnknown));
    }

    method WalkChildren(children: seq<Member>, path: string, depth: nat)
      requires Valid()
      modifies this
      ensures Valid() && issues == Kept(old(issues) + ChildIssues(children, path, depth))
      decreases children, 0
    {
      hide NodeIssues, Kept, Join;
      for i := 0 to |children|
        invariant Valid()
        invariant Kept(issues + ChildIssues(children[i..], path, depth)) ==
                  Kept(old(issues) + ChildIssues(children, path, depth))
      {
        ghost var before := issues;
        var at := Join(path, children[i].name);
        Walk(children[i].value, at, false, depth + 1);
        assert children[i..][1..] == children[i + 1..];
        KeptThen(before, NodeIssues(children[i].value, at, false, depth + 1),
                 ChildIssues(children[i + 1..], path, depth));
      }
      KeptNothing(issues);
    }
  }

  lemma KeptNothing(issues: seq<Issue>)
    requires |issues| <= MAX_ERRORS
    ensures Kept(issues + []) == issues
  {
    assert issues + [] == issues;
  }

  /** `schema_issues`: the first issues in walk order, none exactly for a well-formed schema. */
  method SchemaIssues(schema: Json) returns (issues: seq<Issue>)
    ensures issues == Kept(NodeIssues(schema, "", true, 0))
    ensures |issues| <= 50 && issues <= NodeIssues(schema, "", true, 0)
    ensures |issues| < 50 ==> issues == NodeIssues(schema, "", true, 0)
    ensures issues == [] <==> WellFormedSchema(schema)
  {
    hide NodeIssues, WellFormedSchema;
    var checker := new Checker();
    checker.Walk(schema, "", true, 0);
    issues := checker.issues;
    assert [] + NodeIssues(schema, "", true, 0) == NodeIssues(schema, "", true, 0);
    IssueFreeExact(schema);
  }
}
