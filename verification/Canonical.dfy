/** The canonical form behind `schema_validation_fingerprint`, compared before hashing. */
module Canonical {
  import opened Decimals
  import opened Json
  import opened JsonText
  import opened Options
  import opened Sorting

  type Entries = seq<Keyed<Tree>>

  function Tagged(tag: string, rest: seq<Tree>): Tree { List([Text(tag)] + rest) }

  function Pair(entry: Keyed<Tree>): Tree { List([Text(entry.key), entry.value]) }

  // ["object", [[name, child], ...]] in sorted name order
  function ObjectTree(entries: Entries): Tree {
    var sorted := Sort(entries);
    Tagged("object", [List(seq(|sorted|, i requires 0 <= i < |sorted| => Pair(sorted[i])))])
  }

  // ["array", items] with the items sorted by their JSON text
  function UnorderedTree(items: seq<Tree>): Tree {
    var sorted := Sort(seq(|items|, i requires 0 <= i < |items| => Keyed(Write(items[i]), items[i])));
    Tagged("array", [List(seq(|sorted|, i requires 0 <= i < |sorted| => sorted[i].value))])
  }

  // `encode(value)`
  function Encode(v: Json): Tree
    decreases v
  {
    match v
    case JObj(ms) => ObjectTree(MemberEntries(ms))
    case JArr(items) => Tagged("array", [List(EncodeItems(items))])
    case JStr(s) => Tagged("string", [Text(s)])
    case JBool(b) => Tagged("boolean", [Flag(b)])
    case JNum(d) => Tagged("number", [Text(NumberKey(d))])
    case JNull => Tagged("null", [])
  }

  function EncodeItems(items: seq<Json>): (r: seq<Tree>)
    ensures |r| == |items|
    ensures forall i :: 0 <= i < |items| ==> r[i] == Encode(items[i])
    decreases items
  {
    seq(|items|, i requires 0 <= i < |items| => Encode(items[i]))
  }

  function MemberEntries(ms: seq<Member>): (r: Entries)
    ensures |r| == |ms|
    ensures forall i :: 0 <= i < |ms| ==> r[i] == Keyed(ms[i].name, Encode(ms[i].value))
    decreases ms
  {
    seq(|ms|, i requires 0 <= i < |ms| => Keyed(ms[i].name, Encode(ms[i].value)))
  }

  predicate Annotation(name: string) { name == "title" || name == "description" }

  predicate UnorderedKeyword(name: string) { name == "required" || name == "enum" }

  // The shapes `encode(..., schema_node=True)` iterates over without raising.
  predicate Encodable(node: Json)
    decreases node, 0
  {
    node.JObj? && forall i | 0 <= i < |node.members| ::
      EncodableKeyword(node.members[i].name, node.members[i].value)
  }

  predicate EncodableKeyword(name: string, v: Json)
    decreases v, 1
  {
    if name == "properties" then
      v.JObj? && forall i | 0 <= i < |v.members| :: Encodable(v.members[i].value)
    else if name == "items" then Encodable(v)
    else UnorderedKeyword(name) ==> v.JArr?
  }

  predicate EncodableMembers(ms: seq<Member>) {
    forall i :: 0 <= i < |ms| ==> EncodableKeyword(ms[i].name, ms[i].value)
  }

  predicate EncodableProperties(ms: seq<Member>) {
    forall i :: 0 <= i < |ms| ==> Encodable(ms[i].value)
  }

  // `encode(node, schema_node=True)`
  function EncodeNode(node: Json): Tree
    requires Encodable(node)
    decreases node, 1
  {
    ObjectTree(NodeEntries(node.members))
  }

  function NodeEntries(ms: seq<Member>): Entries
    requires EncodableMembers(ms)
    decreases ms, 0
  {
    if ms == [] then []
    else
      (if Annotation(ms[0].name) then []
       else [Keyed(ms[0].name, EncodeKeyword(ms[0].name, ms[0].value))])
      + NodeEntries(ms[1..])
  }

  function PropertyEntries(ms: seq<Member>): (r: Entries)
    requires EncodableProperties(ms)
    ensures |r| == |ms|
    ensures forall i :: 0 <= i < |ms| ==> r[i] == Keyed(ms[i].name, EncodeNode(ms[i].value))
    decreases ms, 0
  {
    seq(|ms|, i requires 0 <= i < |ms| => Keyed(ms[i].name, EncodeNode(ms[i].value)))
  }

  function EncodeKeyword(name: string, v: Json): Tree
    requires EncodableKeyword(name, v)
    decreases v, 2
  {
    if name == "properties" then ObjectTree(PropertyEntries(v.members))
    else if name == "items" then EncodeNode(v)
    else if UnorderedKeyword(name) then UnorderedTree(EncodeItems(v.items))
    else Encode(v)
  }

  // The text that is hashed.
  function CanonicalText(schema: Json): string
    requires Encodable(schema)
  {
    Write(EncodeNode(schema))
  }

  // ---- what may differ between schemas of one canonical form ----

  // One list becomes the other by taking matching elements out one at a time.
  ghost predicate Rearranged(a: seq<Json>, b: seq<Json>) {
    if a == [] then b == []
    else exists j :: 0 <= j < |b| && JsonEqual(a[0], b[j]) && Rearranged(a[1..], Without(b, j))
  }

  function Without<T>(s: seq<T>, j: nat): (r: seq<T>)
    requires j < |s|
    ensures |r| == |s| - 1
    ensures forall i :: 0 <= i < |r| ==> r[i] == s[if i < j then i else i + 1]
  {
    s[..j] + s[j + 1..]
  }

  ghost predicate SchemaEquivalent(a: Json, b: Json)
    decreases a, 0
  {
    a.JObj? && b.JObj?
    && (forall name :: name != "title" && name != "description" ==>
          (Has(a.members, name) <==> Has(b.members, name)))
    && forall i | 0 <= i < |a.members| ::
         a.members[i].name != "title" && a.members[i].name != "description" ==>
           Has(b.members, a.members[i].name) &&
           KeywordEquivalent(a.members[i].name, a.members[i].value, Get(b.members, a.members[i].name))
  }

  ghost predicate KeywordEquivalent(name: string, x: Json, y: Json)
    decreases x, 1
  {
    if name == "properties" then
      x.JObj? && y.JObj?
      && (forall p :: Has(x.members, p) <==> Has(y.members, p))
      && forall i | 0 <= i < |x.members| ::
           Has(y.members, x.members[i].name) &&
           SchemaEquivalent(x.members[i].value, Get(y.members, x.members[i].name))
    else if name == "items" then SchemaEquivalent(x, y)
    else if name == "required" || name == "enum" then x.JArr? && y.JArr? && Rearranged(x.items, y.items)
    else JsonEqual(x, y)
  }

  // ---- plain values ----

  lemma TaggedInjective(s: string, a: seq<Tree>, t: string, b: seq<Tree>)
    ensures Tagged(s, a) == Tagged(t, b) <==> s == t && a == b
  {
    if Tagged(s, a) == Tagged(t, b) {
      var x, y := [Text(s)] + a, [Text(t)] + b;
      assert x[0] == y[0] && x[1..] == a && y[1..] == b;
    }
  }

  lemma ObjectTreeInjective(a: Entries, b: Entries)
    ensures ObjectTree(a) == ObjectTree(b) <==> Sort(a) == Sort(b)
  {
    var s, t := Sort(a), Sort(b);
    var x := seq(|s|, i requires 0 <= i < |s| => Pair(s[i]));
    var y := seq(|t|, i requires 0 <= i < |t| => Pair(t[i]));
    TaggedInjective("object", [List(x)], "object", [List(y)]);
    if ObjectTree(a) == ObjectTree(b) {
      assert [List(x)][0] == [List(y)][0];
      forall i | 0 <= i < |s| ensures s[i] == t[i] {
        assert x[i] == y[i];
        assert x[i].items[0] == y[i].items[0] && x[i].items[1] == y[i].items[1];
      }
    }
  }

  /** Objects encode alike exactly when they have the same names and alike children. */
  lemma {:induction false} ObjectTreeExact(a: Entries, b: Entries)
    requires DistinctKeys(a) && DistinctKeys(b)
    ensures ObjectTree(a) == ObjectTree(b) <==> Within(a, b) && Within(b, a)
  {
    ObjectTreeInjective(a, b);
    SortDistinct(a, b);
  }

  ghost predicate Within(a: Entries, b: Entries) { forall e :: e in a ==> e in b }

  // Every member of a has an alike-encoded namesake in b.
  ghost predicate AlikeIn(a: seq<Member>, b: seq<Member>) {
    forall i :: 0 <= i < |a| ==>
      Has(b, a[i].name) && Encode(a[i].value) == Encode(Get(b, a[i].name))
  }

  lemma {:induction false} MembersWithin(a: seq<Member>, b: seq<Member>)
    requires DistinctNames(b)
    ensures Within(MemberEntries(a), MemberEntries(b)) <==> AlikeIn(a, b)
  {
    var x, y := MemberEntries(a), MemberEntries(b);
    if Within(x, y) {
      forall i | 0 <= i < |a|
        ensures Has(b, a[i].name) && Encode(a[i].value) == Encode(Get(b, a[i].name))
      {
        assert x[i] in y;
        var j :| 0 <= j < |y| && y[j] == x[i];
        GetAt(b, j);
      }
    }
    if AlikeIn(a, b) {
      forall e | e in x ensures e in y {
        var i :| 0 <= i < |x| && x[i] == e;
        assert y[IndexOf(b, a[i].name)] == e;
      }
    }
  }

  lemma AlikeSymmetric(a: seq<Member>, b: seq<Member>)
    requires DistinctNames(b) && AlikeIn(a, b)
    requires forall name :: Has(b, name) ==> Has(a, name)
    ensures AlikeIn(b, a)
  {
    forall j | 0 <= j < |b|
      ensures Has(a, b[j].name) && Encode(b[j].value) == Encode(Get(a, b[j].name))
    {
      assert Has(b, b[j].name);
      var i := IndexOf(a, b[j].name);
      GetAt(b, j);
      assert Encode(a[i].value) == Encode(Get(b, a[i].name));
    }
  }

  lemma NamesEqual(a: seq<Member>, b: seq<Member>)
    ensures Names(a) == Names(b) <==> (forall name :: Has(a, name) <==> Has(b, name))
  {
    forall name ensures name in Names(a) <==> Has(a, name) { NamesHas(a, name); }
    forall name ensures name in Names(b) <==> Has(b, name) { NamesHas(b, name); }
  }

  lemma {:induction false} MemberTreesExact(a: seq<Member>, b: seq<Member>)
    requires DistinctNames(a) && DistinctNames(b)
    ensures ObjectTree(MemberEntries(a)) == ObjectTree(MemberEntries(b)) <==>
      (forall name :: Has(a, name) <==> Has(b, name)) && AlikeIn(a, b)
  {
    ObjectTreeExact(MemberEntries(a), MemberEntries(b));
    MembersWithin(a, b);
    MembersWithin(b, a);
    if AlikeIn(a, b) && AlikeIn(b, a) {
      forall name ensures Has(a, name) <==> Has(b, name) {
        if Has(b, name) { assert b[IndexOf(b, name)].name == name; }
        if Has(a, name) { assert a[IndexOf(a, name)].name == name; }
      }
    }
    if AlikeIn(a, b) && forall name :: Has(a, name) <==> Has(b, name) {
      AlikeSymmetric(a, b);
    }
  }

  /** `encode(a) == encode(b)` exactly when `json_equal(a, b)`. */
  lemma {:induction false} EncodeExact(a: Json, b: Json)
    requires Unique(a) && Unique(b)
    ensures Encode(a) == Encode(b) <==> JsonEqual(a, b)
    decreases a
  {
    match (a, b)
    case (JNum(x), JNum(y)) =>
      NumberKeyExact(x, y);
      TaggedInjective("number", [Text(NumberKey(x))], "number", [Text(NumberKey(y))]);
      assert Encode(a) == Encode(b) ==> [Text(NumberKey(x))][0] == [Text(NumberKey(y))][0];
    case (JStr(x), JStr(y)) =>
      TaggedInjective("string", [Text(x)], "string", [Text(y)]);
      assert Encode(a) == Encode(b) ==> [Text(x)][0] == [Text(y)][0];
    case (JBool(x), JBool(y)) =>
      TaggedInjective("boolean", [Flag(x)], "boolean", [Flag(y)]);
      assert Encode(a) == Encode(b) ==> [Flag(x)][0] == [Flag(y)][0];
    case (JNull, JNull) =>
    case (JArr(x), JArr(y)) => EncodeItemsExact(x, y);
    case (JObj(x), JObj(y)) =>
      forall i, j | 0 <= i < |x| && 0 <= j < |y|
        ensures Encode(x[i].value) == Encode(y[j].value) <==> JsonEqual(x[i].value, y[j].value)
      {
        EncodeExact(x[i].value, y[j].value);
      }
      MemberTreesExact(x, y);
      NamesEqual(x, y);
    case _ => EncodeKinds(a, b);
  }

  lemma {:induction false} EncodeItemsExact(x: seq<Json>, y: seq<Json>)
    requires Unique(JArr(x)) && Unique(JArr(y))
    ensures Encode(JArr(x)) == Encode(JArr(y)) <==> JsonEqual(JArr(x), JArr(y))
    decreases JArr(x), 0
  {
    var s, t := EncodeItems(x), EncodeItems(y);
    TaggedInjective("array", [List(s)], "array", [List(t)]);
    assert [List(s)] == [List(t)] <==> s == t by {
      assert [List(s)][0] == List(s) && [List(t)][0] == List(t);
    }
    if |x| == |y| {
      forall i | 0 <= i < |x| ensures s[i] == t[i] <==> JsonEqual(x[i], y[i]) {
        EncodeExact(x[i], y[i]);
      }
    }
  }

  function Tag(v: Json): string {
    match v
    case JObj(_) => "object"
    case JArr(_) => "array"
    case JStr(_) => "string"
    case JBool(_) => "boolean"
    case JNum(_) => "number"
    case JNull => "null"
  }

  // Values of different kinds have different canonical forms.
  lemma EncodeKinds(a: Json, b: Json)
    requires Tag(a) != Tag(b)
    ensures Encode(a) != Encode(b) && !JsonEqual(a, b)
  {
    var x, y := Encode(a), Encode(b);
    assert x.List? && y.List? && x.items[0] == Text(Tag(a)) && y.items[0] == Text(Tag(b));
  }

  // ---- unordered lists ----

  function Keys(items: seq<Tree>): (r: Entries)
    ensures |r| == |items|
    ensures forall i :: 0 <= i < |items| ==> r[i] == Keyed(Write(items[i]), items[i])
  {
    seq(|items|, i requires 0 <= i < |items| => Keyed(Write(items[i]), items[i]))
  }

  lemma {:induction false} KeysCount(items: seq<Tree>, t: Tree)
    ensures multiset(Keys(items))[Keyed(Write(t), t)] == multiset(items)[t]
  {
    hide Keys, Write;
    if items != [] {
      assert items == [items[0]] + items[1..];
      assert Keys(items) == [Keyed(Write(items[0]), items[0])] + Keys(items[1..]);
      KeysCount(items[1..], t);
    }
  }

  lemma {:induction false} KeysMultiset(a: seq<Tree>, b: seq<Tree>)
    ensures multiset(Keys(a)) == multiset(Keys(b)) <==> multiset(a) == multiset(b)
  {
    forall t ensures multiset(Keys(a))[Keyed(Write(t), t)] == multiset(a)[t]
             ensures multiset(Keys(b))[Keyed(Write(t), t)] == multiset(b)[t] {
      KeysCount(a, t);
      KeysCount(b, t);
    }
    if multiset(Keys(a)) == multiset(Keys(b)) {
      forall t ensures multiset(a)[t] == multiset(b)[t] {
        assert multiset(Keys(a))[Keyed(Write(t), t)] == multiset(Keys(b))[Keyed(Write(t), t)];
      }
    }
    if multiset(a) == multiset(b) {
      forall e ensures multiset(Keys(a))[e] == multiset(Keys(b))[e] {
        if e != Keyed(Write(e.value), e.value) {
          assert e !in Keys(a) && e !in Keys(b);
        }
      }
    }
  }

  // Sorted by its text, a list of trees still shows every key as the text of its value.
  lemma {:induction false} SortedKeys(items: seq<Tree>)
    ensures forall i :: 0 <= i < |Sort(Keys(items))| ==>
      Sort(Keys(items))[i].key == Write(Sort(Keys(items))[i].value)
  {
    var s := Sort(Keys(items));
    SortSorts(Keys(items));
    forall i | 0 <= i < |s| ensures s[i].key == Write(s[i].value) {
      assert s[i] in multiset(Keys(items));
    }
  }

  /** An unordered list encodes to its multiset of encoded items, no more and no less. */
  lemma {:induction false} UnorderedExact(a: seq<Tree>, b: seq<Tree>)
    ensures UnorderedTree(a) == UnorderedTree(b) <==> multiset(a) == multiset(b)
  {
    var s, t := Sort(Keys(a)), Sort(Keys(b));
    forall i, j | 0 <= i < |a| && 0 <= j < |a| && Keys(a)[i].key == Keys(a)[j].key
      ensures Keys(a)[i] == Keys(a)[j]
    {
      WriteInjective(a[i], a[j]);
    }
    SortCanonical(Keys(a), Keys(b));
    KeysMultiset(a, b);
    var x := seq(|s|, i requires 0 <= i < |s| => s[i].value);
    var y := seq(|t|, i requires 0 <= i < |t| => t[i].value);
    assert UnorderedTree(a) == Tagged("array", [List(x)]);
    assert UnorderedTree(b) == Tagged("array", [List(y)]);
    TaggedInjective("array", [List(x)], "array", [List(y)]);
    assert [List(x)] == [List(y)] <==> x == y by {
      assert [List(x)][0] == List(x) && [List(y)][0] == List(y);
    }
    SortedKeys(a);
    SortedKeys(b);
    if x == y {
      forall i | 0 <= i < |s| ensures s[i] == t[i] {
        assert x[i] == y[i];
      }
    }
  }

  lemma RemoveOne<T>(s: seq<T>, j: nat)
    requires j < |s|
    ensures multiset(s) == multiset{s[j]} + multiset(Without(s, j))
  {
    assert s == s[..j] + [s[j]] + s[j + 1..];
  }

  lemma EncodeWithout(b: seq<Json>, j: nat)
    requires j < |b|
    ensures EncodeItems(Without(b, j)) == Without(EncodeItems(b), j)
  {
    hide EncodeItems, Encode, Without;
    var x, y := EncodeItems(Without(b, j)), Without(EncodeItems(b), j);
    forall i | 0 <= i < |x| ensures x[i] == y[i] {
      var k := if i < j then i else i + 1;
      assert Without(b, j)[i] == b[k] && y[i] == EncodeItems(b)[k];
    }
  }

  lemma TakeOut<T>(s: seq<T>, t: seq<T>)
    requires s != []
    ensures multiset(s) == multiset(t) <==>
      exists j :: 0 <= j < |t| && s[0] == t[j] && multiset(s[1..]) == multiset(Without(t, j))
  {
    RemoveOne(s, 0);
    assert Without(s, 0) == s[1..];
    if multiset(s) == multiset(t) {
      assert s[0] in multiset(t);
      var j :| 0 <= j < |t| && t[j] == s[0];
      RemoveOne(t, j);
      assert multiset(s[1..]) == multiset(s) - multiset{s[0]};
      assert multiset(Without(t, j)) == multiset(t) - multiset{t[j]};
    }
    if j :| 0 <= j < |t| && s[0] == t[j] && multiset(s[1..]) == multiset(Without(t, j)) {
      RemoveOne(t, j);
    }
  }

  /** Rearranging up to `json_equal` is equality of the multisets of encoded items. */
  lemma {:induction false} RearrangedExact(a: seq<Json>, b: seq<Json>)
    requires Unique(JArr(a)) && Unique(JArr(b))
    ensures Rearranged(a, b) <==> multiset(EncodeItems(a)) == multiset(EncodeItems(b))
  {
    var s, t := EncodeItems(a), EncodeItems(b);
    if a == [] {
      assert |multiset(s)| == |s| && |multiset(t)| == |t|;
    } else {
      TakeOut(s, t);
      assert s[1..] == EncodeItems(a[1..]);
      forall j | 0 <= j < |b|
        ensures JsonEqual(a[0], b[j]) && Rearranged(a[1..], Without(b, j)) <==>
                s[0] == t[j] && multiset(s[1..]) == multiset(Without(t, j))
      {
        EncodeExact(a[0], b[j]);
        RearrangedExact(a[1..], Without(b, j));
        EncodeWithout(b, j);
      }
    }
  }

  // ---- schema nodes ----

  lemma {:induction false} NodeEntriesHold(ms: seq<Member>)
    requires EncodableMembers(ms)
    ensures forall i :: 0 <= i < |ms| && !Annotation(ms[i].name) ==>
      Keyed(ms[i].name, EncodeKeyword(ms[i].name, ms[i].value)) in NodeEntries(ms)
    ensures forall e :: e in NodeEntries(ms) ==>
      exists i :: 0 <= i < |ms| && !Annotation(ms[i].name) &&
        e == Keyed(ms[i].name, EncodeKeyword(ms[i].name, ms[i].value))
  {
    if ms != [] {
      NodeEntriesHold(ms[1..]);
      forall e | e in NodeEntries(ms)
        ensures exists i :: (0 <= i < |ms| && !Annotation(ms[i].name) &&
          e == Keyed(ms[i].name, EncodeKeyword(ms[i].name, ms[i].value)))
      {
        if e in NodeEntries(ms[1..]) {
          var i :| 0 <= i < |ms[1..]| && !Annotation(ms[1..][i].name) &&
            e == Keyed(ms[1..][i].name, EncodeKeyword(ms[1..][i].name, ms[1..][i].value));
          assert ms[1..][i] == ms[i + 1];
        }
      }
      forall i | 0 <= i < |ms| && !Annotation(ms[i].name)
        ensures Keyed(ms[i].name, EncodeKeyword(ms[i].name, ms[i].value)) in NodeEntries(ms)
      {
        if i > 0 { assert ms[1..][i - 1] == ms[i]; }
      }
    }
  }

  lemma {:induction false} NodeEntriesDistinct(ms: seq<Member>)
    requires EncodableMembers(ms)
    requires DistinctNames(ms)
    ensures DistinctKeys(NodeEntries(ms))
  {
    if ms != [] {
      NodeEntriesDistinct(ms[1..]);
      NodeEntriesHold(ms[1..]);
      var rest := NodeEntries(ms[1..]);
      forall j | 0 <= j < |rest| ensures rest[j].key != ms[0].name {
        assert rest[j] in rest;
      }
    }
  }

  // Every counting keyword of a occurs in b with an alike-encoded value.
  ghost predicate KeywordsAlikeIn(a: seq<Member>, b: seq<Member>)
    requires EncodableMembers(a) && EncodableMembers(b)
  {
    forall i :: 0 <= i < |a| && !Annotation(a[i].name) ==>
      Has(b, a[i].name) &&
      EncodeKeyword(a[i].name, a[i].value) == EncodeKeyword(a[i].name, Get(b, a[i].name))
  }

  lemma {:induction false} KeywordsWithin(a: seq<Member>, b: seq<Member>)
    requires EncodableMembers(a) && EncodableMembers(b)
    requires DistinctNames(b)
    ensures Within(NodeEntries(a), NodeEntries(b)) <==> KeywordsAlikeIn(a, b)
  {
    NodeEntriesHold(a);
    NodeEntriesHold(b);
    if Within(NodeEntries(a), NodeEntries(b)) {
      forall i | 0 <= i < |a| && !Annotation(a[i].name)
        ensures Has(b, a[i].name) &&
          EncodeKeyword(a[i].name, a[i].value) == EncodeKeyword(a[i].name, Get(b, a[i].name))
      {
        var e := Keyed(a[i].name, EncodeKeyword(a[i].name, a[i].value));
        assert e in NodeEntries(b);
        var j :| 0 <= j < |b| && !Annotation(b[j].name) &&
          e == Keyed(b[j].name, EncodeKeyword(b[j].name, b[j].value));
        GetAt(b, j);
      }
    }
    if KeywordsAlikeIn(a, b) {
      forall e | e in NodeEntries(a) ensures e in NodeEntries(b) {
        var i :| 0 <= i < |a| && !Annotation(a[i].name) &&
          e == Keyed(a[i].name, EncodeKeyword(a[i].name, a[i].value));
        var j := IndexOf(b, a[i].name);
        assert e == Keyed(b[j].name, EncodeKeyword(b[j].name, b[j].value));
      }
    }
  }

  lemma KeywordsSymmetric(a: seq<Member>, b: seq<Member>)
    requires EncodableMembers(a) && EncodableMembers(b)
    requires DistinctNames(b) && KeywordsAlikeIn(a, b)
    requires forall name :: !Annotation(name) && Has(b, name) ==> Has(a, name)
    ensures KeywordsAlikeIn(b, a)
  {
    forall j | 0 <= j < |b| && !Annotation(b[j].name)
      ensures Has(a, b[j].name) &&
        EncodeKeyword(b[j].name, b[j].value) == EncodeKeyword(b[j].name, Get(a, b[j].name))
    {
      assert Has(b, b[j].name);
      var i := IndexOf(a, b[j].name);
      GetAt(b, j);
      assert EncodeKeyword(a[i].name, a[i].value) == EncodeKeyword(a[i].name, Get(b, a[i].name));
    }
  }

  // Encoded nodes agree exactly when they carry the same counting keywords, alike encoded.
  lemma {:induction false} NodeTreesExact(a: seq<Member>, b: seq<Member>)
    requires EncodableMembers(a) && EncodableMembers(b)
    requires DistinctNames(a) && DistinctNames(b)
    ensures EncodeNode(JObj(a)) == EncodeNode(JObj(b)) <==>
      (forall name :: !Annotation(name) ==> (Has(a, name) <==> Has(b, name))) && KeywordsAlikeIn(a, b)
  {
    NodeEntriesDistinct(a);
    NodeEntriesDistinct(b);
    ObjectTreeExact(NodeEntries(a), NodeEntries(b));
    KeywordsWithin(a, b);
    KeywordsWithin(b, a);
    if KeywordsAlikeIn(a, b) && KeywordsAlikeIn(b, a) {
      forall name | !Annotation(name) ensures Has(a, name) <==> Has(b, name) {
        if Has(b, name) { assert b[IndexOf(b, name)].name == name; }
        if Has(a, name) { assert a[IndexOf(a, name)].name == name; }
      }
    }
    if KeywordsAlikeIn(a, b) && forall name :: !Annotation(name) ==> (Has(a, name) <==> Has(b, name)) {
      KeywordsSymmetric(a, b);
    }
  }

  // The same for the named children of `properties`.
  ghost predicate PropertiesAlikeIn(a: seq<Member>, b: seq<Member>)
    requires EncodableProperties(a) && EncodableProperties(b)
  {
    forall i :: 0 <= i < |a| ==>
      Has(b, a[i].name) && EncodeNode(a[i].value) == EncodeNode(Get(b, a[i].name))
  }

  lemma {:induction false} PropertiesWithin(a: seq<Member>, b: seq<Member>)
    requires EncodableProperties(a) && EncodableProperties(b)
    requires DistinctNames(b)
    ensures Within(PropertyEntries(a), PropertyEntries(b)) <==> PropertiesAlikeIn(a, b)
  {
    var x, y := PropertyEntries(a), PropertyEntries(b);
    if Within(x, y) {
      forall i | 0 <= i < |a|
        ensures Has(b, a[i].name) && EncodeNode(a[i].value) == EncodeNode(Get(b, a[i].name))
      {
        assert x[i] in y;
        var j :| 0 <= j < |y| && y[j] == x[i];
        GetAt(b, j);
      }
    }
    if PropertiesAlikeIn(a, b) {
      forall e | e in x ensures e in y {
        var i :| 0 <= i < |x| && x[i] == e;
        assert y[IndexOf(b, a[i].name)] == e;
      }
    }
  }

  lemma {:induction false} PropertyTreesExact(a: seq<Member>, b: seq<Member>)
    requires EncodableProperties(a) && EncodableProperties(b)
    requires DistinctNames(a) && DistinctNames(b)
    ensures ObjectTree(PropertyEntries(a)) == ObjectTree(PropertyEntries(b)) <==>
      (forall name :: Has(a, name) <==> Has(b, name)) && PropertiesAlikeIn(a, b)
  {
    ObjectTreeExact(PropertyEntries(a), PropertyEntries(b));
    PropertiesWithin(a, b);
    PropertiesWithin(b, a);
    if PropertiesAlikeIn(a, b) && PropertiesAlikeIn(b, a) {
      forall name ensures Has(a, name) <==> Has(b, name) {
        if Has(b, name) { assert b[IndexOf(b, name)].name == name; }
        if Has(a, name) { assert a[IndexOf(a, name)].name == name; }
      }
    }
    if PropertiesAlikeIn(a, b) && forall name :: Has(a, name) <==> Has(b, name) {
      forall j | 0 <= j < |b|
        ensures Has(a, b[j].name) && EncodeNode(b[j].value) == EncodeNode(Get(a, b[j].name))
      {
        assert Has(b, b[j].name);
        var i := IndexOf(a, b[j].name);
        GetAt(b, j);
        assert EncodeNode(a[i].value) == EncodeNode(Get(b, a[i].name));
      }
    }
  }

  lemma {:induction false} KeywordExact(name: string, x: Json, y: Json)
    requires EncodableKeyword(name, x) && EncodableKeyword(name, y)
    requires Unique(x) && Unique(y)
    ensures EncodeKeyword(name, x) == EncodeKeyword(name, y) <==> KeywordEquivalent(name, x, y)
    decreases x, 1
  {
    hide Encode, EncodeNode, EncodeItems, ObjectTree, PropertyEntries, UnorderedTree;
    hide JsonEqual, SchemaEquivalent, Rearranged;
    if name == "properties" {
      PropertyTreesExact(x.members, y.members);
      forall i, j | 0 <= i < |x.members| && 0 <= j < |y.members|
        ensures EncodeNode(x.members[i].value) == EncodeNode(y.members[j].value) <==>
                SchemaEquivalent(x.members[i].value, y.members[j].value)
      {
        NodeExact(x.members[i].value, y.members[j].value);
      }
    } else if name == "items" {
      NodeExact(x, y);
    } else if UnorderedKeyword(name) {
      UnorderedExact(EncodeItems(x.items), EncodeItems(y.items));
      RearrangedExact(x.items, y.items);
    } else {
      EncodeExact(x, y);
    }
  }

  lemma {:induction false} NodeExact(a: Json, b: Json)
    requires Encodable(a) && Encodable(b) && Unique(a) && Unique(b)
    ensures EncodeNode(a) == EncodeNode(b) <==> SchemaEquivalent(a, b)
    decreases a, 0
  {
    NodeTreesExact(a.members, b.members);
    forall i, j | 0 <= i < |a.members| && 0 <= j < |b.members| && a.members[i].name == b.members[j].name
      ensures var (x, y) := (a.members[i], b.members[j]);
        EncodeKeyword(x.name, x.value) == EncodeKeyword(x.name, y.value) <==>
        KeywordEquivalent(x.name, x.value, y.value)
    {
      KeywordExact(a.members[i].name, a.members[i].value, b.members[j].value);
    }
  }

  /** The hashed texts of two schemas are equal exactly when the schemas differ only in key order,
      in the order of `required` and `enum`, in number spelling, and in the titles and
      descriptions of schema nodes. */
  lemma {:induction false} CanonicalTextExact(a: Json, b: Json)
    requires Encodable(a) && Encodable(b) && Unique(a) && Unique(b)
    ensures CanonicalText(a) == CanonicalText(b) <==> SchemaEquivalent(a, b)
  {
    NodeExact(a, b);
    if CanonicalText(a) == CanonicalText(b) {
      WriteInjective(EncodeNode(a), EncodeNode(b));
    }
  }

  /** `json_equal` is an equivalence on exact JSON values. */
  lemma {:induction false} JsonEqualEquivalence(a: Json, b: Json, c: Json)
    requires Unique(a) && Unique(b) && Unique(c)
    ensures JsonEqual(a, a)
    ensures JsonEqual(a, b) <==> JsonEqual(b, a)
    ensures JsonEqual(a, b) && JsonEqual(b, c) ==> JsonEqual(a, c)
  {
    hide Encode, JsonEqual, Unique;
    EncodeExact(a, a);
    EncodeExact(a, b);
    EncodeExact(b, a);
    EncodeExact(b, c);
    EncodeExact(a, c);
  }

  lemma {:induction false} EntriesConcat(a: seq<Member>, b: seq<Member>)
    requires EncodableMembers(a) && EncodableMembers(b)
    ensures EncodableMembers(a + b) && NodeEntries(a + b) == NodeEntries(a) + NodeEntries(b)
  {
    hide EncodableKeyword;
    assert EncodableMembers(a + b);
    if a == [] {
      assert a + b == b;
    } else {
      assert (a + b)[1..] == a[1..] + b;
      EntriesConcat(a[1..], b);
    }
  }

  // ---- schema nodes below the root ----

  // From a schema node to a named property's schema, or to the item schema.
  datatype Step = Property(name: string) | Element

  function NodeAt(node: Json, path: seq<Step>): Option<Json>
    decreases |path|
  {
    if path == [] then Some(node)
    else if !node.JObj? then None
    else match path[0]
      case Element =>
        if Has(node.members, "items") then NodeAt(Get(node.members, "items"), path[1..]) else None
      case Property(name) =>
        if Has(node.members, "properties") && Get(node.members, "properties").JObj?
           && Has(Get(node.members, "properties").members, name)
        then NodeAt(Get(Get(node.members, "properties").members, name), path[1..])
        else None
  }

  /** Schemas of one hashed text have nodes at the same paths, whatever the properties on the way are
      called, and any two nodes at one path are equivalent. */
  lemma {:induction false} SameNodes(a: Json, b: Json, path: seq<Step>)
    requires SchemaEquivalent(a, b)
    ensures NodeAt(a, path).Some? <==> NodeAt(b, path).Some?
    ensures NodeAt(a, path).Some? ==> SchemaEquivalent(NodeAt(a, path).value, NodeAt(b, path).value)
    decreases |path|
  {
    if path != [] {
      match path[0]
      case Element =>
        assert "items" != "title" && "items" != "description" by { assert "items"[0] != "title"[0]; }
        if Has(a.members, "items") {
          KeywordAlike(a, b, "items");
          SameNodes(Get(a.members, "items"), Get(b.members, "items"), path[1..]);
        }
      case Property(name) =>
        if Has(a.members, "properties") {
          KeywordAlike(a, b, "properties");
          var x, y := Get(a.members, "properties").members, Get(b.members, "properties").members;
          if Has(x, name) {
            assert x[IndexOf(x, name)].name == name;
            SameNodes(Get(x, name), Get(y, name), path[1..]);
          }
        }
    }
  }

  lemma KeywordAlike(a: Json, b: Json, keyword: string)
    requires SchemaEquivalent(a, b) && !Annotation(keyword) && Has(a.members, keyword)
    ensures Has(b.members, keyword)
    ensures KeywordEquivalent(keyword, Get(a.members, keyword), Get(b.members, keyword))
  {
    assert a.members[IndexOf(a.members, keyword)].name == keyword;
  }

  /** At every node a property counts whatever its name, `title` and `description` included, and so
      does every enum value: only their order and the spelling of their numbers may differ. */
  lemma {:induction false} NamesAndValuesCount(a: Json, b: Json, path: seq<Step>, name: string)
    requires Encodable(a) && Encodable(b) && Unique(a) && Unique(b)
    requires CanonicalText(a) == CanonicalText(b)
    ensures NodeAt(a, path + [Property(name)]).Some? <==> NodeAt(b, path + [Property(name)]).Some?
    ensures NodeAt(a, path).Some? <==> NodeAt(b, path).Some?
    ensures NodeAt(a, path).Some? ==>
      var (x, y) := (NodeAt(a, path).value, NodeAt(b, path).value);
      x.JObj? && y.JObj? && (Has(x.members, "enum") <==> Has(y.members, "enum"))
      && (Has(x.members, "enum") ==>
            Get(x.members, "enum").JArr? && Get(y.members, "enum").JArr?
            && Rearranged(Get(x.members, "enum").items, Get(y.members, "enum").items))
  {
    hide Encodable, Unique, CanonicalText, NodeAt, Rearranged;
    CanonicalTextExact(a, b);
    SameNodes(a, b, path + [Property(name)]);
    SameNodes(a, b, path);
    if NodeAt(a, path).Some? && Has(NodeAt(a, path).value.members, "enum") {
      KeywordAlike(NodeAt(a, path).value, NodeAt(b, path).value, "enum");
    }
  }

  // The schema with one more member in the node at a path.
  function Annotate(node: Json, path: seq<Step>, at: nat, note: Member): (r: Json)
    requires NodeAt(node, path).Some? && NodeAt(node, path).value.JObj?
    requires at <= |NodeAt(node, path).value.members|
    decreases |path|
  {
    var ms := node.members;
    if path == [] then JObj(ms[..at] + [note] + ms[at..])
    else match path[0]
      case Element =>
        var i := IndexOf(ms, "items");
        JObj(ms[i := Member("items", Annotate(ms[i].value, path[1..], at, note))])
      case Property(name) =>
        var i := IndexOf(ms, "properties");
        var fields := ms[i].value.members;
        var j := IndexOf(fields, name);
        JObj(ms[i := Member("properties",
                            JObj(fields[j := Member(name, Annotate(fields[j].value, path[1..], at, note))]))])
  }

  lemma NoteEncodes(note: Member)
    requires Annotation(note.name)
    ensures EncodableMembers([note]) && NodeEntries([note]) == []
  {
    assert "title" != "properties" && "title" != "required" && "title"[0] != "items"[0];
    assert "description" != "properties" && "description" != "required";
  }

  // A member replaced by one of its name and encoding.
  lemma MemberReplaced(ms: seq<Member>, i: nat, v: Json)
    requires EncodableMembers(ms) && i < |ms| && EncodableKeyword(ms[i].name, v)
    requires EncodeKeyword(ms[i].name, v) == EncodeKeyword(ms[i].name, ms[i].value)
    ensures EncodableMembers(ms[i := Member(ms[i].name, v)])
    ensures NodeEntries(ms[i := Member(ms[i].name, v)]) == NodeEntries(ms)
  {
    hide EncodableKeyword, EncodeKeyword;
    var before, m, after := ms[..i], Member(ms[i].name, v), ms[i + 1..];
    assert EncodableMembers([m]) && EncodableMembers([ms[i]]);
    EntriesConcat(before, [m]);
    EntriesConcat(before + [m], after);
    EntriesConcat(before, [ms[i]]);
    EntriesConcat(before + [ms[i]], after);
    assert ms[i := m] == before + [m] + after && ms == before + [ms[i]] + after;
    assert NodeEntries([m]) == NodeEntries([ms[i]]);
  }

  lemma PropertyReplaced(fields: seq<Member>, j: nat, v: Json)
    requires EncodableProperties(fields) && j < |fields| && Encodable(v)
    requires EncodeNode(v) == EncodeNode(fields[j].value)
    ensures EncodableProperties(fields[j := Member(fields[j].name, v)])
    ensures PropertyEntries(fields[j := Member(fields[j].name, v)]) == PropertyEntries(fields)
  {
    hide Encodable, EncodeNode;
  }

  /** A title or description on a schema node never reaches the hashed text, whichever node of the
      schema carries it and wherever it stands among that node's members. */
  lemma {:induction false} AnnotationIgnored(node: Json, path: seq<Step>, at: nat, note: Member)
    requires Encodable(node) && (note.name == "title" || note.name == "description")
    requires NodeAt(node, path).Some? && NodeAt(node, path).value.JObj?
    requires at <= |NodeAt(node, path).value.members|
    ensures Encodable(Annotate(node, path, at, note))
    ensures CanonicalText(Annotate(node, path, at, note)) == CanonicalText(node)
  {
    AnnotatedEncodes(node, path, at, note);
  }

  lemma {:induction false} AnnotatedEncodes(node: Json, path: seq<Step>, at: nat, note: Member)
    requires Encodable(node) && Annotation(note.name)
    requires NodeAt(node, path).Some? && NodeAt(node, path).value.JObj?
    requires at <= |NodeAt(node, path).value.members|
    ensures Encodable(Annotate(node, path, at, note))
    ensures EncodeNode(Annotate(node, path, at, note)) == EncodeNode(node)
    decreases |path|
  {
    var ms := node.members;
    if path == [] {
      var before, after := ms[..at], ms[at..];
      NoteEncodes(note);
      EntriesConcat(before, [note]);
      EntriesConcat(before + [note], after);
      EntriesConcat(before, after);
      assert before + after == ms && NodeEntries(before) + [] == NodeEntries(before);
    } else {
      match path[0]
      case Element =>
        var i := IndexOf(ms, "items");
        AnnotatedEncodes(ms[i].value, path[1..], at, note);
        MemberReplaced(ms, i, Annotate(ms[i].value, path[1..], at, note));
      case Property(name) =>
        var i := IndexOf(ms, "properties");
        var fields := ms[i].value.members;
        var j := IndexOf(fields, name);
        AnnotatedEncodes(fields[j].value, path[1..], at, note);
        var child := Annotate(fields[j].value, path[1..], at, note);
        PropertyReplaced(fields, j, child);
        MemberReplaced(ms, i, JObj(fields[j := Member(name, child)]));
    }
  }
}
