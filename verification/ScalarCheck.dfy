/** `require_unicode_scalars`: a work-list walk over a decoded document, whose strings may still
    hold surrogate code points. */
module ScalarCheck {
  import S = SchemaProfile
  import opened SurrogateScan
  import opened Utf8

  datatype Decoded =
    | Points(points: seq<int>)
    | Atom
    | Array(items: seq<Decoded>)
    | Object(entries: seq<Entry>)
  datatype Entry = Entry(key: seq<int>, value: Decoded)

  datatype Verdict = Accepted | TooDeep | LoneSurrogate

  // Every string and key at any depth is made of scalars.
  predicate ScalarOnly(v: Decoded)
    decreases v
  {
    match v
    case Points(points) => AllScalars(points)
    case Atom => true
    case Array(items) => forall i | 0 <= i < |items| :: ScalarOnly(items[i])
    case Object(entries) => forall i | 0 <= i < |entries| ::
      AllScalars(entries[i].key) && ScalarOnly(entries[i].value)
  }

  // Nothing lies more than the limit below the root.
  predicate Shallow(v: Decoded, depth: nat)
    decreases v
  {
    depth <= S.MAX_NESTING_DEPTH
    && match v
       case Array(items) => forall i | 0 <= i < |items| :: Shallow(items[i], depth + 1)
       case Object(entries) => forall i | 0 <= i < |entries| :: Shallow(entries[i].value, depth + 1)
       case _ => true
  }

  // How far below the root its deepest value lies.
  function Height(v: Decoded): nat
    decreases v, 0
  {
    match v
    case Array(items) => if items == [] then 0 else 1 + Tallest(items)
    case Object(entries) => if entries == [] then 0 else 1 + TallestEntry(entries)
    case _ => 0
  }

  function Tallest(items: seq<Decoded>): nat
    decreases items, 0
  {
    if items == [] then 0
    else if Height(items[0]) > Tallest(items[1..]) then Height(items[0]) else Tallest(items[1..])
  }

  function TallestEntry(entries: seq<Entry>): nat
    decreases entries, 0
  {
    if entries == [] then 0
    else if Height(entries[0].value) > TallestEntry(entries[1..]) then Height(entries[0].value)
    else TallestEntry(entries[1..])
  }

  lemma {:induction false} ShallowHeight(v: Decoded, depth: nat)
    ensures Shallow(v, depth) <==> depth + Height(v) <= 128
    decreases v, 0
  {
    if depth <= 128 {
      match v
      case Array(items) => ShallowItems(items, depth + 1);
      case Object(entries) => ShallowEntries(entries, depth + 1);
      case _ =>
    }
  }

  lemma {:induction false} ShallowItems(items: seq<Decoded>, depth: nat)
    ensures (forall i | 0 <= i < |items| :: Shallow(items[i], depth)) <==> items == [] || depth + Tallest(items) <= 128
    decreases items, 0
  {
    hide Shallow, Height;
    if items != [] {
      ShallowHeight(items[0], depth);
      ShallowItems(items[1..], depth);
      assert forall i | 0 < i < |items| :: items[i] == items[1..][i - 1];
    }
  }

  lemma {:induction false} ShallowEntries(entries: seq<Entry>, depth: nat)
    ensures (forall i | 0 <= i < |entries| :: Shallow(entries[i].value, depth)) <==>
      entries == [] || depth + TallestEntry(entries) <= 128
    decreases entries, 0
  {
    hide Shallow, Height;
    if entries != [] {
      ShallowHeight(entries[0].value, depth);
      ShallowEntries(entries[1..], depth);
      assert forall i | 0 < i < |entries| :: entries[i] == entries[1..][i - 1];
    }
  }

  type Work = seq<(Decoded, nat)>

  predicate AllScalarOnly(work: Work) { forall i | 0 <= i < |work| :: ScalarOnly(work[i].0) }

  predicate AllShallow(work: Work) { forall i | 0 <= i < |work| :: Shallow(work[i].0, work[i].1) }

  function ItemPushes(items: seq<Decoded>, depth: nat): Work {
    seq(|items|, i requires 0 <= i < |items| => (items[i], depth + 1))
  }

  function KeyPushes(entries: seq<Entry>, depth: nat): Work {
    seq(|entries|, i requires 0 <= i < |entries| => (Points(entries[i].key), depth))
  }

  function ValuePushes(entries: seq<Entry>, depth: nat): Work {
    seq(|entries|, i requires 0 <= i < |entries| => (entries[i].value, depth + 1))
  }

  // What one popped value pushes: a list's items, or a dict's keys and then its values.
  function Pushed(v: Decoded, depth: nat): Work {
    match v
    case Array(items) => ItemPushes(items, depth)
    case Object(entries) => KeyPushes(entries, depth) + ValuePushes(entries, depth)
    case _ => []
  }

  lemma KeyWork(entries: seq<Entry>, depth: nat)
    requires depth <= S.MAX_NESTING_DEPTH
    ensures AllShallow(KeyPushes(entries, depth))
  {
  }

  lemma KeyScalars(entries: seq<Entry>, depth: nat)
    ensures AllScalarOnly(KeyPushes(entries, depth)) <==>
      forall i | 0 <= i < |entries| :: AllScalars(entries[i].key)
  {
    hide AllScalars;
    var w := KeyPushes(entries, depth);
    assert forall i :: 0 <= i < |entries| ==> (ScalarOnly(w[i].0) <==> AllScalars(entries[i].key));
  }

  lemma ValueWork(entries: seq<Entry>, depth: nat)
    ensures AllScalarOnly(ValuePushes(entries, depth)) <==>
      forall i | 0 <= i < |entries| :: ScalarOnly(entries[i].value)
    ensures AllShallow(ValuePushes(entries, depth)) <==>
      forall i | 0 <= i < |entries| :: Shallow(entries[i].value, depth + 1)
  {
    hide ScalarOnly, Shallow;
    var w := ValuePushes(entries, depth);
    assert forall i :: 0 <= i < |entries| ==> w[i] == (entries[i].value, depth + 1);
  }

  lemma ItemsWork(items: seq<Decoded>, depth: nat)
    ensures AllScalarOnly(ItemPushes(items, depth)) <==> forall i | 0 <= i < |items| :: ScalarOnly(items[i])
    ensures AllShallow(ItemPushes(items, depth)) <==>
      forall i | 0 <= i < |items| :: Shallow(items[i], depth + 1)
  {
    hide ScalarOnly, Shallow;
    var w := ItemPushes(items, depth);
    assert forall i :: 0 <= i < |items| ==> w[i] == (items[i], depth + 1);
  }

  lemma PushedScalar(v: Decoded, depth: nat)
    requires !v.Points?
    ensures ScalarOnly(v) <==> AllScalarOnly(Pushed(v, depth))
  {
    hide AllScalars, AllScalarOnly;
    if v.Object? {
      KeyScalars(v.entries, depth);
      ValueWork(v.entries, depth);
      ConcatBoth(KeyPushes(v.entries, depth), ValuePushes(v.entries, depth));
    } else if v.Array? {
      ItemsWork(v.items, depth);
    } else {
      Empty();
    }
  }

  lemma PushedShallow(v: Decoded, depth: nat)
    requires depth <= S.MAX_NESTING_DEPTH
    ensures Shallow(v, depth) <==> AllShallow(Pushed(v, depth))
  {
    hide AllShallow;
    if v.Object? {
      KeyWork(v.entries, depth);
      ValueWork(v.entries, depth);
      ConcatBoth(KeyPushes(v.entries, depth), ValuePushes(v.entries, depth));
    } else if v.Array? {
      ItemsWork(v.items, depth);
    } else {
      Empty();
    }
  }

  // ---- a measure for the work list ----

  ghost function Size(v: Decoded): nat
    decreases v
  {
    match v
    case Array(items) => 1 + ItemSizes(items)
    case Object(entries) => 1 + EntrySizes(entries)
    case _ => 1
  }

  ghost function ItemSizes(items: seq<Decoded>): nat
    decreases items
  {
    if items == [] then 0 else Size(items[0]) + ItemSizes(items[1..])
  }

  ghost function EntrySizes(entries: seq<Entry>): nat
    decreases entries
  {
    if entries == [] then 0 else 1 + Size(entries[0].value) + EntrySizes(entries[1..])
  }

  ghost function WorkSize(work: Work): nat {
    if work == [] then 0 else Size(work[0].0) + WorkSize(work[1..])
  }

  lemma {:induction false} WorkConcat(a: Work, b: Work)
    ensures WorkSize(a + b) == WorkSize(a) + WorkSize(b)
  {
    if a == [] {
      assert a + b == b;
    } else {
      assert (a + b)[1..] == a[1..] + b;
      WorkConcat(a[1..], b);
    }
  }

  lemma {:induction false} ItemWork(items: seq<Decoded>, depth: nat)
    ensures WorkSize(ItemPushes(items, depth)) == ItemSizes(items)
  {
    if items != [] {
      var w := ItemPushes(items, depth);
      var rest := items[1..];
      assert w[1..] == ItemPushes(rest, depth);
      ItemWork(rest, depth);
    }
  }

  lemma {:induction false} EntryWork(entries: seq<Entry>, depth: nat)
    ensures WorkSize(KeyPushes(entries, depth))
      + WorkSize(ValuePushes(entries, depth))
      == EntrySizes(entries)
  {
    if entries != [] {
      var k := KeyPushes(entries, depth);
      var w := ValuePushes(entries, depth);
      var rest := entries[1..];
      assert k[1..] == KeyPushes(rest, depth);
      assert w[1..] == ValuePushes(rest, depth);
      EntryWork(rest, depth);
    }
  }

  lemma {:induction false} PushedSize(v: Decoded, depth: nat)
    ensures WorkSize(Pushed(v, depth)) < Size(v)
  {
    match v
    case Array(items) => ItemWork(items, depth);
    case Object(entries) =>
      EntryWork(entries, depth);
      WorkConcat(KeyPushes(entries, depth), ValuePushes(entries, depth));
    case _ =>
  }

  lemma PopSize(work: Work)
    requires work != []
    ensures WorkSize(work) == WorkSize(work[..|work| - 1]) + Size(work[|work| - 1].0)
  {
    var front, last := work[..|work| - 1], [work[|work| - 1]];
    WorkConcat(front, last);
    assert work == front + last;
  }

  lemma ConcatBoth(a: Work, b: Work)
    ensures AllScalarOnly(a + b) <==> AllScalarOnly(a) && AllScalarOnly(b)
    ensures AllShallow(a + b) <==> AllShallow(a) && AllShallow(b)
  {
    hide ScalarOnly, Shallow;
    var w := a + b;
    assert forall i :: 0 <= i < |a| ==> w[i] == a[i];
    assert forall i :: 0 <= i < |b| ==> w[|a| + i] == b[i];
  }

  lemma PopBoth(work: Work)
    requires work != []
    ensures var front, top := work[..|work| - 1], work[|work| - 1];
      (AllScalarOnly(work) <==> AllScalarOnly(front) && ScalarOnly(top.0))
      && (AllShallow(work) <==> AllShallow(front) && Shallow(top.0, top.1))
  {
    hide ScalarOnly, Shallow;
    var front, last := work[..|work| - 1], [work[|work| - 1]];
    assert work == front + last;
    ConcatBoth(front, last);
    assert AllScalarOnly(last) <==> ScalarOnly(last[0].0);
    assert AllShallow(last) <==> Shallow(last[0].0, last[0].1);
  }

  /** The walk ends on every document. It accepts exactly the shallow documents of scalars, and
      each refusal names a defect the document has. */
  method RequireUnicodeScalars(document: Decoded) returns (verdict: Verdict)
    ensures verdict == Accepted <==> ScalarOnly(document) && Height(document) <= 128
    ensures verdict == TooDeep ==> Height(document) > 128
    ensures verdict == LoneSurrogate ==> !ScalarOnly(document)
  {
    hide ScalarOnly, Shallow, AllScalarOnly, AllShallow, Pushed, WorkSize, AllScalars;
    ShallowHeight(document, 0);
    hide Height;
    var pending: Work := [(document, 0)];
    Singleton(document);
    while pending != []
      invariant ScalarOnly(document) <==> AllScalarOnly(pending)
      invariant Shallow(document, 0) <==> AllShallow(pending)
      decreases WorkSize(pending)
    {
      var (value, depth) := pending[|pending| - 1];
      PopBoth(pending);
      PopSize(pending);
      pending := pending[..|pending| - 1];
      if depth > S.MAX_NESTING_DEPTH {
        NotShallow(value, depth);
        return TooDeep;
      }
      if value.Points? && !AllScalars(value.points) {
        TextScalar(value);
        return LoneSurrogate;
      }
      if value.Points? {
        TextScalar(value);
      } else {
        PushedScalar(value, depth);
      }
      PushedShallow(value, depth);
      ConcatBoth(pending, Pushed(value, depth));
      WorkConcat(pending, Pushed(value, depth));
      PushedSize(value, depth);
      TextPushes(value, depth);
      pending := pending + Pushed(value, depth);
    }
    Empty();
    return Accepted;
  }

  lemma TextPushes(v: Decoded, depth: nat)
    ensures v.Points? ==> AllScalarOnly(Pushed(v, depth))
  {
  }

  lemma TextScalar(v: Decoded)
    requires v.Points?
    ensures ScalarOnly(v) <==> AllScalars(v.points)
  {
  }

  lemma NotShallow(v: Decoded, depth: nat)
    requires depth > S.MAX_NESTING_DEPTH
    ensures !Shallow(v, depth)
  {
  }

  lemma Singleton(v: Decoded)
    ensures AllScalarOnly([(v, 0)]) <==> ScalarOnly(v)
    ensures AllShallow([(v, 0)]) <==> Shallow(v, 0)
  {
    var w: Work := [(v, 0)];
    assert w[0].0 == v && w[0].1 == 0;
  }

  lemma Empty()
    ensures AllScalarOnly([]) && AllShallow([])
  {
  }

  // ---- the same strings, seen by the byte scanner ----

  // The keys and texts of a document, in the order they are written.
  function Strings(v: Decoded): seq<seq<int>>
    decreases v, 0
  {
    match v
    case Points(points) => [points]
    case Atom => []
    case Array(items) => ItemStrings(items)
    case Object(entries) => EntryStrings(entries)
  }

  function ItemStrings(items: seq<Decoded>): seq<seq<int>>
    decreases items, 0
  {
    if items == [] then [] else Strings(items[0]) + ItemStrings(items[1..])
  }

  function EntryStrings(entries: seq<Entry>): seq<seq<int>>
    decreases entries, 0
  {
    if entries == [] then [] else [entries[0].key] + Strings(entries[0].value) + EntryStrings(entries[1..])
  }

  predicate OnlyScalars(texts: seq<seq<int>>) { forall t | t in texts :: AllScalars(t) }

  lemma {:induction false} ScalarStrings(v: Decoded)
    ensures ScalarOnly(v) <==> OnlyScalars(Strings(v))
    decreases v, 0
  {
    hide AllScalars;
    match v
    case Points(points) =>
    case Atom =>
    case Array(items) => ScalarItems(items);
    case Object(entries) => ScalarEntries(entries);
  }

  lemma {:induction false} ScalarItems(items: seq<Decoded>)
    ensures (forall i | 0 <= i < |items| :: ScalarOnly(items[i])) <==> OnlyScalars(ItemStrings(items))
    decreases items, 0
  {
    hide ScalarOnly, AllScalars, Strings;
    if items != [] {
      ScalarStrings(items[0]);
      ScalarItems(items[1..]);
      assert forall i | 0 < i < |items| :: items[i] == items[1..][i - 1];
    }
  }

  lemma {:induction false} ScalarEntries(entries: seq<Entry>)
    ensures (forall i | 0 <= i < |entries| :: AllScalars(entries[i].key) && ScalarOnly(entries[i].value)) <==>
            OnlyScalars(EntryStrings(entries))
    decreases entries, 0
  {
    hide ScalarOnly, AllScalars, Strings;
    if entries != [] {
      ScalarStrings(entries[0].value);
      ScalarEntries(entries[1..]);
      assert forall i | 0 < i < |entries| :: entries[i] == entries[1..][i - 1];
    }
  }

  // The texts that a document's string tokens decode to, in order.
  function Texts(ps: seq<Piece>): seq<seq<int>>
    requires ValidPieces(ps)
  {
    if ps == [] then []
    else (if ps[0].Quoted? then [CodePoints(ps[0].units)] else []) + Texts(ps[1..])
  }

  lemma {:induction false} ScalarTexts(ps: seq<Piece>)
    requires ValidPieces(ps)
    ensures StringsScalar(ps) <==> OnlyScalars(Texts(ps))
  {
    hide AllScalars, CodePoints;
    if ps != [] {
      ScalarTexts(ps[1..]);
      assert forall i | 0 < i < |ps| :: ps[i] == ps[1..][i - 1];
      assert StringsScalar(ps) <==> PieceScalars(ps[0]) && StringsScalar(ps[1..]);
    }
  }

  /** The byte scanner refuses an encoded document exactly when the walk over what it decodes to finds
      a surrogate: whatever stands between the strings, each side sees the same texts. */
  lemma {:induction false} SameSurrogates(raw: seq<Byte>, document: Decoded)
    requires Lex(raw).Some? && ValidPieces(Lex(raw).value) && Texts(Lex(raw).value) == Strings(document)
    ensures Scan(raw, false) <==> ScalarOnly(document)
  {
    hide Scan, Lex, ScalarOnly, Strings, Texts, StringsScalar, OnlyScalars;
    LexedExact(raw);
    ScalarTexts(Lex(raw).value);
    ScalarStrings(document);
  }
}
