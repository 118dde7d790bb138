/** Python's stable `sort` by a string key, and when its result is canonical. */
module Sorting {
  import opened Text

  datatype Keyed<T> = Keyed(key: string, value: T)

  function Insert<T>(x: Keyed<T>, s: seq<Keyed<T>>): seq<Keyed<T>> {
    if s == [] || !Before(s[0].key, x.key) then [x] + s else [s[0]] + Insert(x, s[1..])
  }

  function Sort<T>(s: seq<Keyed<T>>): seq<Keyed<T>> {
    if s == [] then [] else Insert(s[0], Sort(s[1..]))
  }

  predicate InOrder<T>(s: seq<Keyed<T>>) {
    forall i, j :: 0 <= i < j < |s| ==> !Before(s[j].key, s[i].key)
  }

  // No two different entries share a key.
  ghost predicate KeysDecide<T>(s: seq<Keyed<T>>) {
    forall i, j :: 0 <= i < |s| && 0 <= j < |s| && s[i].key == s[j].key ==> s[i] == s[j]
  }

  predicate DistinctKeys<T>(s: seq<Keyed<T>>) {
    forall i, j :: 0 <= i < j < |s| ==> s[i].key != s[j].key
  }

  lemma {:induction false} InsertSorts<T>(x: Keyed<T>, s: seq<Keyed<T>>)
    requires InOrder(s)
    ensures InOrder(Insert(x, s)) && multiset(Insert(x, s)) == multiset{x} + multiset(s)
  {
    if s == [] {
    } else if !Before(s[0].key, x.key) {
      forall j | 0 <= j < |s| ensures !Before(s[j].key, x.key) {
        if Before(s[j].key, x.key) {
          BeforeTotal(s[0].key, s[j].key);
          BeforeTotal(s[0].key, x.key);
          if Before(s[0].key, s[j].key) { BeforeTransitive(s[0].key, s[j].key, x.key); }
        }
      }
    } else {
      assert s == [s[0]] + s[1..];
      InsertSorts(x, s[1..]);
      var r := Insert(x, s[1..]);
      BeforeTotal(s[0].key, x.key);
      forall j | 0 <= j < |r| ensures !Before(r[j].key, s[0].key) {
        assert r[j] in multiset(r);
        if r[j] != x {
          assert r[j] in s[1..];
        }
      }
    }
  }

  lemma {:induction false} SortSorts<T>(s: seq<Keyed<T>>)
    ensures InOrder(Sort(s)) && multiset(Sort(s)) == multiset(s)
  {
    if s != [] {
      SortSorts(s[1..]);
      InsertSorts(s[0], Sort(s[1..]));
      assert s == [s[0]] + s[1..];
    }
  }

  lemma HeadTail<T>(s: seq<T>)
    requires s != []
    ensures s == [s[0]] + s[1..] && multiset(s) == multiset{s[0]} + multiset(s[1..])
  {
    assert s == [s[0]] + s[1..];
  }

  lemma SameHead<T>(a: seq<Keyed<T>>, b: seq<Keyed<T>>)
    requires InOrder(a) && InOrder(b) && multiset(a) == multiset(b) && KeysDecide(a)
    requires a != [] && b != []
    ensures a[0] == b[0]
  {
    assert a[0] in multiset(b) && b[0] in multiset(a);
    BeforeTotal(a[0].key, b[0].key);
  }

  lemma {:induction false} OrderedUnique<T>(a: seq<Keyed<T>>, b: seq<Keyed<T>>)
    requires InOrder(a) && InOrder(b) && multiset(a) == multiset(b) && KeysDecide(a)
    ensures a == b
  {
    assert |a| == |multiset(a)| == |multiset(b)| == |b|;
    if a != [] {
      HeadTail(a);
      HeadTail(b);
      SameHead(a, b);
      assert multiset(a[1..]) == multiset(a) - multiset{a[0]};
      assert multiset(b[1..]) == multiset(b) - multiset{a[0]};
      OrderedUnique(a[1..], b[1..]);
    }
  }

  /** Sorting by a deciding key forgets the order of its input and nothing else. */
  lemma {:induction false} SortCanonical<T>(a: seq<Keyed<T>>, b: seq<Keyed<T>>)
    requires KeysDecide(a)
    ensures Sort(a) == Sort(b) <==> multiset(a) == multiset(b)
  {
    SortSorts(a);
    SortSorts(b);
    if multiset(a) == multiset(b) {
      var s := Sort(a);
      forall i, j | 0 <= i < |s| && 0 <= j < |s| && s[i].key == s[j].key ensures s[i] == s[j] {
        assert s[i] in multiset(a) && s[j] in multiset(a);
      }
      OrderedUnique(s, Sort(b));
    }
  }

  lemma {:induction false} DistinctMembers<T>(s: seq<Keyed<T>>, x: Keyed<T>)
    requires DistinctKeys(s)
    ensures multiset(s)[x] == if x in s then 1 else 0
  {
    if s != [] {
      assert s == [s[0]] + s[1..];
      DistinctMembers(s[1..], x);
    }
  }

  /** With distinct keys, sorted lists agree exactly when the same entries occur. */
  lemma {:induction false} SortDistinct<T>(a: seq<Keyed<T>>, b: seq<Keyed<T>>)
    requires DistinctKeys(a) && DistinctKeys(b)
    ensures Sort(a) == Sort(b) <==> (forall x :: x in a <==> x in b)
  {
    SortCanonical(a, b);
    if forall x :: x in a <==> x in b {
      forall x ensures multiset(a)[x] == multiset(b)[x] {
        DistinctMembers(a, x);
        DistinctMembers(b, x);
      }
    }
    if multiset(a) == multiset(b) {
      forall x ensures x in a <==> x in b {
        assert x in a <==> x in multiset(a);
        assert x in b <==> x in multiset(b);
      }
    }
  }
}
