/** Decoded strict JSON as `strict_json` returns it: objects keep their insertion order and have
    distinct names, numbers are exact decimals, strings hold Unicode scalars. */
module Json {
  import opened Decimals
  import opened Options

  datatype Json =
    | JNull
    | JBool(flag: bool)
    | JNum(number: Decimal)
    | JStr(text: string)
    | JArr(items: seq<Json>)
    | JObj(members: seq<Member>)
  datatype Member = Member(name: string, value: Json)

  predicate DistinctNames(ms: seq<Member>) {
    forall i, j :: 0 <= i < j < |ms| ==> ms[i].name != ms[j].name
  }

  // What `object_pairs_hook=unique_object` leaves: no object repeats a name at any depth.
  predicate Unique(v: Json)
    decreases v
  {
    match v
    case JArr(items) => forall i | 0 <= i < |items| :: Unique(items[i])
    case JObj(ms) => DistinctNames(ms) && forall i | 0 <= i < |ms| :: Unique(ms[i].value)
    case _ => true
  }

  // `name in value`
  predicate Has(ms: seq<Member>, name: string) {
    exists i :: 0 <= i < |ms| && ms[i].name == name
  }

  function IndexOf(ms: seq<Member>, name: string): (i: nat)
    requires Has(ms, name)
    ensures i < |ms| && ms[i].name == name
  {
    if ms[0].name == name then 0
    else
      assert Has(ms[1..], name) by {
        var i :| 0 <= i < |ms| && ms[i].name == name;
        assert ms[1..][i - 1].name == name;
      }
      1 + IndexOf(ms[1..], name)
  }

  // `value[name]`
  function Get(ms: seq<Member>, name: string): (v: Json)
    requires Has(ms, name)
    ensures Member(name, v) in ms
  {
    ms[IndexOf(ms, name)].value
  }

  // `value.get(name)`
  function Lookup(ms: seq<Member>, name: string): Option<Json> {
    if Has(ms, name) then Some(Get(ms, name)) else None
  }

  lemma GetAt(ms: seq<Member>, i: nat)
    requires DistinctNames(ms) && i < |ms|
    ensures Has(ms, ms[i].name) && Get(ms, ms[i].name) == ms[i].value
  {
  }

  function Names(ms: seq<Member>): set<string> {
    set i | 0 <= i < |ms| :: ms[i].name
  }

  lemma NamesHas(ms: seq<Member>, name: string)
    ensures name in Names(ms) <==> Has(ms, name)
  {
  }

  // `matches_type` for one of the seven type names
  predicate MatchesType(v: Json, schemaType: string) {
    if schemaType == "object" then v.JObj?
    else if schemaType == "array" then v.JArr?
    else if schemaType == "string" then v.JStr?
    else if schemaType == "integer" then v.JNum? && Integral(v.number)
    else if schemaType == "number" then v.JNum?
    else if schemaType == "boolean" then v.JBool?
    else v.JNull?
  }

  // `json_equal`
  predicate JsonEqual(left: Json, right: Json)
    decreases left
  {
    match (left, right)
    case (JBool(a), JBool(b)) => a == b
    case (JNum(a), JNum(b)) => Value(a) == Value(b)
    case (JStr(a), JStr(b)) => a == b
    case (JNull, JNull) => true
    case (JArr(a), JArr(b)) => |a| == |b| && forall i | 0 <= i < |a| :: JsonEqual(a[i], b[i])
    case (JObj(a), JObj(b)) =>
      Names(a) == Names(b) &&
      forall i | 0 <= i < |a| :: Has(b, a[i].name) && JsonEqual(a[i].value, Get(b, a[i].name))
    case _ => false
  }
}
