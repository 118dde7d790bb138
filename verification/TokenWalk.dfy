/** `walkJSONValue`: a recursive-descent acceptor over the token stream of `json.Decoder`, with a
    depth bound and duplicate-name detection. */
module TokenWalk {
  import opened Decimals
  import opened Json
  import opened Options

  const MAX_DEPTH := 16

  datatype Token =
    | OpenObject | CloseObject | OpenArray | CloseArray
    | NullToken | BoolToken(flag: bool) | NumberToken(number: Decimal) | StringToken(text: string)

  // The tokens a document lexes to, and whether they end in io.EOF rather than a syntax error.
  datatype Stream = Stream(tokens: seq<Token>, cleanEnd: bool)

  // `decoder.Token()`: a token, io.EOF, or another error
  datatype Next = Got(token: Token) | AtEnd | Broken

  /** A cursor over the token stream of one document. */
  class Decoder {
    const tokens: seq<Token>
    const cleanEnd: bool
    var next: nat

    constructor (stream: Stream)
      ensures tokens == stream.tokens && cleanEnd == stream.cleanEnd && next == 0
    {
      tokens, cleanEnd := stream.tokens, stream.cleanEnd;
      next := 0;
    }

    ghost predicate Valid()
      reads this
    {
      next <= |tokens|
    }

    ghost function Remaining(): seq<Token>
      reads this
      requires Valid()
    {
      tokens[next..]
    }

    method Token() returns (r: Next)
      requires Valid()
      modifies this
      ensures Valid()
      ensures old(Remaining()) == [] ==> r == (if cleanEnd then AtEnd else Broken) && Remaining() == []
      ensures old(Remaining()) != [] ==>
        r == Got(old(Remaining())[0]) && Remaining() == old(Remaining())[1..]
    {
      if next < |tokens| {
        r := Got(tokens[next]);
        next := next + 1;
      } else {
        r := if cleanEnd then AtEnd else Broken;
      }
    }

    // `decoder.More()`
    method More() returns (more: bool)
      requires Valid()
      ensures more == HasMore(Remaining())
    {
      more := next < |tokens| && tokens[next] != CloseObject && tokens[next] != CloseArray;
    }
  }

  predicate HasMore(tokens: seq<Token>) {
    tokens != [] && tokens[0] != CloseObject && tokens[0] != CloseArray
  }

  // ---- the grammar the walk accepts, building the tree it walks ----

  function ParseValue(tokens: seq<Token>, depth: nat): (r: Option<(Json, seq<Token>)>)
    ensures r.Some? ==> |r.value.1| < |tokens|
    decreases |tokens|, 0
  {
    if tokens == [] then None else
    match tokens[0]
    case NullToken => Some((JNull, tokens[1..]))
    case BoolToken(b) => Some((JBool(b), tokens[1..]))
    case NumberToken(d) => Some((JNum(d), tokens[1..]))
    case StringToken(s) => Some((JStr(s), tokens[1..]))
    case OpenObject =>
      if depth + 1 > MAX_DEPTH then None else
      (match ParseMembers(tokens[1..], depth + 1, {})
       case Some((ms, rest)) => Some((JObj(ms), rest))
       case None => None)
    case OpenArray =>
      if depth + 1 > MAX_DEPTH then None else
      (match ParseItems(tokens[1..], depth + 1)
       case Some((items, rest)) => Some((JArr(items), rest))
       case None => None)
    case _ => None
  }

  function ParseMembers(tokens: seq<Token>, depth: nat, names: set<string>): (r: Option<(seq<Member>, seq<Token>)>)
    ensures r.Some? ==> |r.value.1| < |tokens|
    decreases |tokens|, 1
  {
    if !HasMore(tokens) then
      (if tokens != [] && tokens[0] == CloseObject then Some(([], tokens[1..])) else None)
    else if !tokens[0].StringToken? || tokens[0].text in names then None
    else match ParseValue(tokens[1..], depth)
      case None => None
      case Some((v, rest)) =>
        match ParseMembers(rest, depth, names + {tokens[0].text})
        case None => None
        case Some((ms, rest')) => Some(([Member(tokens[0].text, v)] + ms, rest'))
  }

  function ParseItems(tokens: seq<Token>, depth: nat): (r: Option<(seq<Json>, seq<Token>)>)
    ensures r.Some? ==> |r.value.1| < |tokens|
    decreases |tokens|, 1
  {
    if !HasMore(tokens) then
      (if tokens != [] && tokens[0] == CloseArray then Some(([], tokens[1..])) else None)
    else match ParseValue(tokens, depth)
      case None => None
      case Some((v, rest)) =>
        match ParseItems(rest, depth)
        case None => None
        case Some((items, rest')) => Some(([v] + items, rest'))
  }

  // ---- the walk itself ----

  method WalkValue(decoder: Decoder, depth: nat) returns (ok: bool)
    requires decoder.Valid()
    modifies decoder
    ensures decoder.Valid()
    ensures ok <==> ParseValue(old(decoder.Remaining()), depth).Some?
    ensures ok ==> decoder.Remaining() == ParseValue(old(decoder.Remaining()), depth).value.1
    decreases |decoder.Remaining()|, 0
  {
    var first := decoder.Token();
    if !first.Got? {
      return false;
    }
    match first.token
    case NullToken => return true;
    case BoolToken(_) => return true;
    case NumberToken(_) => return true;
    case StringToken(_) => return true;
    case CloseObject => return false;
    case CloseArray => return false;
    case OpenObject =>
      if depth + 1 > MAX_DEPTH {
        return false;
      }
      ok := WalkMembers(decoder, depth + 1);
    case OpenArray =>
      if depth + 1 > MAX_DEPTH {
        return false;
      }
      ok := WalkItems(decoder, depth + 1);
  }

  method WalkMembers(decoder: Decoder, depth: nat) returns (ok: bool)
    requires decoder.Valid()
    modifies decoder
    ensures decoder.Valid()
    ensures ok <==> ParseMembers(old(decoder.Remaining()), depth, {}).Some?
    ensures ok ==> decoder.Remaining() == ParseMembers(old(decoder.Remaining()), depth, {}).value.1
    decreases |decoder.Remaining()|, 1
  {
    ghost var all := decoder.Remaining();
    var names: set<string> := {};
    var more := decoder.More();
    while more
      invariant decoder.Valid() && |decoder.Remaining()| <= |all|
      invariant more == HasMore(decoder.Remaining())
      invariant SameRest(ParseMembers(all, depth, {}), ParseMembers(decoder.Remaining(), depth, names))
      decreases |decoder.Remaining()|
    {
      var name := decoder.Token();
      if !name.Got? || !name.token.StringToken? || name.token.text in names {
        return false;
      }
      var good := WalkValue(decoder, depth);
      if !good {
        return false;
      }
      names := names + {name.token.text};
      more := decoder.More();
    }
    var closing := decoder.Token();
    return closing == Got(CloseObject);
  }

  method WalkItems(decoder: Decoder, depth: nat) returns (ok: bool)
    requires decoder.Valid()
    modifies decoder
    ensures decoder.Valid()
    ensures ok <==> ParseItems(old(decoder.Remaining()), depth).Some?
    ensures ok ==> decoder.Remaining() == ParseItems(old(decoder.Remaining()), depth).value.1
    decreases |decoder.Remaining()|, 1
  {
    ghost var all := decoder.Remaining();
    var more := decoder.More();
    while more
      invariant decoder.Valid() && |decoder.Remaining()| <= |all|
      invariant more == HasMore(decoder.Remaining())
      invariant SameRest(ParseItems(all, depth), ParseItems(decoder.Remaining(), depth))
      decreases |decoder.Remaining()|
    {
      var good := WalkValue(decoder, depth);
      if !good {
        return false;
      }
      more := decoder.More();
    }
    var closing := decoder.Token();
    return closing == Got(CloseArray);
  }

  // Both parses succeed together and leave the same tokens.
  ghost predicate SameRest<T>(a: Option<(T, seq<Token>)>, b: Option<(T, seq<Token>)>) {
    (a.Some? <==> b.Some?) && (a.Some? ==> a.value.1 == b.value.1)
  }

  // The whole-document decision: one value and then the end of the stream.
  function ParseDocument(stream: Stream): Option<Json> {
    match ParseValue(stream.tokens, 0)
    case Some((v, rest)) => if rest == [] && stream.cleanEnd then Some(v) else None
    case None => None
  }

  method WalkDocument(stream: Stream) returns (ok: bool)
    ensures ok <==> ParseDocument(stream).Some?
  {
    var decoder := new Decoder(stream);
    assert decoder.Remaining() == stream.tokens;
    ok := WalkValue(decoder, 0);
    if ok {
      var trailing := decoder.Token();
      ok := trailing == AtEnd;
    }
  }

  // ---- trees and their tokens ----

  function Flatten(v: Json): seq<Token>
    decreases v
  {
    match v
    case JNull => [NullToken]
    case JBool(b) => [BoolToken(b)]
    case JNum(d) => [NumberToken(d)]
    case JStr(s) => [StringToken(s)]
    case JArr(items) => [OpenArray] + FlattenItems(items)
    case JObj(ms) => [OpenObject] + FlattenMembers(ms)
  }

  function FlattenItems(items: seq<Json>): seq<Token>
    decreases items
  {
    if items == [] then [CloseArray] else Flatten(items[0]) + FlattenItems(items[1..])
  }

  function FlattenMembers(ms: seq<Member>): seq<Token>
    decreases ms
  {
    if ms == [] then [CloseObject]
    else [StringToken(ms[0].name)] + (Flatten(ms[0].value) + FlattenMembers(ms[1..]))
  }

  // Container nesting is at most this many levels.
  predicate Fits(v: Json, levels: int)
    decreases v
  {
    match v
    case JArr(items) => levels > 0 && forall i | 0 <= i < |items| :: Fits(items[i], levels - 1)
    case JObj(ms) => levels > 0 && forall i | 0 <= i < |ms| :: Fits(ms[i].value, levels - 1)
    case _ => true
  }

  // Distinct names, none of them already taken, over strict values that fit.
  ghost predicate GoodMembers(ms: seq<Member>, levels: int, names: set<string>) {
    DistinctNames(ms)
    && forall i :: 0 <= i < |ms| ==>
         ms[i].name !in names && Unique(ms[i].value) && Fits(ms[i].value, levels)
  }

  ghost predicate GoodItems(items: seq<Json>, levels: int) {
    forall i :: 0 <= i < |items| ==> Unique(items[i]) && Fits(items[i], levels)
  }

  lemma {:induction false} FlattenHead(v: Json)
    ensures HasMore(Flatten(v))
  {
  }

  lemma {:induction false} ParseSound(tokens: seq<Token>, depth: nat)
    requires ParseValue(tokens, depth).Some?
    ensures var (v, rest) := ParseValue(tokens, depth).value;
      tokens == Flatten(v) + rest && Unique(v) && Fits(v, MAX_DEPTH - depth)
    decreases |tokens|, 0
  {
    hide ParseMembers, ParseItems;
    assert tokens == [tokens[0]] + tokens[1..];
    match tokens[0]
    case OpenObject => MembersSound(tokens[1..], depth + 1, {});
    case OpenArray => ItemsSound(tokens[1..], depth + 1);
    case _ =>
  }

  lemma {:induction false} MembersSound(tokens: seq<Token>, depth: nat, names: set<string>)
    requires ParseMembers(tokens, depth, names).Some?
    ensures var (ms, rest) := ParseMembers(tokens, depth, names).value;
      tokens == FlattenMembers(ms) + rest && GoodMembers(ms, MAX_DEPTH - depth, names)
    decreases |tokens|, 1
  {
    hide ParseValue, Unique, Fits;
    assert tokens == [tokens[0]] + tokens[1..];
    if HasMore(tokens) {
      var (v, rest) := ParseValue(tokens[1..], depth).value;
      ParseSound(tokens[1..], depth);
      MembersSound(rest, depth, names + {tokens[0].text});
      var (ms, rest') := ParseMembers(rest, depth, names + {tokens[0].text}).value;
      var all := [Member(tokens[0].text, v)] + ms;
      assert all[1..] == ms;
      MembersText(tokens[0].text, v, ms, rest');
    }
  }

  lemma MembersText(name: string, v: Json, ms: seq<Member>, rest: seq<Token>)
    ensures FlattenMembers([Member(name, v)] + ms) + rest ==
      [StringToken(name)] + (Flatten(v) + (FlattenMembers(ms) + rest))
  {
    hide Flatten;
    assert ([Member(name, v)] + ms)[1..] == ms;
  }

  lemma {:induction false} ItemsSound(tokens: seq<Token>, depth: nat)
    requires ParseItems(tokens, depth).Some?
    ensures var (items, rest) := ParseItems(tokens, depth).value;
      tokens == FlattenItems(items) + rest && GoodItems(items, MAX_DEPTH - depth)
    decreases |tokens|, 1
  {
    hide ParseValue, Unique, Fits;
    assert tokens == [tokens[0]] + tokens[1..];
    if HasMore(tokens) {
      var (v, rest) := ParseValue(tokens, depth).value;
      ParseSound(tokens, depth);
      ItemsSound(rest, depth);
      var (items, rest') := ParseItems(rest, depth).value;
      assert ([v] + items)[1..] == items;
      assert Flatten(v) + (FlattenItems(items) + rest') == Flatten(v) + FlattenItems(items) + rest';
    }
  }

  lemma {:induction false} ParseComplete(v: Json, rest: seq<Token>, depth: nat)
    requires Unique(v) && Fits(v, MAX_DEPTH - depth)
    ensures ParseValue(Flatten(v) + rest, depth) == Some((v, rest))
    decreases v, 0
  {
    hide ParseMembers, ParseItems;
    var tokens := Flatten(v) + rest;
    match v
    case JObj(ms) =>
      assert tokens[1..] == FlattenMembers(ms) + rest;
      MembersComplete(ms, rest, depth + 1, {});
    case JArr(items) =>
      assert tokens[1..] == FlattenItems(items) + rest;
      ItemsComplete(items, rest, depth + 1);
    case _ => assert tokens[1..] == rest;
  }

  lemma {:induction false} MembersComplete(ms: seq<Member>, rest: seq<Token>, depth: nat, names: set<string>)
    requires GoodMembers(ms, MAX_DEPTH - depth, names)
    ensures ParseMembers(FlattenMembers(ms) + rest, depth, names) == Some((ms, rest))
    decreases ms, 1
  {
    hide ParseValue, Flatten, Unique, Fits;
    var tokens := FlattenMembers(ms) + rest;
    if ms == [] {
      assert tokens[1..] == rest;
    } else {
      var tail := FlattenMembers(ms[1..]) + rest;
      assert tokens == [StringToken(ms[0].name)] + (Flatten(ms[0].value) + tail);
      assert tokens[1..] == Flatten(ms[0].value) + tail;
      ParseComplete(ms[0].value, tail, depth);
      MembersComplete(ms[1..], rest, depth, names + {ms[0].name});
      assert ms == [Member(ms[0].name, ms[0].value)] + ms[1..];
    }
  }

  lemma {:induction false} ItemsComplete(items: seq<Json>, rest: seq<Token>, depth: nat)
    requires GoodItems(items, MAX_DEPTH - depth)
    ensures ParseItems(FlattenItems(items) + rest, depth) == Some((items, rest))
    decreases items, 1
  {
    hide ParseValue, Flatten, Unique, Fits;
    var tokens := FlattenItems(items) + rest;
    if items == [] {
      assert tokens[1..] == rest;
    } else {
      var tail := FlattenItems(items[1..]) + rest;
      assert tokens == Flatten(items[0]) + tail;
      FlattenHead(items[0]);
      assert tokens[0] == Flatten(items[0])[0];
      ParseComplete(items[0], tail, depth);
      ItemsComplete(items[1..], rest, depth);
      assert items == [items[0]] + items[1..];
    }
  }

  // How many containers lie within one another at most.
  function Nesting(v: Json): nat
    decreases v, 0
  {
    match v
    case JArr(items) => 1 + Deepest(items)
    case JObj(ms) => 1 + DeepestMember(ms)
    case _ => 0
  }

  function Deepest(items: seq<Json>): nat
    decreases items, 0
  {
    if items == [] then 0
    else if Nesting(items[0]) > Deepest(items[1..]) then Nesting(items[0]) else Deepest(items[1..])
  }

  function DeepestMember(ms: seq<Member>): nat
    decreases ms, 0
  {
    if ms == [] then 0
    else if Nesting(ms[0].value) > DeepestMember(ms[1..]) then Nesting(ms[0].value) else DeepestMember(ms[1..])
  }

  lemma {:induction false} FitsNesting(v: Json, levels: int)
    requires levels >= 0
    ensures Fits(v, levels) <==> Nesting(v) <= levels
    decreases v, 0
  {
    if levels > 0 {
      match v
      case JArr(items) => ItemsNesting(items, levels - 1);
      case JObj(ms) => MembersNesting(ms, levels - 1);
      case _ =>
    }
  }

  lemma {:induction false} ItemsNesting(items: seq<Json>, levels: int)
    requires levels >= 0
    ensures (forall i | 0 <= i < |items| :: Fits(items[i], levels)) <==> Deepest(items) <= levels
    decreases items, 0
  {
    hide Fits, Nesting;
    if items != [] {
      FitsNesting(items[0], levels);
      ItemsNesting(items[1..], levels);
      assert forall i | 0 < i < |items| :: items[i] == items[1..][i - 1];
    }
  }

  lemma {:induction false} MembersNesting(ms: seq<Member>, levels: int)
    requires levels >= 0
    ensures (forall i | 0 <= i < |ms| :: Fits(ms[i].value, levels)) <==> DeepestMember(ms) <= levels
    decreases ms, 0
  {
    hide Fits, Nesting;
    if ms != [] {
      FitsNesting(ms[0].value, levels);
      MembersNesting(ms[1..], levels);
      assert forall i | 0 < i < |ms| :: ms[i] == ms[1..][i - 1];
    }
  }

  // A strict tree: at most sixteen containers within one another, and distinct names in every object.
  predicate Strict(v: Json) { Unique(v) && Nesting(v) <= 16 }

  /** The walk and end check read tree v from exactly v's own tokens, for every strict tree v, and
      accept nothing else. */
  lemma {:induction false} DocumentExact(stream: Stream, v: Json)
    ensures ParseDocument(stream) == Some(v) <==>
      stream.tokens == Flatten(v) && stream.cleanEnd && Strict(v)
  {
    FitsNesting(v, MAX_DEPTH);
    if ParseDocument(stream) == Some(v) {
      ParseSound(stream.tokens, 0);
      assert Flatten(v) + [] == Flatten(v);
    }
    if stream.tokens == Flatten(v) && Strict(v) {
      ParseComplete(v, [], 0);
      assert Flatten(v) + [] == Flatten(v);
    }
  }
}
