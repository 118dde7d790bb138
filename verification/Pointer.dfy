/** JSON Pointers (RFC 6901): how `pointer_join` renders one, and how sections 3 and 4 read it. */
module Pointer {
  import opened Json
  import opened Options
  import opened Text

  // `s.replace(old, new)` for a single character
  function Replace(s: string, old_: char, new_: string): string {
    if s == "" then "" else (if s[0] == old_ then new_ else [s[0]]) + Replace(s[1..], old_, new_)
  }

  function Escape(token: string): string {
    Replace(Replace(token, '~', "~0"), '/', "~1")
  }

  // `pointer_join`
  function Join(path: string, token: string): string {
    path + "/" + Escape(token)
  }

  function Render(path: string, tokens: seq<string>): string
    decreases tokens
  {
    if tokens == [] then path else Render(Join(path, tokens[0]), tokens[1..])
  }

  // Section 4: each `~1` is a slash and each `~0` a tilde; any other `~` is an error (section 3).
  function Unescape(s: string): Option<string> {
    if s == "" then Some("")
    else if s[0] == '/' then None
    else if s[0] == '~' then
      (if |s| < 2 || (s[1] != '0' && s[1] != '1') then None else
        match Unescape(s[2..])
        case None => None
        case Some(rest) => Some((if s[1] == '0' then "~" else "/") + rest))
    else match Unescape(s[1..])
      case None => None
      case Some(rest) => Some([s[0]] + rest)
  }

  // The text up to the next slash.
  function Head(s: string): (h: string)
    ensures |h| <= |s| && s[..|h|] == h && (|h| < |s| ==> s[|h|] == '/')
  {
    if s == "" || s[0] == '/' then "" else [s[0]] + Head(s[1..])
  }

  // Section 3: a pointer is a sequence of `/`-prefixed escaped tokens.
  function Parse(p: string): Option<seq<string>>
    decreases |p|
  {
    if p == "" then Some([])
    else if p[0] != '/' then None
    else
      var h := Head(p[1..]);
      match (Unescape(h), Parse(p[1 + |h|..]))
      case (Some(token), Some(tokens)) => Some([token] + tokens)
      case _ => None
  }

  // Section 4: an object member by name, an array element by decimal index without leading zero.
  function Evaluate(v: Json, tokens: seq<string>): Option<Json>
    decreases tokens
  {
    if tokens == [] then Some(v)
    else if v.JObj? then
      (if Has(v.members, tokens[0]) then Evaluate(Get(v.members, tokens[0]), tokens[1..]) else None)
    else if v.JArr? then
      (match ArrayIndex(tokens[0])
       case Some(i) => if i < |v.items| then Evaluate(v.items[i], tokens[1..]) else None
       case None => None)
    else None
  }

  function ArrayIndex(token: string): Option<nat> {
    if token != "" && (forall i :: 0 <= i < |token| ==> '0' <= token[i] <= '9')
       && (token[0] == '0' ==> |token| == 1)
    then Some(ReadNat(token)) else None
  }

  lemma ArrayIndexText(n: nat)
    ensures ArrayIndex(NatText(n)) == Some(n)
  {
    NatTextIndex(n);
  }

  // The two replacements together escape each character on its own.
  function EscapeChar(c: char): string {
    if c == '~' then "~0" else if c == '/' then "~1" else [c]
  }

  lemma {:induction false} ReplaceConcat(s: string, t: string, old_: char, new_: string)
    ensures Replace(s + t, old_, new_) == Replace(s, old_, new_) + Replace(t, old_, new_)
  {
    if s == "" {
      assert s + t == t;
    } else {
      assert (s + t)[1..] == s[1..] + t;
      ReplaceConcat(s[1..], t, old_, new_);
    }
  }

  /** Escaping goes character by character: `~0` for a tilde, `~1` for a slash, anything else as it is. */
  lemma EscapeStep(c: char, rest: string)
    ensures Escape([c] + rest) == (if c == '~' then "~0" else if c == '/' then "~1" else [c]) + Escape(rest)
    ensures Escape("") == ""
  {
    var inner := Replace(rest, '~', "~0");
    assert ([c] + rest)[1..] == rest;
    var first := if c == '~' then "~0" else [c];
    assert Replace([c] + rest, '~', "~0") == first + inner;
    ReplaceConcat(first, inner, '/', "~1");
    assert first[1..] == if c == '~' then "0" else "";
  }

  lemma {:induction false} EscapeRoundTrip(token: string)
    ensures Unescape(Escape(token)) == Some(token) && '/' !in Escape(token)
  {
    if token != "" {
      var c, rest := token[0], token[1..];
      EscapeStep(c, rest);
      EscapeRoundTrip(rest);
      assert token == [c] + rest;
      var e := EscapeChar(c) + Escape(rest);
      assert e[|EscapeChar(c)|..] == Escape(rest);
    }
  }

  lemma {:induction false} EscapeInjective(a: string, b: string)
    requires Escape(a) == Escape(b)
    ensures a == b
  {
    EscapeRoundTrip(a);
    EscapeRoundTrip(b);
  }

  lemma {:induction false} HeadStops(h: string, rest: string)
    requires '/' !in h && (rest != "" ==> rest[0] == '/')
    ensures Head(h + rest) == h
  {
    if h == "" {
      assert h + rest == rest;
    } else {
      assert (h + rest)[1..] == h[1..] + rest;
      HeadStops(h[1..], rest);
    }
  }

  lemma {:induction false} RenderPrefix(path: string, tokens: seq<string>)
    ensures Render(path, tokens) == path + Render("", tokens)
    decreases tokens
  {
    if tokens != [] {
      RenderPrefix(Join(path, tokens[0]), tokens[1..]);
      RenderPrefix(Join("", tokens[0]), tokens[1..]);
    }
  }

  lemma ParseStep(token: string, rest: string, tokens: seq<string>)
    requires Parse(rest) == Some(tokens) && (rest != "" ==> rest[0] == '/')
    ensures Parse("/" + (Escape(token) + rest)) == Some([token] + tokens)
  {
    var e := Escape(token);
    var p := "/" + (e + rest);
    EscapeRoundTrip(token);
    HeadStops(e, rest);
    assert p[1..] == e + rest;
    assert p[1 + |e|..] == rest;
  }

  lemma RenderStep(tokens: seq<string>)
    requires tokens != []
    ensures Render("", tokens) == "/" + (Escape(tokens[0]) + Render("", tokens[1..]))
  {
    hide Escape;
    RenderPrefix(Join("", tokens[0]), tokens[1..]);
    assert Render("", tokens) == Render(Join("", tokens[0]), tokens[1..]);
  }

  /** Every rendered path is a well-formed pointer that reads back as its tokens. */
  lemma {:induction false} ParseRender(tokens: seq<string>)
    ensures Parse(Render("", tokens)) == Some(tokens)
    ensures Render("", tokens) != "" ==> Render("", tokens)[0] == '/'
  {
    if tokens != [] {
      var token, rest := tokens[0], tokens[1..];
      ParseRender(rest);
      RenderStep(tokens);
      ParseStep(token, Render("", rest), rest);
      assert tokens == [token] + rest;
    }
  }
}
