/** UTF-8 (RFC 3629 section 4) and Go's one-rune decoder over it. */
module Utf8 {
  import opened Options

  type Byte = b: int | 0 <= b < 256

  const RUNE_ERROR := 0xFFFD

  function EncodeChar(c: char): (r: seq<Byte>)
    ensures 1 <= |r| <= 4
  {
    var v := c as int;
    if v < 0x80 then [v]
    else if v < 0x800 then [0xC0 + v / 64, 0x80 + v % 64]
    else if v < 0x10000 then [0xE0 + v / 64 / 64, 0x80 + v / 64 % 64, 0x80 + v % 64]
    else [0xF0 + v / 64 / 64 / 64, 0x80 + v / 64 / 64 % 64, 0x80 + v / 64 % 64, 0x80 + v % 64]
  }

  /** The examples of RFC 3629 section 7, one for each width. */
  lemma EncodeExamples()
    ensures EncodeChar('A') == [0x41] && EncodeChar(0x0391 as char) == [0xCE, 0x91]
    ensures EncodeChar(0x2262 as char) == [0xE2, 0x89, 0xA2] && EncodeChar(0xD55C as char) == [0xED, 0x95, 0x9C]
    ensures EncodeChar(0x233B4 as char) == [0xF0, 0xA3, 0x8E, 0xB4]
  {
  }

  function Encode(s: string): seq<Byte> {
    if s == "" then [] else EncodeChar(s[0]) + Encode(s[1..])
  }

  // The payload left when a byte's marker bits are removed.
  function Bits(b: Byte, marker: int): int { (b as int) - marker }

  predicate Continuation(b: Byte) { 0x80 <= b <= 0xBF }

  // Which second bytes may follow a lead byte.
  predicate AcceptsSecond(lead: Byte, b: Byte) {
    Continuation(b)
    && (lead == 0xE0 ==> 0xA0 <= b) && (lead == 0xED ==> b <= 0x9F)
    && (lead == 0xF0 ==> 0x90 <= b) && (lead == 0xF4 ==> b <= 0x8F)
  }

  // `utf8.DecodeRuneInString`: the first rune and its width, (RuneError, 1) on an invalid prefix.
  function DecodeRune(s: seq<Byte>): (r: (int, nat))
    ensures s != [] ==> 1 <= r.1 <= |s|
  {
    if s == [] then (RUNE_ERROR, 0)
    else if s[0] < 0x80 then (s[0], 1)
    else if s[0] < 0xC2 || s[0] > 0xF4 then (RUNE_ERROR, 1)
    else if s[0] < 0xE0 then
      (if |s| < 2 || !AcceptsSecond(s[0], s[1]) then (RUNE_ERROR, 1)
       else (64 * Bits(s[0], 0xC0) + Bits(s[1], 0x80), 2))
    else if s[0] < 0xF0 then
      (if |s| < 3 || !AcceptsSecond(s[0], s[1]) || !Continuation(s[2]) then (RUNE_ERROR, 1)
       else (64 * (64 * Bits(s[0], 0xE0) + Bits(s[1], 0x80)) + Bits(s[2], 0x80), 3))
    else if |s| < 4 || !AcceptsSecond(s[0], s[1]) || !Continuation(s[2]) || !Continuation(s[3]) then
      (RUNE_ERROR, 1)
    else (64 * (64 * (64 * Bits(s[0], 0xF0) + Bits(s[1], 0x80)) + Bits(s[2], 0x80)) + Bits(s[3], 0x80), 4)
  }

  predicate Invalid(r: (int, nat)) { r == (RUNE_ERROR, 1) }

  lemma DecodeEncode(c: char, rest: seq<Byte>)
    ensures DecodeRune(EncodeChar(c) + rest) == (c as int, |EncodeChar(c)|)
  {
    var e, s := EncodeChar(c), EncodeChar(c) + rest;
    assert forall i :: 0 <= i < |e| ==> s[i] == e[i];
    var v := c as int;
    var p, q := v / 64, v / 64 / 64;
    assert v == 64 * p + v % 64 && p == 64 * q + p % 64 && q == 64 * (q / 64) + q % 64;
  }

  // The scalar a valid prefix denotes.
  predicate Scalar(v: int) { 0 <= v < 0xD800 || 0xE000 <= v <= 0x10FFFF }

  lemma DecodeScalar(s: seq<Byte>)
    requires s != [] && !Invalid(DecodeRune(s))
    ensures Scalar(DecodeRune(s).0)
    ensures EncodeChar(DecodeRune(s).0 as char) == s[..DecodeRune(s).1]
  {
    var (v, size) := DecodeRune(s);
    if size == 2 {
      assert v / 64 == Bits(s[0], 0xC0) && v % 64 == Bits(s[1], 0x80);
    } else if size == 3 {
      var p := 64 * Bits(s[0], 0xE0) + Bits(s[1], 0x80);
      assert v / 64 == p && v % 64 == Bits(s[2], 0x80) && p / 64 == Bits(s[0], 0xE0) && p % 64 == Bits(s[1], 0x80);
    } else if size == 4 {
      var q := 64 * Bits(s[0], 0xF0) + Bits(s[1], 0x80);
      var p := 64 * q + Bits(s[2], 0x80);
      assert v / 64 == p && v % 64 == Bits(s[3], 0x80) && p / 64 == q && p % 64 == Bits(s[2], 0x80);
      assert q / 64 == Bits(s[0], 0xF0) && q % 64 == Bits(s[1], 0x80);
    }
  }

  function Decode(s: seq<Byte>): Option<string>
    decreases |s|
  {
    if s == [] then Some("")
    else if Invalid(DecodeRune(s)) then None
    else
      DecodeScalar(s);
      match Decode(s[DecodeRune(s).1..])
      case None => None
      case Some(rest) => Some([DecodeRune(s).0 as char] + rest)
  }

  /** Decoding undoes encoding. */
  lemma {:induction false} DecodeOfEncode(s: string)
    ensures Decode(Encode(s)) == Some(s)
  {
    hide EncodeChar, DecodeRune;
    if s != "" {
      var rest := Encode(s[1..]);
      var e := EncodeChar(s[0]) + rest;
      DecodeEncode(s[0], rest);
      DecodeOfEncode(s[1..]);
      assert e[|EncodeChar(s[0])|..] == rest;
      assert s == [s[0]] + s[1..];
      NotInvalid(s[0], rest);
    }
  }

  // U+FFFD itself is three bytes wide, so it is never mistaken for an error.
  lemma NotInvalid(c: char, rest: seq<Byte>)
    ensures !Invalid(DecodeRune(EncodeChar(c) + rest))
  {
    DecodeEncode(c, rest);
  }

  /** The decodable byte strings are exactly the encodings, each of one text. */
  lemma {:induction false} DecodeExact(s: seq<Byte>, t: string)
    ensures Decode(s) == Some(t) <==> s == Encode(t)
  {
    if s == Encode(t) {
      DecodeOfEncode(t);
    }
    if Decode(s) == Some(t) {
      EncodeOfDecode(s);
    }
  }

  lemma {:induction false} EncodeOfDecode(s: seq<Byte>)
    requires Decode(s).Some?
    ensures Encode(Decode(s).value) == s
    decreases |s|
  {
    hide EncodeChar, DecodeRune;
    if s != [] {
      var size := DecodeRune(s).1;
      DecodeScalar(s);
      EncodeOfDecode(s[size..]);
      var t := Decode(s).value;
      assert t[1..] == Decode(s[size..]).value;
      assert s == s[..size] + s[size..];
    }
  }

  lemma {:induction false} EncodeInjective(a: string, b: string)
    requires Encode(a) == Encode(b)
    ensures a == b
  {
    DecodeOfEncode(a);
    DecodeOfEncode(b);
  }

  lemma {:induction false} EncodeConcat(a: string, b: string)
    ensures Encode(a + b) == Encode(a) + Encode(b)
  {
    hide EncodeChar;
    if a == "" {
      assert a + b == b;
    } else {
      assert (a + b)[1..] == a[1..] + b;
      EncodeConcat(a[1..], b);
    }
  }

  /** `utf8.Valid`: one pass of the rune decoder. */
  method Valid(raw: seq<Byte>) returns (ok: bool)
    ensures ok <==> exists t :: raw == Encode(t)
  {
    hide DecodeRune;
    var rest := raw;
    while rest != []
      invariant Decode(raw).Some? <==> Decode(rest).Some?
      decreases |rest|
    {
      if Invalid(DecodeRune(rest)) {
        ValidExact(raw);
        return false;
      }
      rest := rest[DecodeRune(rest).1..];
    }
    ValidExact(raw);
    return true;
  }

  lemma {:induction false} ValidExact(raw: seq<Byte>)
    ensures Decode(raw).Some? <==> exists t :: raw == Encode(t)
  {
    if Decode(raw).Some? {
      EncodeOfDecode(raw);
    }
    if t :| raw == Encode(t) {
      DecodeOfEncode(t);
    }
  }

  // ---- ASCII ----

  predicate Ascii(s: string) { forall i :: 0 <= i < |s| ==> s[i] as int < 0x80 }

  lemma {:induction false} EncodeAscii(s: string)
    requires Ascii(s)
    ensures |Encode(s)| == |s| && forall i :: 0 <= i < |s| ==> Encode(s)[i] == s[i] as int
  {
    if s != "" {
      EncodeAscii(s[1..]);
    }
  }

  // A character beyond ASCII leaves a byte beyond ASCII.
  lemma {:induction false} AsciiBytes(s: string)
    ensures (forall i :: 0 <= i < |Encode(s)| ==> Encode(s)[i] < 0x80) ==> Ascii(s)
  {
    if s != "" {
      var e, rest := EncodeChar(s[0]), Encode(s[1..]);
      AsciiBytes(s[1..]);
      if forall i :: 0 <= i < |Encode(s)| ==> Encode(s)[i] < 0x80 {
        assert e[0] == Encode(s)[0];
        forall i | 0 <= i < |rest| ensures rest[i] < 0x80 {
          assert rest[i] == Encode(s)[|e| + i];
        }
      }
    }
  }

  lemma {:induction false} AsciiDecodes(s: seq<Byte>)
    requires forall i :: 0 <= i < |s| ==> s[i] < 0x80
    ensures Decode(s).Some?
  {
    if s != [] {
      AsciiDecodes(s[1..]);
    }
  }
}
