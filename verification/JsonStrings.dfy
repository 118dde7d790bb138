/** The strings that the canonical serialiser writes, read by the unescaping rule of RFC 8259 section 7. */
module JsonStrings {
  import J = JsonText
  import opened Options
  import opened SurrogateScan
  import opened Utf8

  // The code points of a text.
  function Points(s: string): (r: seq<int>)
    ensures |r| == |s| && forall i :: 0 <= i < |s| ==> r[i] == s[i] as int
  {
    seq(|s|, i requires 0 <= i < |s| => s[i] as int)
  }

  // The units in which a character is escaped.
  function UnitsOf(c: char): seq<Unit> {
    if c == '\"' || c == '\\' then [Simple(c as int)]
    else if c == '\n' then [Simple(0x6E)]
    else if c == '\r' then [Simple(0x72)]
    else if c == '\t' then [Simple(0x74)]
    else if c as int == 8 then [Simple(0x62)]
    else if c as int == 12 then [Simple(0x66)]
    else if ' ' <= c <= '~' then [Plain(c)]
    else if c as int < 0x10000 then [Unicode(Encode(J.Hex4(c as int)))]
    else
      var v := c as int - 0x10000;
      [Unicode(Encode(J.Hex4(0xD800 + v / 0x400))), Unicode(Encode(J.Hex4(0xDC00 + v % 0x400)))]
  }

  function AllUnits(s: string): seq<Unit> {
    if s == "" then [] else UnitsOf(s[0]) + AllUnits(s[1..])
  }

  lemma HexByte(d: nat)
    requires d < 16
    ensures J.HexChar(d) as int < 0x80 && HexValue(J.HexChar(d) as int) == Some(d)
  {
  }

  // Four written digits are a valid escape of the number they were written from.
  lemma HexWritten(n: nat)
    requires n < 0x10000
    ensures Ascii(J.Hex4(n)) && |Encode(J.Hex4(n))| == 4 && HexNumber(Encode(J.Hex4(n))) == Some(n)
  {
    var t := J.Hex4(n);
    var (p, q) := (n / 16 / 16, n / 16);
    HexByte(p / 16);
    HexByte(p % 16);
    HexByte(q % 16);
    HexByte(n % 16);
    assert n == 16 * q + n % 16 && q == 16 * p + q % 16 && p == 16 * (p / 16) + p % 16;
    hide J.HexChar, HexValue, Encode;
    EncodeAscii(t);
    var e := Encode(t);
    HexPlaces(e[0], e[1], e[2], e[3]);
    assert e == [e[0], e[1], e[2], e[3]];
  }

  lemma EncodeOne(c: char)
    ensures Encode([c]) == EncodeChar(c)
  {
    assert [c][1..] == "";
    assert EncodeChar(c) + [] == EncodeChar(c);
  }

  lemma EncodePair(a: char, b: char)
    requires a as int < 0x80 && b as int < 0x80
    ensures Encode([a, b]) == [a as int, b as int]
  {
    assert [a, b][1..] == [b];
    EncodeOne(b);
  }

  // A four-digit escape, as units and as text.
  lemma UnicodeWritten(n: nat)
    requires n < 0x10000
    ensures ValidUnit(Unicode(Encode(J.Hex4(n)))) && Ascii("\\u" + J.Hex4(n))
    ensures UnitBytes(Unicode(Encode(J.Hex4(n)))) == Encode("\\u" + J.Hex4(n))
  {
    HexWritten(n);
    EncodePair('\\', 'u');
    EncodeConcat("\\u", J.Hex4(n));
    hide Encode, HexNumber;
    assert "\\u" == ['\\', 'u'];
  }

  lemma FlattenOne(u: Unit)
    ensures Flatten([u]) == UnitBytes(u)
  {
    assert [u][1..] == [];
    assert UnitBytes(u) + [] == UnitBytes(u);
  }

  lemma FlattenTwo(u: Unit, v: Unit)
    ensures Flatten([u, v]) == UnitBytes(u) + UnitBytes(v)
  {
    assert [u, v][1..] == [v];
    FlattenOne(v);
  }

  lemma {:induction false} FlattenConcat(a: seq<Unit>, b: seq<Unit>)
    ensures Flatten(a + b) == Flatten(a) + Flatten(b)
  {
    hide UnitBytes;
    if a == [] {
      assert a + b == b;
    } else {
      assert (a + b)[1..] == a[1..] + b;
      FlattenConcat(a[1..], b);
    }
  }

  // An escaped character is ASCII, and valid units spell it.
  lemma EscapeUnits(c: char)
    ensures ValidUnits(UnitsOf(c)) && Ascii(J.Escape(c)) && Flatten(UnitsOf(c)) == Encode(J.Escape(c))
  {
    hide Encode, Flatten, EncodeChar, HexNumber, J.Hex4;
    if c == '\"' || c == '\\' || c == '\n' || c == '\r' || c == '\t' || c as int == 8 || c as int == 12 {
      ShortEscape(c);
    } else if ' ' <= c <= '~' {
      EncodeOne(c);
      FlattenOne(Plain(c));
    } else if c as int < 0x10000 {
      UnicodeWritten(c as int);
      FlattenOne(Unicode(Encode(J.Hex4(c as int))));
    } else {
      var v := c as int - 0x10000;
      var (high, low) := (0xD800 + v / 0x400, 0xDC00 + v % 0x400);
      UnicodeWritten(high);
      UnicodeWritten(low);
      FlattenTwo(Unicode(Encode(J.Hex4(high))), Unicode(Encode(J.Hex4(low))));
      EncodeConcat("\\u" + J.Hex4(high), "\\u" + J.Hex4(low));
    }
  }

  lemma ShortEscape(c: char)
    requires c == '\"' || c == '\\' || c == '\n' || c == '\r' || c == '\t' || c as int == 8 || c as int == 12
    ensures ValidUnits(UnitsOf(c)) && Ascii(J.Escape(c)) && Flatten(UnitsOf(c)) == Encode(J.Escape(c))
  {
    var u, t := UnitsOf(c)[0], J.Escape(c);
    FlattenOne(u);
    EncodePair(t[0], t[1]);
    assert t == [t[0], t[1]];
    assert UnitsOf(c) == [u] && UnitBytes(u) == [t[0] as int, t[1] as int];
  }

  // What a character's units decode to, whatever follows them.
  lemma CharacterPoints(c: char, rest: seq<Unit>)
    requires ValidUnits(UnitsOf(c)) && ValidUnits(rest)
    ensures ValidUnits(UnitsOf(c) + rest)
    ensures CodePoints(UnitsOf(c) + rest) == [c as int] + CodePoints(rest)
  {
    hide Encode, HexNumber, J.Hex4;
    var units := UnitsOf(c) + rest;
    if c as int >= 0x10000 {
      var v := c as int - 0x10000;
      HexWritten(0xD800 + v / 0x400);
      HexWritten(0xDC00 + v % 0x400);
      assert v == 0x400 * (v / 0x400) + v % 0x400;
      assert units[2..] == rest;
    } else {
      if !(' ' <= c <= '~') {
        HexWritten(c as int);
      }
      assert units[1..] == rest;
    }
  }

  lemma {:induction false} TextUnits(s: string)
    ensures ValidUnits(AllUnits(s)) && Flatten(AllUnits(s)) == Encode(J.EscapeAll(s))
    ensures CodePoints(AllUnits(s)) == Points(s) && Ascii(J.EscapeAll(s))
  {
    hide UnitsOf, Encode, Flatten, CodePoints, J.Escape, UnitBytes;
    if s == "" {
      Nothing();
    } else {
      var rest := AllUnits(s[1..]);
      TextUnits(s[1..]);
      EscapeUnits(s[0]);
      CharacterPoints(s[0], rest);
      FlattenConcat(UnitsOf(s[0]), rest);
      EncodeConcat(J.Escape(s[0]), J.EscapeAll(s[1..]));
      assert Points(s) == [s[0] as int] + Points(s[1..]);
    }
  }

  lemma Nothing()
    ensures Flatten([]) == [] && Encode("") == [] && CodePoints([]) == []
  {
  }

  /** What the serialiser writes for a text is one ASCII string token, and unescaping it by RFC 8259 gives
      the text's code points back. */
  lemma {:induction false} QuoteUnescapes(s: string)
    ensures Ascii(J.Quote(s)) && ValidPiece(Quoted(AllUnits(s)))
    ensures Encode(J.Quote(s)) == PieceBytes(Quoted(AllUnits(s)))
    ensures CodePoints(AllUnits(s)) == Points(s)
  {
    hide AllUnits, Encode, Flatten, CodePoints, J.EscapeAll;
    TextUnits(s);
    EncodeConcat("\"", J.EscapeAll(s) + "\"");
    EncodeConcat(J.EscapeAll(s), "\"");
    EncodeOne('\"');
    assert "\"" == ['\"'];
  }
}
