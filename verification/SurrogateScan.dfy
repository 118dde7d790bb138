/** `hasValidSurrogateEscapes`: a byte scanner that pairs `\u` surrogate escapes inside strings,
    against the text that unescaping (RFC 8259 section 7) yields. */
module SurrogateScan {
  import opened Options
  import opened Utf8

  const QUOTE: Byte := 0x22
  const BACKSLASH: Byte := 0x5C
  const LETTER_U: Byte := 0x75

  // ---- the scanner ----

  function HexValue(b: Byte): (r: Option<nat>)
    ensures r.Some? ==> r.value < 16
  {
    if 0x30 <= b <= 0x39 then Some((b as int) - 0x30)
    else if 0x61 <= b <= 0x66 then Some((b as int) - 0x61 + 10)
    else if 0x41 <= b <= 0x46 then Some((b as int) - 0x41 + 10)
    else None
  }

  /** A digit's value is its place among the sixteen digits, in either case. */
  lemma HexValueExact(b: Byte, v: nat)
    ensures HexValue(b) == Some(v) <==>
      v < 16 && (b == "0123456789abcdef"[v] as int || b == "0123456789ABCDEF"[v] as int)
  {
    var lower, upper := "0123456789abcdef", "0123456789ABCDEF";
    assert forall i | 0 <= i < 10 :: lower[i] as int == 0x30 + i && upper[i] as int == 0x30 + i;
    assert forall i | 10 <= i < 16 :: lower[i] as int == 0x61 + i - 10 && upper[i] as int == 0x41 + i - 10;
  }

  // The value of up to four leading hex digits, most significant first.
  function HexNumber(digits: seq<Byte>): (r: Option<nat>)
    decreases |digits|
  {
    if digits == [] then Some(0)
    else match (HexNumber(digits[..|digits| - 1]), HexValue(digits[|digits| - 1]))
      case (Some(high), Some(low)) => Some(high * 16 + low)
      case _ => None
  }

  // `decodeHexEscape`: four hex digits from `start`, as an unsigned 16-bit value
  method DecodeHexEscape(raw: seq<Byte>, start: int) returns (code: Option<nat>)
    ensures code == HexAt(raw, start)
    ensures code.Some? ==> code.value < 0x10000
  {
    if start < 0 || start + 4 > |raw| {
      return None;
    }
    var digits := raw[start..start + 4];
    var value := 0;
    for i := 0 to 4
      invariant HexNumber(digits[..i]) == Some(value)
      invariant i == 0 ==> value < 1
      invariant i == 1 ==> value < 0x10
      invariant i == 2 ==> value < 0x100
      invariant i == 3 ==> value < 0x1000
      invariant value < 0x10000
    {
      assert digits[..i + 1][..i] == digits[..i];
      match HexValue(digits[i])
      case None =>
        HexBroken(digits, i + 1);
        return None;
      case Some(digit) => value := value * 16 + digit;
    }
    assert digits[..4] == digits;
    return Some(value);
  }

  /** Four digits weigh 4096, 256, 16 and 1, in this order. */
  lemma HexPlaces(a: Byte, b: Byte, c: Byte, d: Byte)
    ensures HexNumber([a, b, c, d]) ==
      match (HexValue(a), HexValue(b), HexValue(c), HexValue(d))
      case (Some(w), Some(x), Some(y), Some(z)) => Some(w * 4096 + x * 256 + y * 16 + z)
      case _ => None
  {
    HexLast([], a);
    HexLast([a], b);
    HexLast([a, b], c);
    HexLast([a, b, c], d);
    assert [] + [a] == [a] && [a] + [b] == [a, b] && [a, b] + [c] == [a, b, c] && [a, b, c] + [d] == [a, b, c, d];
    assert HexNumber([]) == Some(0);
    hide HexValue, HexNumber;
  }

  lemma HexLast(front: seq<Byte>, d: Byte)
    ensures HexNumber(front + [d]) ==
      match (HexNumber(front), HexValue(d)) { case (Some(x), Some(y)) => Some(x * 16 + y) case _ => None }
  {
    assert (front + [d])[..|front|] == front;
  }

  lemma {:induction false} HexBroken(digits: seq<Byte>, i: nat)
    requires i <= |digits| && HexNumber(digits[..i]).None?
    ensures HexNumber(digits).None?
    decreases |digits| - i
  {
    if i < |digits| {
      assert digits[..i + 1][..i] == digits[..i];
      HexBroken(digits, i + 1);
    } else {
      assert digits[..i] == digits;
    }
  }

  function HexAt(raw: seq<Byte>, start: int): Option<nat> {
    if start < 0 || start + 4 > |raw| then None else HexNumber(raw[start..start + 4])
  }

  predicate High(code: nat) { 0xD800 <= code <= 0xDBFF }
  predicate Low(code: nat) { 0xDC00 <= code <= 0xDFFF }

  // A low surrogate escape starts at the front.
  predicate LowEscape(s: seq<Byte>) {
    |s| >= 6 && s[0] == BACKSLASH && s[1] == LETTER_U
    && HexAt(s, 2).Some? && Low(HexAt(s, 2).value)
  }

  // One turn of the loop: how many bytes it passes and `inString` after it, or a refusal.
  function Turn(s: seq<Byte>, inString: bool): (r: Option<(nat, bool)>)
    requires s != []
    ensures r.Some? ==> 1 <= r.value.0 <= |s|
  {
    if s[0] == QUOTE then Some((1, !inString))
    else if s[0] != BACKSLASH || !inString then Some((1, inString))
    else if |s| < 2 then None
    else if s[1] != LETTER_U then Some((2, inString))
    else match HexAt(s, 2)
      case None => None
      case Some(code) =>
        if High(code) then (if LowEscape(s[6..]) then Some((12, inString)) else None)
        else if Low(code) then None
        else Some((6, inString))
  }

  // An escape of this code starts at a place.
  predicate EscapeAt(s: seq<Byte>, at: nat, low: nat, high: nat) {
    at + 6 <= |s| && s[at] == 0x5C && s[at + 1] == 0x75
    && HexAt(s, at + 2).Some? && low <= HexAt(s, at + 2).value <= high
  }

  /** Any bytes at all: a turn is refused exactly inside a string, at a backslash that ends the input, at
      a `\u` without four hex digits, at a low surrogate, or at a high one without a low one behind it. */
  lemma TurnExact(s: seq<Byte>, inString: bool)
    requires s != []
    ensures Turn(s, inString).None? <==>
      inString && s[0] == 0x5C
      && (|s| == 1
          || (s[1] == 0x75
              && (!EscapeAt(s, 0, 0, 0xFFFF) || EscapeAt(s, 0, 0xDC00, 0xDFFF)
                  || (EscapeAt(s, 0, 0xD800, 0xDBFF) && !EscapeAt(s, 6, 0xDC00, 0xDFFF)))))
    ensures Turn(s, inString).Some? ==>
      Turn(s, inString).value == (
        if s[0] == 0x22 then (1, !inString)
        else if s[0] != 0x5C || !inString then (1, inString)
        else if s[1] != 0x75 then (2, inString)
        else if EscapeAt(s, 0, 0xD800, 0xDBFF) then (12, inString) else (6, inString))
  {
    if |s| >= 6 {
      HexBounded(s, 2);
      if |s| >= 12 {
        HexShift(s, 6, 2);
      }
    }
    hide HexNumber;
  }

  lemma HexBounded(s: seq<Byte>, at: nat)
    ensures HexAt(s, at).Some? ==> HexAt(s, at).value < 0x10000
  {
    if at + 4 <= |s| {
      var d := s[at..at + 4];
      HexPlaces(d[0], d[1], d[2], d[3]);
      assert d == [d[0], d[1], d[2], d[3]];
    }
  }

  // The scanner's verdict on the bytes that remain.
  function Scan(s: seq<Byte>, inString: bool): bool
    decreases |s|
  {
    s == [] ||
    match Turn(s, inString)
    case None => false
    case Some((width, after)) => Scan(s[width..], after)
  }

  // A turn of the loop: the index it starts at, and `inString` there.
  datatype Visit = Visit(index: nat, inString: bool)

  // Every turn the scanner takes from an index on, up to its verdict.
  function Visits(s: seq<Byte>, at: nat, inString: bool): seq<Visit>
    decreases |s|
  {
    if s == [] then []
    else match Turn(s, inString)
      case None => [Visit(at, inString)]
      case Some((width, after)) => [Visit(at, inString)] + Visits(s[width..], at + width, after)
  }

  method HasValidSurrogateEscapes(raw: seq<Byte>) returns (ok: bool, ghost visits: seq<Visit>)
    ensures ok == Scan(raw, false)
    ensures visits == Visits(raw, 0, false)
  {
    hide HexNumber;
    var inString, index := false, 0;
    visits := [];
    assert raw[0..] == raw;
    while index < |raw|
      invariant 0 <= index <= |raw|
      invariant Scan(raw, false) == Scan(raw[index..], inString)
      invariant Visits(raw, 0, false) == visits + Visits(raw[index..], index, inString)
      decreases |raw| - index
    {
      ghost var turn := TurnAt(raw, index, inString);
      Unfold(raw, index, inString, visits);
      visits := visits + [Visit(index, inString)];
      hide Scan, Visits, Turn;
      if raw[index] == QUOTE {
        inString := !inString;
      } else if raw[index] == BACKSLASH && inString {
        index := index + 1;
        if index >= |raw| {
          return false, visits;
        }
        if raw[index] == LETTER_U {
          var code := DecodeHexEscape(raw, index + 1);
          if code.None? {
            return false, visits;
          }
          index := index + 4;
          if High(code.value) {
            if index + 6 >= |raw| || raw[index + 1] != BACKSLASH || raw[index + 2] != LETTER_U {
              return false, visits;
            }
            var low := DecodeHexEscape(raw, index + 3);
            if low.None? || low.value < 0xDC00 || low.value > 0xDFFF {
              return false, visits;
            }
            index := index + 6;
          } else if Low(code.value) {
            return false, visits;
          }
        }
      }
      index := index + 1;
    }
    return true, visits;
  }

  // A turn in terms of the whole input, as the loop reads it.
  ghost function TurnAt(raw: seq<Byte>, index: nat, inString: bool): (r: Option<(nat, bool)>)
    requires index < |raw|
    ensures r == Turn(raw[index..], inString)
  {
    var s := raw[index..];
    HexShift(raw, index, 2);
    if raw[index] == QUOTE then Some((1, !inString))
    else if raw[index] != BACKSLASH || !inString then Some((1, inString))
    else if index + 1 >= |raw| then None
    else if raw[index + 1] != LETTER_U then Some((2, inString))
    else match HexAt(raw, index + 2)
      case None => None
      case Some(code) =>
        HexShift(s, 6, 2);
        HexShift(raw, index, 8);
        if High(code) then
          (if index + 11 >= |raw| || raw[index + 6] != BACKSLASH || raw[index + 7] != LETTER_U
              || HexAt(raw, index + 8).None? || !Low(HexAt(raw, index + 8).value)
           then None else Some((12, inString)))
        else if Low(code) then None
        else Some((6, inString))
  }

  lemma HexShift(raw: seq<Byte>, index: nat, at: nat)
    ensures index <= |raw| ==> HexAt(raw[index..], at) == HexAt(raw, index + at)
  {
    if index <= |raw| && index + at + 4 <= |raw| {
      assert raw[index..][at..at + 4] == raw[index + at..index + at + 4];
    }
  }

  lemma Unfold(raw: seq<Byte>, index: nat, inString: bool, visits: seq<Visit>)
    requires index < |raw|
    ensures match Turn(raw[index..], inString)
      case None => !Scan(raw[index..], inString) && Visits(raw[index..], index, inString) == [Visit(index, inString)]
      case Some((width, after)) =>
        Scan(raw[index..], inString) == Scan(raw[index + width..], after)
        && visits + Visits(raw[index..], index, inString)
           == visits + [Visit(index, inString)] + Visits(raw[index + width..], index + width, after)
  {
    var s := raw[index..];
    UnfoldScan(s, inString);
    UnfoldVisits(s, index, inString);
    hide Turn, Scan, Visits;
    if Turn(s, inString).Some? {
      var width := Turn(s, inString).value.0;
      assert s[width..] == raw[index + width..];
    }
  }

  lemma UnfoldScan(s: seq<Byte>, inString: bool)
    requires s != []
    ensures Scan(s, inString) ==
      match Turn(s, inString) { case None => false case Some((width, after)) => Scan(s[width..], after) }
  {
    hide Turn;
  }

  lemma UnfoldVisits(s: seq<Byte>, at: nat, inString: bool)
    requires s != []
    ensures Visits(s, at, inString) == [Visit(at, inString)] +
      match Turn(s, inString) { case None => [] case Some((width, after)) => Visits(s[width..], at + width, after) }
  {
    hide Turn;
  }

  // ---- JSON strings and the text they decode to ----

  datatype Unit =
    | Plain(c: char)                // an unescaped character
    | Simple(letter: Byte)          // one of the two-character escapes
    | Unicode(digits: seq<Byte>)    // a four-digit escape

  // RFC 8259 section 7
  predicate ValidUnit(u: Unit) {
    match u
    case Plain(c) => c >= ' ' && c != '\"' && c != '\\'
    case Simple(letter) => letter in [0x22, 0x5C, 0x2F, 0x62, 0x66, 0x6E, 0x72, 0x74]
    case Unicode(digits) => |digits| == 4 && HexNumber(digits).Some?
  }

  function UnitBytes(u: Unit): seq<Byte> {
    match u
    case Plain(c) => EncodeChar(c)
    case Simple(letter) => [BACKSLASH, letter]
    case Unicode(digits) => [BACKSLASH, LETTER_U] + digits
  }

  function Flatten(units: seq<Unit>): seq<Byte> {
    if units == [] then [] else UnitBytes(units[0]) + Flatten(units[1..])
  }

  predicate ValidUnits(units: seq<Unit>) { forall i | 0 <= i < |units| :: ValidUnit(units[i]) }

  function SimpleValue(letter: Byte): int {
    if letter == 0x62 then 8 else if letter == 0x66 then 12 else if letter == 0x6E then 10
    else if letter == 0x72 then 13 else if letter == 0x74 then 9 else letter as int
  }

  /** The two-character escapes of RFC 8259 section 7, and what each stands for. */
  lemma SimpleExact(letter: Byte)
    ensures ValidUnit(Simple(letter)) <==> exists i | 0 <= i < 8 :: letter == "\"\\/bfnrt"[i] as int
    ensures forall i | 0 <= i < 8 ::
      letter == "\"\\/bfnrt"[i] as int ==> SimpleValue(letter) == [0x22, 0x5C, 0x2F, 8, 12, 10, 13, 9][i]
  {
    var s := "\"\\/bfnrt";
    assert s[0] as int == 0x22 && s[1] as int == 0x5C && s[2] as int == 0x2F && s[3] as int == 0x62
      && s[4] as int == 0x66 && s[5] as int == 0x6E && s[6] as int == 0x72 && s[7] as int == 0x74;
  }

  predicate HighUnit(u: Unit)
    requires ValidUnit(u)
  {
    u.Unicode? && High(HexNumber(u.digits).value)
  }

  predicate LowUnit(u: Unit)
    requires ValidUnit(u)
  {
    u.Unicode? && Low(HexNumber(u.digits).value)
  }

  // An escaped high surrogate and its partner stand at the front.
  predicate Paired(units: seq<Unit>)
    requires ValidUnits(units)
  {
    |units| > 1 && HighUnit(units[0]) && LowUnit(units[1])
  }

  // The scalar a surrogate pair stands for.
  function Combined(high: int, low: int): int { 0x10000 + (high - 0xD800) * 0x400 + (low - 0xDC00) }

  function UnitPoint(u: Unit): int
    requires ValidUnit(u)
  {
    match u
    case Plain(c) => c as int
    case Simple(letter) => SimpleValue(letter)
    case Unicode(digits) => HexNumber(digits).value
  }

  // The code points a JSON reader produces: an escaped surrogate pair becomes its scalar, and an
  // escaped surrogate that has no partner is left as it is.
  function CodePoints(units: seq<Unit>): seq<int>
    requires ValidUnits(units)
    decreases |units|
  {
    if units == [] then []
    else if Paired(units) then
      [Combined(HexNumber(units[0].digits).value, HexNumber(units[1].digits).value)] + CodePoints(units[2..])
    else [UnitPoint(units[0])] + CodePoints(units[1..])
  }

  predicate Surrogate(v: int) { 0xD800 <= v <= 0xDFFF }

  // `require_unicode_scalars` finds nothing in this string.
  predicate AllScalars(points: seq<int>) {
    forall i | 0 <= i < |points| :: !Surrogate(points[i])
  }

  // A document's bytes: string tokens, and the single bytes between them.
  datatype Piece = Between(byte: Byte) | Quoted(units: seq<Unit>)

  predicate ValidPiece(p: Piece) {
    match p
    case Between(byte) => byte != QUOTE
    case Quoted(units) => ValidUnits(units)
  }

  predicate ValidPieces(ps: seq<Piece>) { forall i | 0 <= i < |ps| :: ValidPiece(ps[i]) }

  function PieceBytes(p: Piece): seq<Byte> {
    match p
    case Between(byte) => [byte]
    case Quoted(units) => [QUOTE] + (Flatten(units) + [QUOTE])
  }

  function Document(ps: seq<Piece>): seq<Byte> {
    if ps == [] then [] else PieceBytes(ps[0]) + Document(ps[1..])
  }

  predicate PieceScalars(p: Piece)
    requires ValidPiece(p)
  {
    p.Quoted? ==> AllScalars(CodePoints(p.units))
  }

  predicate StringsScalar(ps: seq<Piece>)
    requires ValidPieces(ps)
  {
    forall i | 0 <= i < |ps| :: PieceScalars(ps[i])
  }

  lemma {:induction false} ScanOrdinary(s: seq<Byte>, rest: seq<Byte>, inString: bool)
    requires forall i :: 0 <= i < |s| ==> s[i] != QUOTE && (inString ==> s[i] != BACKSLASH)
    ensures Scan(s + rest, inString) == Scan(rest, inString)
  {
    if s == [] {
      assert s + rest == rest;
    } else {
      assert (s + rest)[1..] == s[1..] + rest;
      ScanOrdinary(s[1..], rest, inString);
    }
  }

  lemma PlainOrdinary(c: char)
    requires c >= ' ' && c != '\"' && c != '\\'
    ensures forall i :: 0 <= i < |EncodeChar(c)| ==>
      EncodeChar(c)[i] != QUOTE && EncodeChar(c)[i] != BACKSLASH
  {
  }

  lemma ScanSimple(letter: Byte, rest: seq<Byte>)
    requires letter != LETTER_U
    ensures Scan([BACKSLASH, letter] + rest, true) == Scan(rest, true)
  {
    assert ([BACKSLASH, letter] + rest)[2..] == rest;
  }

  lemma ScanUnicode(digits: seq<Byte>, rest: seq<Byte>)
    requires |digits| == 4 && HexNumber(digits).Some?
    ensures var code := HexNumber(digits).value;
      Scan([BACKSLASH, LETTER_U] + digits + rest, true) ==
        if High(code) then LowEscape(rest) && Scan(rest[6..], true)
        else !Low(code) && Scan(rest, true)
  {
    var s := [BACKSLASH, LETTER_U] + digits + rest;
    assert s[2..6] == digits && s[6..] == rest;
    if |rest| >= 6 {
      assert s[12..] == rest[6..];
    }
  }

  // After a high surrogate the scanner asks for what the reader pairs it with.
  lemma LowEscapeNext(units: seq<Unit>, rest: seq<Byte>)
    requires ValidUnits(units)
    ensures LowEscape(Flatten(units) + ([QUOTE] + rest)) <==>
      units != [] && units[0].Unicode? && Low(HexNumber(units[0].digits).value)
  {
    hide HexNumber, UnitBytes, Low, ValidUnit, HexAt;
    var s := Flatten(units) + ([QUOTE] + rest);
    if units == [] {
      assert s[0] == QUOTE;
    } else {
      var tail := Flatten(units[1..]) + ([QUOTE] + rest);
      assert s == UnitBytes(units[0]) + tail;
      LowEscapeUnit(units[0], tail);
    }
  }

  lemma LowEscapeUnit(unit: Unit, tail: seq<Byte>)
    requires ValidUnit(unit)
    ensures LowEscape(UnitBytes(unit) + tail) <==> unit.Unicode? && Low(HexNumber(unit.digits).value)
  {
    hide HexNumber, EncodeChar, Low;
    var s := UnitBytes(unit) + tail;
    match unit
    case Plain(c) =>
      PlainOrdinary(c);
      assert s[0] == EncodeChar(c)[0];
    case Simple(letter) => assert s[1] == letter;
    case Unicode(digits) => assert s[0] == BACKSLASH && s[1] == LETTER_U && s[2..6] == digits;
  }

  // After a high surrogate, scalars go on only with its partner.
  lemma CodePointsHead(units: seq<Unit>)
    requires ValidUnits(units) && units != [] && HighUnit(units[0])
    ensures AllScalars(CodePoints(units)) <==> Paired(units) && AllScalars(CodePoints(units[2..]))
  {
    if Paired(units) {
      var v := Combined(HexNumber(units[0].digits).value, HexNumber(units[1].digits).value);
      CombinedScalar(HexNumber(units[0].digits).value, HexNumber(units[1].digits).value);
      hide HexNumber, AllScalars, Combined, Paired;
      PointsStep(v, CodePoints(units[2..]));
    } else {
      NotSurrogate(UnitPoint(units[0]));
      hide HexNumber, AllScalars, Combined, Paired;
      PointsStep(UnitPoint(units[0]), CodePoints(units[1..]));
    }
  }

  // Any other unit stands for its own code point.
  lemma CodePointsStep(units: seq<Unit>)
    requires ValidUnits(units) && units != [] && !HighUnit(units[0])
    ensures AllScalars(CodePoints(units)) <==> !LowUnit(units[0]) && AllScalars(CodePoints(units[1..]))
  {
    hide HexNumber, AllScalars, Combined;
    PointsStep(UnitPoint(units[0]), CodePoints(units[1..]));
    PointNotSurrogate(units[0]);
  }

  lemma PointNotSurrogate(u: Unit)
    requires ValidUnit(u)
    ensures Surrogate(UnitPoint(u)) <==> HighUnit(u) || LowUnit(u)
  {
    hide HexNumber;
  }

  lemma CombinedScalar(high: int, low: int)
    requires 0xD800 <= high <= 0xDBFF && 0xDC00 <= low <= 0xDFFF
    ensures !Surrogate(Combined(high, low))
  {
  }

  /** Inside a string the scanner stays inside, and passes exactly the units that decode to
      scalars; what follows the string is scanned outside it. */
  lemma {:induction false} ScanUnits(units: seq<Unit>, rest: seq<Byte>)
    requires ValidUnits(units)
    ensures Scan(Flatten(units) + ([QUOTE] + rest), true) <==>
      AllScalars(CodePoints(units)) && Scan(rest, false)
    decreases |units|, 1
  {
    hide HexNumber, HexAt, EncodeChar, AllScalars, Low, High, LowEscape, Scan, Turn, CodePoints;
    var after := [QUOTE] + rest;
    if units == [] {
      assert Flatten(units) + after == after;
      ScanQuote(rest, true);
      NoScalars();
    } else if HighUnit(units[0]) {
      ScanHigh(units, rest);
    } else {
      var tail := Flatten(units[1..]) + after;
      assert Flatten(units) + after == UnitBytes(units[0]) + tail;
      hide Flatten;
      ScanUnit(units[0], tail);
      ScanUnits(units[1..], rest);
      CodePointsStep(units);
    }
  }

  lemma ScanUnit(u: Unit, tail: seq<Byte>)
    requires ValidUnit(u) && !HighUnit(u)
    ensures Scan(UnitBytes(u) + tail, true) <==> !LowUnit(u) && Scan(tail, true)
  {
    hide HexNumber, HexAt, EncodeChar, Low, High, LowEscape, Scan, Turn;
    match u
    case Plain(c) =>
      PlainOrdinary(c);
      ScanOrdinary(EncodeChar(c), tail, true);
    case Simple(letter) => ScanSimple(letter, tail);
    case Unicode(digits) => ScanUnicode(digits, tail);
  }

  lemma NoScalars()
    ensures CodePoints([]) == [] && AllScalars([])
  {
  }

  lemma NotSurrogate(code: nat)
    ensures Surrogate(code) <==> High(code) || Low(code)
  {
  }

  lemma {:induction false} ScanHigh(units: seq<Unit>, rest: seq<Byte>)
    requires ValidUnits(units) && units != [] && HighUnit(units[0])
    ensures Scan(Flatten(units) + ([QUOTE] + rest), true) <==>
      AllScalars(CodePoints(units)) && Scan(rest, false)
    decreases |units|, 0
  {
    hide HexNumber, HexAt, AllScalars, Low, High, LowEscape, Scan, CodePoints;
    var tail := Flatten(units[1..]) + ([QUOTE] + rest);
    assert Flatten(units) + ([QUOTE] + rest) == UnitBytes(units[0]) + tail;
    ScanUnicode(units[0].digits, tail);
    LowEscapeNext(units[1..], rest);
    CodePointsHead(units);
    if LowEscape(tail) {
      FlattenNext(units[1..], rest);
      assert units[1..][1..] == units[2..];
      ScanUnits(units[2..], rest);
    }
  }

  lemma PointsStep(v: int, points: seq<int>)
    ensures AllScalars([v] + points) <==> !Surrogate(v) && AllScalars(points)
  {
    var all := [v] + points;
    assert forall i | 0 <= i < |points| :: points[i] == all[i + 1];
    if AllScalars(all) {
      assert !Surrogate(all[0]);
    }
  }

  /** Over the bytes of strings and what stands between them, the scanner accepts exactly when
      every string decodes to Unicode scalars only. It enters and leaves each string at its
      quotes, so whatever follows the document is scanned outside a string. */
  lemma {:induction false} ScanExact(ps: seq<Piece>, rest: seq<Byte>)
    requires ValidPieces(ps)
    ensures Scan(Document(ps) + rest, false) <==> StringsScalar(ps) && Scan(rest, false)
  {
    if ps == [] {
      assert Document(ps) + rest == rest;
    } else {
      var tail := Document(ps[1..]) + rest;
      assert Document(ps) + rest == PieceBytes(ps[0]) + tail;
      ScanExact(ps[1..], rest);
      ScanPiece(ps[0], tail);
      assert forall i | 0 < i < |ps| :: ps[i] == ps[1..][i - 1];
      hide Scan, PieceScalars, PieceBytes;
    }
  }

  lemma ScanPiece(p: Piece, rest: seq<Byte>)
    requires ValidPiece(p)
    ensures Scan(PieceBytes(p) + rest, false) <==> PieceScalars(p) && Scan(rest, false)
  {
    hide Scan, AllScalars, HexNumber, ValidUnit;
    match p
    case Between(byte) => ScanOrdinary([byte], rest, false);
    case Quoted(units) =>
      ScanUnits(units, rest);
      ScanQuote(Flatten(units) + ([QUOTE] + rest), false);
      hide Flatten, CodePoints;
      var f := Flatten(units);
      assert PieceBytes(p) + rest == [QUOTE] + (f + ([QUOTE] + rest));
  }

  lemma ScanQuote(rest: seq<Byte>, inString: bool)
    ensures Scan([QUOTE] + rest, inString) == Scan(rest, !inString)
  {
    assert ([QUOTE] + rest)[1..] == rest;
  }

  /** On every byte sequence that lexes into string tokens and bytes between them, the scanner
      accepts exactly when unescaping every string token yields Unicode scalars only. */
  lemma {:induction false} LexedExact(raw: seq<Byte>)
    requires Lex(raw).Some?
    ensures ValidPieces(Lex(raw).value)
    ensures Scan(raw, false) <==> StringsScalar(Lex(raw).value)
  {
    var ps := Lex(raw).value;
    LexSound(raw);
    ScanExact(ps, []);
    assert Document(ps) + [] == Document(ps);
  }

  // ---- why the scanner is there ----

  const REPLACEMENT := 0xFFFD

  function Replaced(v: int): int { if Surrogate(v) then REPLACEMENT else v }

  // What Go's decoder makes of a string: an escaped surrogate without a partner becomes U+FFFD.
  function GoPoints(units: seq<Unit>): seq<int>
    requires ValidUnits(units)
    decreases |units|
  {
    if units == [] then []
    else if Paired(units) then
      [Combined(HexNumber(units[0].digits).value, HexNumber(units[1].digits).value)] + GoPoints(units[2..])
    else [Replaced(UnitPoint(units[0]))] + GoPoints(units[1..])
  }

  /** Go and Python read one text from a string exactly when that text holds scalars only: elsewhere
      Python keeps a surrogate that Go replaces. */
  lemma {:induction false} ReadersAgree(units: seq<Unit>)
    requires ValidUnits(units)
    ensures GoPoints(units) == CodePoints(units) <==> AllScalars(CodePoints(units))
    decreases |units|
  {
    if units == [] {
      NoScalars();
    } else if Paired(units) {
      var v := Combined(HexNumber(units[0].digits).value, HexNumber(units[1].digits).value);
      CombinedScalar(HexNumber(units[0].digits).value, HexNumber(units[1].digits).value);
      hide HexNumber, AllScalars, Combined, Paired, Surrogate;
      ReadersAgree(units[2..]);
      PointsAgree(v, v, GoPoints(units[2..]), CodePoints(units[2..]));
    } else {
      hide HexNumber, AllScalars, Combined, Paired, Surrogate, UnitPoint;
      ReadersAgree(units[1..]);
      var v := UnitPoint(units[0]);
      PointsAgree(Replaced(v), v, GoPoints(units[1..]), CodePoints(units[1..]));
    }
  }

  // One more code point, kept unless it is a surrogate.
  lemma PointsAgree(go: int, python: int, a: seq<int>, b: seq<int>)
    requires go == Replaced(python)
    requires a == b <==> AllScalars(b)
    ensures [go] + a == [python] + b <==> AllScalars([python] + b)
  {
    PointsStep(python, b);
    hide AllScalars;
    var x, y := [go] + a, [python] + b;
    if x == y {
      assert x[0] == y[0] && x[1..] == a && y[1..] == b;
    }
  }

  // Both readers take the same text from every string token.
  predicate SameTexts(ps: seq<Piece>)
    requires ValidPieces(ps)
  {
    forall i | 0 <= i < |ps| :: SameText(ps[i])
  }

  predicate SameText(p: Piece)
    requires ValidPiece(p)
  {
    p.Quoted? ==> GoPoints(p.units) == CodePoints(p.units)
  }

  /** The scanner passes exactly the lexable byte sequences on which Go and Python read the same texts,
      so that past it one decoded tree stands for both. */
  lemma {:induction false} ScanKeepsReadersAlike(raw: seq<Byte>)
    requires Lex(raw).Some?
    ensures ValidPieces(Lex(raw).value)
    ensures Scan(raw, false) <==> SameTexts(Lex(raw).value)
  {
    LexedExact(raw);
    hide Scan, AllScalars, GoPoints, CodePoints;
    var ps := Lex(raw).value;
    forall i | 0 <= i < |ps| ensures SameText(ps[i]) <==> PieceScalars(ps[i]) {
      if ps[i].Quoted? {
        ReadersAgree(ps[i].units);
      }
    }
  }

  // ---- where the scanner stands at each turn ----

  // Before the end every turn holds this flag; from there on it is one of the later turns.
  predicate Covered(visits: seq<Visit>, end: nat, inString: bool, later: seq<Visit>) {
    forall v | v in visits :: if v.index < end then v.inString == inString else v in later
  }

  lemma {:induction false} VisitsFrom(s: seq<Byte>, at: nat, inString: bool)
    ensures forall v | v in Visits(s, at, inString) :: at <= v.index
    decreases |s|
  {
    if s != [] && Turn(s, inString).Some? {
      var (width, after) := Turn(s, inString).value;
      VisitsFrom(s[width..], at + width, after);
    }
  }

  lemma CoveredStep(s: seq<Byte>, at: nat, inString: bool, end: nat, later: seq<Visit>)
    requires s != [] && at < end
    requires Turn(s, inString).Some? ==>
      var (width, after) := Turn(s, inString).value;
      Covered(Visits(s[width..], at + width, after), end, inString, later)
    ensures Covered(Visits(s, at, inString), end, inString, later)
  {
    hide Turn;
  }

  lemma {:induction false} VisitOrdinary(s: seq<Byte>, rest: seq<Byte>, at: nat, inString: bool, end: nat,
                                         later: seq<Visit>)
    requires forall i :: 0 <= i < |s| ==> s[i] != QUOTE && (inString ==> s[i] != BACKSLASH)
    requires at + |s| <= end && Covered(Visits(rest, at + |s|, inString), end, inString, later)
    ensures Covered(Visits(s + rest, at, inString), end, inString, later)
  {
    if s == [] {
      assert s + rest == rest;
    } else {
      assert (s + rest)[1..] == s[1..] + rest;
      VisitOrdinary(s[1..], rest, at + 1, inString, end, later);
      assert Turn(s + rest, inString) == Some((1, inString));
      CoveredStep(s + rest, at, inString, end, later);
    }
  }

  lemma TurnSimple(letter: Byte, rest: seq<Byte>)
    requires letter != LETTER_U
    ensures Turn([BACKSLASH, letter] + rest, true) == Some((2, true))
    ensures ([BACKSLASH, letter] + rest)[2..] == rest
  {
  }

  lemma TurnUnicode(digits: seq<Byte>, rest: seq<Byte>)
    requires |digits| == 4 && HexNumber(digits).Some?
    ensures var code, s := HexNumber(digits).value, [BACKSLASH, LETTER_U] + digits + rest;
      s[6..] == rest && (|rest| >= 6 ==> s[12..] == rest[6..])
      && Turn(s, true) == if High(code) then (if LowEscape(rest) then Some((12, true)) else None)
                          else if Low(code) then None else Some((6, true))
  {
    var s := [BACKSLASH, LETTER_U] + digits + rest;
    assert s[2..6] == digits && s[6..] == rest;
    hide HexNumber, High, Low, LowEscape;
  }

  lemma VisitUnicode(digits: seq<Byte>, tail: seq<Byte>, at: nat, end: nat, later: seq<Visit>)
    requires |digits| == 4 && HexNumber(digits).Some? && at < end
    requires Covered(Visits(tail, at + 6, true), end, true, later)
    requires High(HexNumber(digits).value) && LowEscape(tail) ==>
      Covered(Visits(tail[6..], at + 12, true), end, true, later)
    ensures Covered(Visits([BACKSLASH, LETTER_U] + digits + tail, at, true), end, true, later)
  {
    hide HexNumber, Low, High, Turn, Covered, Visits;
    TurnUnicode(digits, tail);
    CoveredStep([BACKSLASH, LETTER_U] + digits + tail, at, true, end, later);
  }

  // A low escape at the front of a string's rest is its next unit.
  lemma FlattenNext(units: seq<Unit>, rest: seq<Byte>)
    requires ValidUnits(units) && LowEscape(Flatten(units) + ([QUOTE] + rest))
    ensures units != [] && (Flatten(units) + ([QUOTE] + rest))[6..] == Flatten(units[1..]) + ([QUOTE] + rest)
    ensures |Flatten(units)| == 6 + |Flatten(units[1..])|
  {
    hide LowEscape, HexNumber, Low;
    LowEscapeNext(units, rest);
    var unit, tail := UnitBytes(units[0]), Flatten(units[1..]) + ([QUOTE] + rest);
    assert |unit| == 6 && Flatten(units) + ([QUOTE] + rest) == unit + tail;
  }

  /** Every turn inside a string is taken with `inString` set, the one at its closing quote included,
      and every later one is a turn over what follows the string. */
  lemma {:induction false} VisitUnits(units: seq<Unit>, rest: seq<Byte>, at: nat)
    requires ValidUnits(units)
    ensures var end := at + |Flatten(units)| + 1;
      Covered(Visits(Flatten(units) + ([QUOTE] + rest), at, true), end, true, Visits(rest, end, false))
    decreases |units|
  {
    hide HexNumber, EncodeChar, Low, High, LowEscape, Turn, Covered, Visits;
    var after := [QUOTE] + rest;
    var end := at + |Flatten(units)| + 1;
    var later := Visits(rest, end, false);
    if units == [] {
      assert Flatten(units) + after == after;
      VisitClose(rest, at);
    } else {
      var unit, tail := UnitBytes(units[0]), Flatten(units[1..]) + after;
      assert Flatten(units) + after == unit + tail;
      VisitUnits(units[1..], rest, at + |unit|);
      match units[0]
      case Plain(c) =>
        PlainOrdinary(c);
        VisitOrdinary(EncodeChar(c), tail, at, true, end, later);
      case Simple(letter) =>
        TurnSimple(letter, tail);
        CoveredStep(unit + tail, at, true, end, later);
      case Unicode(digits) =>
        if LowEscape(tail) {
          FlattenNext(units[1..], rest);
          VisitUnits(units[1..][1..], rest, at + 12);
        }
        hide Flatten;
        VisitUnicode(digits, tail, at, end, later);
    }
  }

  lemma VisitClose(rest: seq<Byte>, at: nat)
    ensures Covered(Visits([QUOTE] + rest, at, true), at + 1, true, Visits(rest, at + 1, false))
  {
    assert ([QUOTE] + rest)[1..] == rest;
    VisitsFrom(rest, at + 1, false);
  }

  // After the opening quote of a string token, up to and including its closing quote.
  predicate Inside(ps: seq<Piece>, index: nat) {
    ps != [] &&
    var length := |PieceBytes(ps[0])|;
    if index < length then ps[0].Quoted? && index > 0 else Inside(ps[1..], index - length)
  }

  lemma VisitBetween(byte: Byte, rest: seq<Byte>, at: nat)
    requires byte != QUOTE
    ensures Visits([byte] + rest, at, false) == [Visit(at, false)] + Visits(rest, at + 1, false)
  {
    assert ([byte] + rest)[1..] == rest;
  }

  lemma VisitOpen(rest: seq<Byte>, at: nat)
    ensures Visits([QUOTE] + rest, at, false) == [Visit(at, false)] + Visits(rest, at + 1, true)
  {
    assert ([QUOTE] + rest)[1..] == rest;
  }

  lemma VisitPiece(p: Piece, rest: seq<Byte>, at: nat)
    requires ValidPiece(p)
    ensures var end := at + |PieceBytes(p)|;
      forall v | v in Visits(PieceBytes(p) + rest, at, false) ::
        at <= v.index
        && if v.index < end then v.inString == (p.Quoted? && v.index > at) else v in Visits(rest, end, false)
  {
    hide Turn, Visits, Flatten;
    VisitsFrom(PieceBytes(p) + rest, at, false);
    match p
    case Between(byte) =>
      VisitBetween(byte, rest, at);
      VisitsFrom(rest, at + 1, false);
    case Quoted(units) =>
      var body := Flatten(units) + ([QUOTE] + rest);
      assert PieceBytes(p) + rest == [QUOTE] + body;
      VisitOpen(body, at);
      VisitUnits(units, rest, at + 1);
      VisitsFrom(body, at + 1, true);
  }

  lemma {:induction false} VisitPieces(ps: seq<Piece>, at: nat)
    requires ValidPieces(ps)
    ensures forall v | v in Visits(Document(ps), at, false) ::
      at <= v.index < at + |Document(ps)| && v.inString == Inside(ps, v.index - at)
    decreases |ps|
  {
    hide PieceBytes;
    if ps != [] {
      var end := at + |PieceBytes(ps[0])|;
      VisitPiece(ps[0], Document(ps[1..]), at);
      VisitPieces(ps[1..], end);
    }
  }

  /** On every byte sequence that lexes, `inString` is true at a turn exactly when the turn starts
      inside a string token. */
  lemma {:induction false} InStringExact(raw: seq<Byte>, v: Visit)
    requires Lex(raw).Some? && v in Visits(raw, 0, false)
    ensures v.index < |raw| && v.inString == Inside(Lex(raw).value, v.index)
  {
    LexSound(raw);
    VisitPieces(Lex(raw).value, 0);
  }

  // ---- lexing ----

  // The unit at the front of a string's remaining bytes, and its width.
  function LexUnit(s: seq<Byte>): (r: Option<(Unit, nat)>)
    requires s != [] && s[0] != QUOTE
    ensures r.Some? ==> 1 <= r.value.1 <= |s|
  {
    if s[0] == BACKSLASH then
      if |s| < 2 then None
      else if s[1] == LETTER_U then
        if |s| >= 6 && HexNumber(s[2..6]).Some? then Some((Unicode(s[2..6]), 6)) else None
      else if ValidUnit(Simple(s[1])) then Some((Simple(s[1]), 2))
      else None
    else if s[0] < 0x20 || Invalid(DecodeRune(s)) then None
    else
      DecodeScalar(s);
      Some((Plain(DecodeRune(s).0 as char), DecodeRune(s).1))
  }

  // A string's units up to its closing quote, and the bytes after that quote.
  function LexUnits(s: seq<Byte>): (r: Option<(seq<Unit>, seq<Byte>)>)
    ensures r.Some? ==> |r.value.1| < |s|
    decreases |s|
  {
    if s == [] then None
    else if s[0] == QUOTE then Some(([], s[1..]))
    else match LexUnit(s)
      case None => None
      case Some((unit, width)) =>
        match LexUnits(s[width..])
        case None => None
        case Some((units, rest)) => Some(([unit] + units, rest))
  }

  function Lex(s: seq<Byte>): Option<seq<Piece>>
    decreases |s|
  {
    if s == [] then Some([])
    else if s[0] != QUOTE then
      match Lex(s[1..])
      case None => None
      case Some(ps) => Some([Between(s[0])] + ps)
    else match LexUnits(s[1..])
      case None => None
      case Some((units, rest)) =>
        match Lex(rest)
        case None => None
        case Some(ps) => Some([Quoted(units)] + ps)
  }

  lemma LexUnitSound(s: seq<Byte>)
    requires s != [] && s[0] != QUOTE && LexUnit(s).Some?
    ensures var (unit, width) := LexUnit(s).value;
      ValidUnit(unit) && s == UnitBytes(unit) + s[width..]
  {
    if s[0] != BACKSLASH {
      DecodeScalar(s);
    }
  }

  lemma LexUnitComplete(unit: Unit, rest: seq<Byte>)
    requires ValidUnit(unit)
    ensures var s := UnitBytes(unit) + rest;
      s[0] != QUOTE && LexUnit(s) == Some((unit, |UnitBytes(unit)|))
  {
    match unit
    case Plain(c) =>
      PlainOrdinary(c);
      DecodeEncode(c, rest);
      NotInvalid(c, rest);
      assert EncodeChar(c)[0] >= 0x20;
    case Simple(letter) =>
    case Unicode(digits) =>
      assert (UnitBytes(unit) + rest)[2..6] == digits;
  }

  lemma {:induction false} LexUnitsSound(s: seq<Byte>)
    requires LexUnits(s).Some?
    ensures var (units, rest) := LexUnits(s).value;
      ValidUnits(units) && s == Flatten(units) + ([QUOTE] + rest)
    decreases |s|
  {
    hide LexUnit, ValidUnit, UnitBytes;
    if s[0] == QUOTE {
      assert s == [QUOTE] + s[1..];
    } else {
      var (unit, width) := LexUnit(s).value;
      LexUnitSound(s);
      LexUnitsSound(s[width..]);
      var (units, rest) := LexUnits(s[width..]).value;
      assert ([unit] + units)[1..] == units;
    }
  }

  lemma {:induction false} LexUnitsComplete(units: seq<Unit>, rest: seq<Byte>)
    requires ValidUnits(units)
    ensures LexUnits(Flatten(units) + ([QUOTE] + rest)) == Some((units, rest))
  {
    hide LexUnits, ValidUnit, UnitBytes;
    var after := [QUOTE] + rest;
    if units == [] {
      assert Flatten(units) + after == after;
      LexClose(rest);
    } else {
      var e, tail := UnitBytes(units[0]), Flatten(units[1..]) + after;
      LexNext(units[0], tail);
      LexUnitsComplete(units[1..], rest);
      assert Flatten(units) + after == e + tail;
      assert units == [units[0]] + units[1..];
    }
  }

  lemma LexClose(rest: seq<Byte>)
    ensures LexUnits([QUOTE] + rest) == Some(([], rest))
  {
    assert ([QUOTE] + rest)[1..] == rest;
  }

  lemma LexNext(unit: Unit, tail: seq<Byte>)
    requires ValidUnit(unit)
    ensures LexUnits(UnitBytes(unit) + tail) ==
      match LexUnits(tail) { case None => None case Some((units, rest)) => Some(([unit] + units, rest)) }
  {
    hide LexUnit, ValidUnit, UnitBytes;
    LexUnitComplete(unit, tail);
    assert (UnitBytes(unit) + tail)[|UnitBytes(unit)|..] == tail;
  }

  lemma {:induction false} LexSound(s: seq<Byte>)
    requires Lex(s).Some?
    ensures ValidPieces(Lex(s).value) && Document(Lex(s).value) == s
    decreases |s|
  {
    hide LexUnits, Flatten, ValidUnits;
    if s != [] {
      var tail := s[1..];
      assert s == [s[0]] + tail;
      var ps := Lex(s).value;
      if s[0] != QUOTE {
        LexSound(tail);
        assert ps[1..] == Lex(tail).value;
      } else {
        LexUnitsSound(tail);
        var (units, rest) := LexUnits(tail).value;
        LexSound(rest);
        assert ps[1..] == Lex(rest).value;
      }
    }
  }

  lemma {:induction false} LexComplete(ps: seq<Piece>)
    requires ValidPieces(ps)
    ensures Lex(Document(ps)) == Some(ps)
  {
    hide Lex, ValidPiece, PieceBytes;
    if ps == [] {
      LexEmpty();
    } else {
      var rest := Document(ps[1..]);
      LexComplete(ps[1..]);
      assert ps == [ps[0]] + ps[1..];
      LexPiece(ps[0], rest);
    }
  }

  lemma LexEmpty()
    ensures Lex([]) == Some([])
  {
  }

  lemma LexPiece(p: Piece, rest: seq<Byte>)
    requires ValidPiece(p)
    ensures Lex(PieceBytes(p) + rest) ==
      match Lex(rest) { case None => None case Some(ps) => Some([p] + ps) }
  {
    hide LexUnits, Flatten, ValidUnits;
    var s := PieceBytes(p) + rest;
    match p
    case Between(byte) => assert s[1..] == rest;
    case Quoted(units) =>
      LexUnitsComplete(units, rest);
      assert s[1..] == Flatten(units) + ([QUOTE] + rest);
  }

  /** The lexer accepts exactly the byte sequences made of valid strings and bytes between them,
      and each is made of them in one way only. */
  lemma {:induction false} LexExact(s: seq<Byte>, ps: seq<Piece>)
    ensures Lex(s) == Some(ps) <==> ValidPieces(ps) && Document(ps) == s
  {
    if Lex(s) == Some(ps) {
      LexSound(s);
    }
    if ValidPieces(ps) && Document(ps) == s {
      LexComplete(ps);
    }
  }
}
