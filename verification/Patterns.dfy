/** The two audited patterns, read from their own text: a reader for the regular expressions they are
    written in, and the strings such an expression matches. */
module Patterns {
  import J = JsonText
  import opened Options
  import opened SchemaProfile
  import opened ScalarText
  import opened Validator

  // `[...]` or `[^...]`, as ranges of code points
  datatype Range = Range(low: int, high: int)
  datatype Class = Class(negated: bool, ranges: seq<Range>)
  datatype Repeat = Once | ZeroOrMore | OneOrMore
  datatype Element = Element(class_: Class, repeat: Repeat)

  // ---- reading ----

  // One character of a class: itself, or four hex digits after `\u`.
  function ReadChar(s: string): (r: Option<(int, string)>)
    ensures r.Some? ==> |r.value.1| < |s|
  {
    if s == "" || s[0] == ']' then None
    else if s[0] != '\\' then Some((s[0] as int, s[1..]))
    else if |s| < 6 || s[1] != 'u' then None
    else match J.ReadHex4(s[2..])
      case None => None
      case Some(code) => Some((code, s[6..]))
  }

  // Ranges up to the closing bracket; a hyphen right before it stands for itself.
  function ReadRanges(s: string): (r: Option<(seq<Range>, string)>)
    ensures r.Some? ==> |r.value.1| < |s|
    decreases |s|
  {
    if s != "" && s[0] == ']' then Some(([], s[1..]))
    else match ReadRange(s)
      case None => None
      case Some((range, rest)) =>
        match ReadRanges(rest)
        case None => None
        case Some((ranges, after)) => Some(([range] + ranges, after))
  }

  function ReadRange(s: string): (r: Option<(Range, string)>)
    ensures r.Some? ==> |r.value.1| < |s|
  {
    match ReadChar(s)
    case None => None
    case Some((low, rest)) =>
      if |rest| < 2 || rest[0] != '-' || rest[1] == ']' then Some((Range(low, low), rest))
      else match ReadChar(rest[1..])
        case None => None
        case Some((high, after)) => Some((Range(low, high), after))
  }

  function ReadElement(s: string): (r: Option<(Element, string)>)
    ensures r.Some? ==> |r.value.1| < |s|
  {
    if s == "" || s[0] != '[' then None
    else
      var negated := |s| > 1 && s[1] == '^';
      match ReadRanges(if negated then s[2..] else s[1..])
      case None => None
      case Some((ranges, rest)) =>
        var c := Class(negated, ranges);
        if rest != "" && rest[0] == '*' then Some((Element(c, ZeroOrMore), rest[1..]))
        else if rest != "" && rest[0] == '+' then Some((Element(c, OneOrMore), rest[1..]))
        else Some((Element(c, Once), rest))
  }

  // Elements up to the end of the text, which the patterns spell as a lookahead.
  function ReadElements(s: string): Option<seq<Element>>
    decreases |s|
  {
    if s == "(?![\\s\\S])" then Some([])
    else match ReadElement(s)
      case None => None
      case Some((element, rest)) =>
        match ReadElements(rest)
        case None => None
        case Some(elements) => Some([element] + elements)
  }

  function ReadPattern(s: string): Option<seq<Element>> {
    if s == "" || s[0] != '^' then None else ReadElements(s[1..])
  }

  // ---- matching ----

  predicate InRanges(code: int, ranges: seq<Range>) { exists r | r in ranges :: r.low <= code <= r.high }

  predicate InClass(c: char, class_: Class) { InRanges(c as int, class_.ranges) != class_.negated }

  // The whole string matches the elements in order.
  predicate Matches(elements: seq<Element>, s: string)
    decreases |s|, |elements|
  {
    if elements == [] then s == ""
    else
      var here := s != "" && InClass(s[0], elements[0].class_);
      match elements[0].repeat
      case Once => here && Matches(elements[1..], s[1..])
      case OneOrMore => here && Matches([Element(elements[0].class_, ZeroOrMore)] + elements[1..], s[1..])
      case ZeroOrMore => Matches(elements[1..], s) || (here && Matches(elements, s[1..]))
  }

  lemma {:induction false} StarMatches(class_: Class, s: string)
    ensures Matches([Element(class_, ZeroOrMore)], s) <==> forall i | 0 <= i < |s| :: InClass(s[i], class_)
  {
    hide InClass;
    if s != "" {
      StarMatches(class_, s[1..]);
      assert forall i | 0 < i < |s| :: s[i] == s[1..][i - 1];
    }
  }

  // ---- the two patterns ----

  const ALPHANUMERIC := [Range('A' as int, 'Z' as int), Range('a' as int, 'z' as int), Range('0' as int, '9' as int)]
  const SEPARATORS := [Range('.' as int, '.' as int), Range('_' as int, '_' as int), Range(':' as int, ':' as int),
                       Range('-' as int, '-' as int)]
  const UNSAFE := [Range(0x0000, 0x001F), Range(0x007F, 0x009F), Range(0x2028, 0x2028), Range(0x2029, 0x2029)]

  lemma PlainRange(low: char, high: char, rest: string)
    requires low !in "\\]" && high !in "\\]"
    ensures ReadRange([low, '-', high] + rest) == Some((Range(low as int, high as int), rest))
  {
    var s := [low, '-', high] + rest;
    assert s[1..] == ['-', high] + rest && s[1..][1..] == [high] + rest && ([high] + rest)[1..] == rest;
  }

  lemma PlainChar(c: char, rest: string)
    requires c !in "\\]" && rest != "" && (rest[0] == '-' ==> |rest| > 1 && rest[1] == ']')
    ensures ReadRange([c] + rest) == Some((Range(c as int, c as int), rest))
  {
    assert ([c] + rest)[1..] == rest;
  }

  lemma HexChar(digits: string, code: int, rest: string)
    requires |digits| == 4 && J.ReadHex4(digits) == Some(code)
    ensures ReadChar("\\u" + digits + rest) == Some((code, rest))
  {
    var s := "\\u" + digits + rest;
    assert s[2..] == digits + rest && s[6..] == rest;
    assert forall i :: 0 <= i < 4 ==> (digits + rest)[i] == digits[i];
  }

  lemma HexRange(low: string, lowCode: int, high: string, highCode: int, rest: string)
    requires |low| == 4 && J.ReadHex4(low) == Some(lowCode) && |high| == 4 && J.ReadHex4(high) == Some(highCode)
    ensures ReadRange("\\u" + low + ("-" + ("\\u" + high + rest))) == Some((Range(lowCode, highCode), rest))
  {
    var tail := "\\u" + high + rest;
    HexChar(low, lowCode, "-" + tail);
    HexChar(high, highCode, rest);
    hide ReadChar;
    assert ("-" + tail)[1..] == tail;
  }

  lemma Digits()
    ensures J.ReadHex4("0000") == Some(0) && J.ReadHex4("001F") == Some(0x1F) && J.ReadHex4("007F") == Some(0x7F)
    ensures J.ReadHex4("009F") == Some(0x9F) && J.ReadHex4("2028") == Some(0x2028)
    ensures J.ReadHex4("2029") == Some(0x2029)
  {
  }

  lemma RangesEnd(rest: string)
    ensures ReadRanges("]" + rest) == Some(([], rest))
  {
    assert ("]" + rest)[1..] == rest;
  }

  lemma RangesStep(s: string, range: Range, rest: string, ranges: seq<Range>, after: string)
    requires s != "" && s[0] != ']' && ReadRange(s) == Some((range, rest)) && ReadRanges(rest) == Some((ranges, after))
    ensures ReadRanges(s) == Some(([range] + ranges, after))
  {
  }

  lemma HexTexts()
    ensures "\\u" + "0000" == "\\u0000" && "\\u" + "001F" == "\\u001F" && "\\u" + "007F" == "\\u007F"
    ensures "\\u" + "009F" == "\\u009F" && "\\u" + "2028" == "\\u2028" && "\\u" + "2029" == "\\u2029"
  {
  }

  // The spelling of ALPHANUMERIC, in front of what the same class goes on with.
  lemma AlphanumericRead(s: string, ranges: seq<Range>, after: string)
    requires ReadRanges(s) == Some((ranges, after))
    ensures ReadRanges("A-Z" + ("a-z" + ("0-9" + s))) == Some((ALPHANUMERIC + ranges, after))
  {
    hide ReadRanges, ReadRange;
    var digits, lower := "0-9" + s, "a-z" + ("0-9" + s);
    PlainRange('0', '9', s);
    RangesStep(digits, Range('0' as int, '9' as int), s, ranges, after);
    PlainRange('a', 'z', digits);
    RangesStep(lower, Range('a' as int, 'z' as int), digits, [Range('0' as int, '9' as int)] + ranges, after);
    PlainRange('A', 'Z', lower);
    var two := [Range('a' as int, 'z' as int)] + ([Range('0' as int, '9' as int)] + ranges);
    RangesStep("A-Z" + lower, Range('A' as int, 'Z' as int), lower, two, after);
    assert [Range('A' as int, 'Z' as int)] + two == ALPHANUMERIC + ranges;
  }

  lemma SeparatorsRead(after: string)
    ensures ReadRanges("." + ("_" + (":" + ("-" + ("]" + after))))) == Some((SEPARATORS, after))
  {
    hide ReadRanges, ReadRange;
    var d := "]" + after;
    var c := "-" + d;
    var b := ":" + c;
    var a := "_" + b;
    RangesEnd(after);
    PlainChar('-', d);
    RangesStep(c, Range('-' as int, '-' as int), d, [], after);
    PlainChar(':', c);
    RangesStep(b, Range(':' as int, ':' as int), c, [Range('-' as int, '-' as int)] + [], after);
    PlainChar('_', b);
    var two := [Range(':' as int, ':' as int)] + ([Range('-' as int, '-' as int)] + []);
    RangesStep(a, Range('_' as int, '_' as int), b, two, after);
    PlainChar('.', a);
    var three := [Range('_' as int, '_' as int)] + two;
    RangesStep("." + a, Range('.' as int, '.' as int), a, three, after);
    assert [Range('.' as int, '.' as int)] + three == SEPARATORS;
  }

  lemma UnsafeRead(after: string)
    ensures ReadRanges("\\u0000" + ("-" + ("\\u001F" + ("\\u007F" + ("-" + ("\\u009F" +
              ("\\u2028" + ("\\u2029" + ("]" + after))))))))) == Some((UNSAFE, after))
  {
    hide ReadRanges, ReadRange, ReadChar, J.ReadHex4;
    Digits();
    HexTexts();
    var e := "]" + after;
    var d := "\\u2029" + e;
    var c := "\\u2028" + d;
    var b := "\\u007F" + ("-" + ("\\u009F" + c));
    RangesEnd(after);
    HexAlone("2029", 0x2029, e);
    RangesStep(d, Range(0x2029, 0x2029), e, [], after);
    HexAlone("2028", 0x2028, d);
    RangesStep(c, Range(0x2028, 0x2028), d, [Range(0x2029, 0x2029)] + [], after);
    HexRange("007F", 0x7F, "009F", 0x9F, c);
    var two := [Range(0x2028, 0x2028)] + ([Range(0x2029, 0x2029)] + []);
    RangesStep(b, Range(0x7F, 0x9F), c, two, after);
    HexRange("0000", 0, "001F", 0x1F, b);
    RangesStep("\\u0000" + ("-" + ("\\u001F" + b)), Range(0, 0x1F), b, [Range(0x7F, 0x9F)] + two, after);
    assert [Range(0, 0x1F)] + ([Range(0x7F, 0x9F)] + two) == UNSAFE;
  }

  lemma HexAlone(digits: string, code: int, rest: string)
    requires |digits| == 4 && J.ReadHex4(digits) == Some(code)
    requires rest != "" && rest[0] != '-'
    ensures ReadRange("\\u" + digits + rest) == Some((Range(code, code), rest))
  {
    HexChar(digits, code, rest);
    hide ReadChar;
  }

  const IDENTIFIER_ELEMENTS := [Element(Class(false, ALPHANUMERIC), Once),
                                Element(Class(false, ALPHANUMERIC + SEPARATORS), ZeroOrMore)]
  const CONTROL_SAFE_ELEMENTS := [Element(Class(true, UNSAFE), OneOrMore)]

  const END := "(?![\\s\\S])"

  lemma IdentifierSpelled()
    ensures IDENTIFIER_PATTERN == "^" + ("[" + ("A-Z" + ("a-z" + ("0-9" + ("]" + ("[" + ("A-Z" + ("a-z" + ("0-9" +
              ("." + ("_" + (":" + ("-" + ("]" + ("*" + END)))))))))))))))
  {
  }

  lemma ControlSafeSpelled()
    ensures CONTROL_SAFE_PATTERN == "^" + ("[^" + ("\\u0000" + ("-" + ("\\u001F" + ("\\u007F" + ("-" + ("\\u009F" +
              ("\\u2028" + ("\\u2029" + ("]" + ("+" + END)))))))))))
  {
    assert "^[^\\u0000-\\u001F" == "^" + ("[^" + ("\\u0000" + ("-" + "\\u001F")));
    assert "\\u007F-\\u009F" == "\\u007F" + ("-" + "\\u009F");
    assert "\\u2028\\u2029]+" == "\\u2028" + ("\\u2029" + ("]" + "+"));
  }

  lemma IdentifierRead()
    ensures ReadPattern(IDENTIFIER_PATTERN) == Some(IDENTIFIER_ELEMENTS)
  {
    IdentifierSpelled();
    hide ReadRanges, IDENTIFIER_PATTERN;
    var tail := "]" + ("*" + END);
    var second := "A-Z" + ("a-z" + ("0-9" + ("." + ("_" + (":" + ("-" + tail))))));
    var first := "A-Z" + ("a-z" + ("0-9" + ("]" + ("[" + second))));
    SeparatorsRead("*" + END);
    AlphanumericRead("." + ("_" + (":" + ("-" + tail))), SEPARATORS, "*" + END);
    RangesEnd("[" + second);
    AlphanumericRead("]" + ("[" + second), [], "[" + second);
    assert ALPHANUMERIC + [] == ALPHANUMERIC;
    hide ALPHANUMERIC, SEPARATORS;
    assert ("[" + second)[1..] == second && ("[" + first)[1..] == first && ("*" + END)[1..] == END;
    assert ("^" + ("[" + first))[1..] == "[" + first;
    var (a, b) := (IDENTIFIER_ELEMENTS[0], IDENTIFIER_ELEMENTS[1]);
    EndRead();
    ElementRead("[" + second, b, END, []);
    ElementRead("[" + first, a, "[" + second, [b] + []);
    assert [a] + ([b] + []) == IDENTIFIER_ELEMENTS;
  }

  lemma EndRead()
    ensures ReadElements(END) == Some([])
  {
  }

  lemma ElementRead(s: string, element: Element, rest: string, elements: seq<Element>)
    requires s != END && ReadElement(s) == Some((element, rest)) && ReadElements(rest) == Some(elements)
    ensures ReadElements(s) == Some([element] + elements)
  {
    hide ReadElement;
  }

  lemma ControlSafeRead()
    ensures ReadPattern(CONTROL_SAFE_PATTERN) == Some(CONTROL_SAFE_ELEMENTS)
  {
    ControlSafeSpelled();
    UnsafeRead("+" + END);
    hide ReadRanges, CONTROL_SAFE_PATTERN;
    var ranges := "\\u0000" + ("-" + ("\\u001F" + ("\\u007F" + ("-" + ("\\u009F" +
      ("\\u2028" + ("\\u2029" + ("]" + ("+" + END)))))))));
    hide UNSAFE;
    assert ("[^" + ranges)[2..] == ranges && ("+" + END)[1..] == END;
    assert ("^" + ("[^" + ranges))[1..] == "[^" + ranges;
    EndRead();
    ElementRead("[^" + ranges, CONTROL_SAFE_ELEMENTS[0], END, []);
    assert [CONTROL_SAFE_ELEMENTS[0]] + [] == CONTROL_SAFE_ELEMENTS;
  }

  // ---- what the patterns match ----

  lemma AlphanumericClass(c: char)
    ensures AsciiAlphaNumeric(c) <==> InClass(c, Class(false, ALPHANUMERIC))
  {
    var r := ALPHANUMERIC;
    assert r[0] in r && r[1] in r && r[2] in r;
  }

  lemma IdentifierClass(c: char)
    ensures AsciiAlphaNumeric(c) || c in "._:-" <==> InClass(c, Class(false, ALPHANUMERIC + SEPARATORS))
  {
    var (a, b) := (ALPHANUMERIC, SEPARATORS);
    AlphanumericClass(c);
    assert forall x :: x in a + b <==> x in a || x in b;
    assert b[0] in b && b[1] in b && b[2] in b && b[3] in b;
    assert c in "._:-" <==> c == '.' || c == '_' || c == ':' || c == '-';
  }

  /** A character is unsafe, for the interpreter and for the Go rune test alike, exactly when it lies in a
      range the control-safe pattern spells: U+0000 to U+001F, U+007F to U+009F, U+2028 and U+2029. */
  lemma UnsafeClass(c: char)
    ensures UnsafeCharacter(c) <==> InRanges(c as int, UNSAFE)
    ensures UnsafeRune(c as int) <==> InRanges(c as int, UNSAFE)
  {
    var r := UNSAFE;
    assert r[0] in r && r[1] in r && r[2] in r && r[3] in r;
  }

  lemma {:induction false} IdentifierMeans(s: string)
    ensures IdentifierText(s) <==> Matches(IDENTIFIER_ELEMENTS, s)
  {
    var star := IDENTIFIER_ELEMENTS[1];
    hide ALPHANUMERIC, SEPARATORS, InClass, AsciiAlphaNumeric;
    if s != "" {
      AlphanumericClass(s[0]);
      StarMatches(star.class_, s[1..]);
      assert IDENTIFIER_ELEMENTS[1..] == [star];
      forall i | 1 <= i < |s|
        ensures AsciiAlphaNumeric(s[i]) || s[i] in "._:-" <==> InClass(s[1..][i - 1], star.class_)
      {
        IdentifierClass(s[i]);
      }
      hide Matches;
    }
  }

  lemma {:induction false} ControlSafeMeans(s: string)
    ensures ControlSafeText(s) <==> Matches(CONTROL_SAFE_ELEMENTS, s)
  {
    var class_ := CONTROL_SAFE_ELEMENTS[0].class_;
    hide UNSAFE, UnsafeCharacter;
    if s != "" {
      StarMatches(class_, s[1..]);
      assert [Element(class_, ZeroOrMore)] + [] == [Element(class_, ZeroOrMore)];
      forall i | 0 <= i < |s| ensures !UnsafeCharacter(s[i]) <==> InClass(s[i], class_) {
        UnsafeClass(s[i]);
      }
      hide InClass;
      assert forall i | 0 < i < |s| :: s[i] == s[1..][i - 1];
    }
  }

  /** Both audited patterns are read from their text, and matched as that text says. */
  lemma {:induction false} PatternMeans(pattern: string, s: string)
    requires pattern == IDENTIFIER_PATTERN || pattern == CONTROL_SAFE_PATTERN
    ensures ReadPattern(pattern).Some?
    ensures MatchesPattern(pattern, s) <==> Matches(ReadPattern(pattern).value, s)
  {
    PatternsDiffer();
    IdentifierRead();
    ControlSafeRead();
    IdentifierMeans(s);
    ControlSafeMeans(s);
    hide IDENTIFIER_PATTERN, CONTROL_SAFE_PATTERN, IDENTIFIER_ELEMENTS, CONTROL_SAFE_ELEMENTS, IdentifierText;
    hide ControlSafeText, Matches, ReadPattern;
  }
}
