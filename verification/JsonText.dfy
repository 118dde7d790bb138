/** The compact, ASCII-only JSON text of nested lists, dictionaries, texts and booleans that
    `json.dumps(value, ensure_ascii=True, separators=(",", ":"))` writes, and a reader for it. */
module JsonText {
  import opened Options

  datatype Tree =
    | Text(text: string)
    | Flag(flag: bool)
    | List(items: seq<Tree>)
    | Dict(entries: seq<Entry>)
  datatype Entry = Entry(name: string, value: Tree)

  // ---- writing ----

  function HexChar(d: nat): (c: char)
    requires d < 16
  {
    if d < 10 then ('0' as int + d) as char else ('a' as int + d - 10) as char
  }

  function Hex4(n: nat): (t: string)
    requires n < 0x10000
    ensures |t| == 4
  {
    [HexChar(n / 16 / 16 / 16), HexChar(n / 16 / 16 % 16), HexChar(n / 16 % 16), HexChar(n % 16)]
  }

  function Escape(c: char): (t: string)
    ensures |t| > 0 && t[0] != '\"'
  {
    if c == '\"' then "\\\""
    else if c == '\\' then "\\\\"
    else if c == '\n' then "\\n"
    else if c == '\r' then "\\r"
    else if c == '\t' then "\\t"
    else if c as int == 8 then "\\b"
    else if c as int == 12 then "\\f"
    else if ' ' <= c <= '~' then [c]
    else if c as int < 0x10000 then "\\u" + Hex4(c as int)
    else
      var v := c as int - 0x10000;
      "\\u" + Hex4(0xD800 + v / 0x400) + ("\\u" + Hex4(0xDC00 + v % 0x400))
  }

  function EscapeAll(s: string): string {
    if s == "" then "" else Escape(s[0]) + EscapeAll(s[1..])
  }

  function Quote(s: string): string { "\"" + (EscapeAll(s) + "\"") }

  function Write(t: Tree): string
    decreases t
  {
    match t
    case Text(s) => Quote(s)
    case Flag(b) => if b then "true" else "false"
    case List(items) => "[" + WriteItems(items, true)
    case Dict(entries) => "{" + WriteEntries(entries, true)
  }

  function WriteItems(items: seq<Tree>, first: bool): string
    decreases items
  {
    if items == [] then "]"
    else (if first then "" else ",") + (Write(items[0]) + WriteItems(items[1..], false))
  }

  function WriteEntries(entries: seq<Entry>, first: bool): string
    decreases entries
  {
    if entries == [] then "}"
    else (if first then "" else ",") + (WriteEntry(entries[0]) + WriteEntries(entries[1..], false))
  }

  function WriteEntry(entry: Entry): string
    decreases entry
  {
    Quote(entry.name) + (":" + Write(entry.value))
  }

  // ---- reading ----

  function HexDigit(c: char): (d: Option<nat>)
    ensures d.Some? ==> d.value < 16
  {
    if '0' <= c <= '9' then Some(c as int - '0' as int)
    else if 'a' <= c <= 'f' then Some(c as int - 'a' as int + 10)
    else if 'A' <= c <= 'F' then Some(c as int - 'A' as int + 10)
    else None
  }

  function ReadHex4(s: string): (n: Option<nat>)
    ensures n.Some? ==> |s| >= 4 && n.value < 0x10000
  {
    if |s| < 4 then None else
      match (HexDigit(s[0]), HexDigit(s[1]), HexDigit(s[2]), HexDigit(s[3]))
      case (Some(a), Some(b), Some(c), Some(d)) => Some(16 * (16 * (16 * a + b) + c) + d)
      case _ => None
  }

  // One character of a string body; None at the closing quote or on malformed input.
  function ReadChar(s: string): (r: Option<(char, string)>)
    ensures r.Some? ==> |r.value.1| < |s|
  {
    if s == "" || s[0] == '\"' then None
    else if s[0] != '\\' then (if s[0] < ' ' then None else Some((s[0], s[1..])))
    else if |s| < 2 then None
    else match s[1]
      case '\"' => Some(('\"', s[2..]))
      case '\\' => Some(('\\', s[2..]))
      case '/' => Some(('/', s[2..]))
      case 'b' => Some((8 as char, s[2..]))
      case 'f' => Some((12 as char, s[2..]))
      case 'n' => Some(('\n', s[2..]))
      case 'r' => Some(('\r', s[2..]))
      case 't' => Some(('\t', s[2..]))
      case 'u' => ReadUnicode(s[2..])
      case _ => None
  }

  function ReadUnicode(s: string): (r: Option<(char, string)>)
    ensures r.Some? ==> |r.value.1| < |s|
  {
    match ReadHex4(s)
    case None => None
    case Some(n) =>
      if 0xD800 <= n < 0xDC00 then
        (if |s| < 6 || s[4] != '\\' || s[5] != 'u' then None else
          match ReadHex4(s[6..])
          case None => None
          case Some(m) =>
            if 0xDC00 <= m < 0xE000
            then Some(((0x10000 + (n - 0xD800) * 0x400 + (m - 0xDC00)) as char, s[10..]))
            else None)
      else if 0xDC00 <= n < 0xE000 then None
      else Some((n as char, s[4..]))
  }

  function ReadBody(s: string): (r: Option<(string, string)>)
    ensures r.Some? ==> |r.value.1| < |s|
    decreases |s|
  {
    if s == "" then None
    else if s[0] == '\"' then Some(("", s[1..]))
    else match ReadChar(s)
      case None => None
      case Some((c, rest)) =>
        match ReadBody(rest)
        case None => None
        case Some((body, rest')) => Some(([c] + body, rest'))
  }

  function Read(s: string): (r: Option<(Tree, string)>)
    ensures r.Some? ==> |r.value.1| < |s|
    decreases |s|, 0
  {
    if s == "" then None
    else if s[0] == '\"' then
      (match ReadBody(s[1..])
       case None => None
       case Some((body, rest)) => Some((Text(body), rest)))
    else if s[0] == '[' then
      (match ReadItems(s[1..], true)
       case None => None
       case Some((items, rest)) => Some((List(items), rest)))
    else if s[0] == '{' then
      (match ReadEntries(s[1..], true)
       case None => None
       case Some((entries, rest)) => Some((Dict(entries), rest)))
    else if "true" <= s then Some((Flag(true), s[4..]))
    else if "false" <= s then Some((Flag(false), s[5..]))
    else None
  }

  function ReadItems(s: string, first: bool): (r: Option<(seq<Tree>, string)>)
    ensures r.Some? ==> |r.value.1| < |s|
    decreases |s|, 1
  {
    if s == "" then None
    else if s[0] == ']' then Some(([], s[1..]))
    else if !first && s[0] != ',' then None
    else match Read(if first then s else s[1..])
      case None => None
      case Some((item, rest)) =>
        match ReadItems(rest, false)
        case None => None
        case Some((items, rest')) => Some(([item] + items, rest'))
  }

  function ReadEntries(s: string, first: bool): (r: Option<(seq<Entry>, string)>)
    ensures r.Some? ==> |r.value.1| < |s|
    decreases |s|, 1
  {
    if s == "" then None
    else if s[0] == '}' then Some(([], s[1..]))
    else if !first && s[0] != ',' then None
    else match ReadEntry(if first then s else s[1..])
      case None => None
      case Some((entry, rest)) =>
        match ReadEntries(rest, false)
        case None => None
        case Some((entries, rest')) => Some(([entry] + entries, rest'))
  }

  function ReadEntry(s: string): (r: Option<(Entry, string)>)
    ensures r.Some? ==> |r.value.1| < |s|
    decreases |s|, 0
  {
    if s == "" || s[0] != '\"' then None else
    match ReadBody(s[1..])
    case None => None
    case Some((name, colon)) =>
      if colon == "" || colon[0] != ':' then None else
      match Read(colon[1..])
      case None => None
      case Some((value, rest)) => Some((Entry(name, value), rest))
  }

  // ---- round trip ----

  lemma HexDigitOfChar(d: nat)
    requires d < 16
    ensures HexDigit(HexChar(d)) == Some(d)
  {
  }

  lemma HexRoundTrip(n: nat, rest: string)
    requires n < 0x10000
    ensures ReadHex4(Hex4(n) + rest) == Some(n)
    ensures (Hex4(n) + rest)[4..] == rest
  {
    var s := Hex4(n) + rest;
    var q, p := n / 16, n / 16 / 16;
    assert s[0] == HexChar(p / 16) && s[1] == HexChar(p % 16);
    assert s[2] == HexChar(q % 16) && s[3] == HexChar(n % 16);
    HexDigitOfChar(p / 16);
    HexDigitOfChar(p % 16);
    HexDigitOfChar(q % 16);
    HexDigitOfChar(n % 16);
  }

  lemma PairText(hi: nat, lo: nat, rest: string)
    requires hi < 0x10000 && lo < 0x10000
    ensures var s := Hex4(hi) + ("\\u" + (Hex4(lo) + rest));
      s[4] == '\\' && s[5] == 'u' && s[6..] == Hex4(lo) + rest && s[10..] == rest
  {
    var tail := "\\u" + (Hex4(lo) + rest);
    var s := Hex4(hi) + tail;
    assert s[4] == tail[0] && s[5] == tail[1];
    assert s[6..] == tail[2..];
  }

  lemma ReadPair(hi: nat, lo: nat, rest: string)
    requires 0xD800 <= hi < 0xDC00 && 0xDC00 <= lo < 0xE000
    ensures ReadUnicode(Hex4(hi) + ("\\u" + (Hex4(lo) + rest))) ==
            Some(((0x10000 + (hi - 0xD800) * 0x400 + (lo - 0xDC00)) as char, rest))
  {
    PairText(hi, lo, rest);
    HexRoundTrip(hi, "\\u" + (Hex4(lo) + rest));
    HexRoundTrip(lo, rest);
  }

  lemma Regroup(u: string, a: string, b: string, rest: string)
    ensures u + a + (u + b) + rest == u + (a + (u + (b + rest)))
    ensures |u| == 2 ==> (u + (a + (u + (b + rest))))[2..] == a + (u + (b + rest))
  {
  }

  lemma ReadEscapeU(s: string)
    ensures ReadChar("\\u" + s) == ReadUnicode(s)
  {
    assert ("\\u" + s)[2..] == s;
  }

  lemma AstralText(c: char)
    requires c as int >= 0x10000
    ensures var v := c as int - 0x10000;
      Escape(c) == "\\u" + Hex4(0xD800 + v / 0x400) + ("\\u" + Hex4(0xDC00 + v % 0x400))
  {
  }

  lemma EscapeAstral(c: char, rest: string)
    requires c as int >= 0x10000
    ensures ReadChar(Escape(c) + rest) == Some((c, rest))
  {
    var v := c as int - 0x10000;
    var hi, lo := 0xD800 + v / 0x400, 0xDC00 + v % 0x400;
    AstralText(c);
    var a, b, u := Hex4(hi), Hex4(lo), "\\u";
    Regroup(u, a, b, rest);
    ReadPair(hi, lo, rest);
    ReadEscapeU(a + (u + (b + rest)));
  }

  lemma EscapeRoundTrip(c: char, rest: string)
    ensures ReadChar(Escape(c) + rest) == Some((c, rest))
  {
    if c as int >= 0x10000 {
      EscapeAstral(c, rest);
    } else {
      var e := Escape(c);
      var s := e + rest;
      assert |e| == 1 ==> s[1..] == rest;
      assert |e| == 2 ==> s[2..] == rest;
      if |e| == 6 {
        assert s == "\\u" + (Hex4(c as int) + rest);
        assert s[2..] == Hex4(c as int) + rest;
        HexRoundTrip(c as int, rest);
      }
    }
  }

  lemma {:induction false} BodyRoundTrip(body: string, rest: string)
    ensures ReadBody(EscapeAll(body) + ("\"" + rest)) == Some((body, rest))
  {
    if body == "" {
      assert EscapeAll(body) + ("\"" + rest) == "\"" + rest;
    } else {
      var tail := EscapeAll(body[1..]) + ("\"" + rest);
      assert EscapeAll(body) + ("\"" + rest) == Escape(body[0]) + tail;
      EscapeRoundTrip(body[0], tail);
      BodyRoundTrip(body[1..], rest);
      assert body == [body[0]] + body[1..];
    }
  }

  lemma {:induction false} QuoteRoundTrip(s: string, rest: string)
    ensures (Quote(s) + rest)[0] == '\"'
    ensures ReadBody((Quote(s) + rest)[1..]) == Some((s, rest))
  {
    assert (Quote(s) + rest)[1..] == EscapeAll(s) + ("\"" + rest);
    BodyRoundTrip(s, rest);
  }

  lemma {:induction false} WriteHead(t: Tree)
    ensures |Write(t)| > 0 && Write(t)[0] !in {']', '}', ','}
  {
  }

  lemma FlagRoundTrip(b: bool, rest: string)
    ensures Read(Write(Flag(b)) + rest) == Some((Flag(b), rest))
  {
    var w := Write(Flag(b));
    var s := w + rest;
    assert s[0] == w[0] && s[..|w|] == w && s[|w|..] == rest;
  }

  /** Reading undoes writing, whatever follows: the text determines the value. */
  lemma {:induction false} ReadWrite(t: Tree, rest: string)
    ensures Read(Write(t) + rest) == Some((t, rest))
    decreases t
  {
    var s := Write(t) + rest;
    match t
    case Text(body) => QuoteRoundTrip(body, rest);
    case Flag(b) => FlagRoundTrip(b, rest);
    case List(items) =>
      assert s[1..] == WriteItems(items, true) + rest;
      ReadWriteItems(items, true, rest);
    case Dict(entries) =>
      assert s[1..] == WriteEntries(entries, true) + rest;
      ReadWriteEntries(entries, true, rest);
  }

  lemma ItemsStep(s: string, first: bool, item: Tree, tail: string, items: seq<Tree>, rest: string)
    requires s != "" && s[0] != ']' && (first || s[0] == ',')
    requires Read(if first then s else s[1..]) == Some((item, tail))
    requires ReadItems(tail, false) == Some((items, rest))
    ensures ReadItems(s, first) == Some(([item] + items, rest))
  {
    hide Read;
  }

  lemma ItemsText(items: seq<Tree>, first: bool, rest: string)
    requires items != []
    ensures var s, body := WriteItems(items, first) + rest,
                           Write(items[0]) + (WriteItems(items[1..], false) + rest);
      s == (if first then "" else ",") + body && body[0] !in {']', '}', ','}
  {
    WriteHead(items[0]);
    hide Write;
  }

  lemma {:induction false} ReadWriteItems(items: seq<Tree>, first: bool, rest: string)
    ensures ReadItems(WriteItems(items, first) + rest, first) == Some((items, rest))
    decreases items
  {
    var s := WriteItems(items, first) + rest;
    hide Write, Read;
    if items == [] {
      assert s[1..] == rest;
    } else {
      var tail := WriteItems(items[1..], false) + rest;
      ItemsText(items, first, rest);
      assert (if first then s else s[1..]) == Write(items[0]) + tail;
      ReadWrite(items[0], tail);
      ReadWriteItems(items[1..], false, rest);
      ItemsStep(s, first, items[0], tail, items[1..], rest);
      assert items == [items[0]] + items[1..];
    }
  }

  lemma EntriesStep(s: string, first: bool, entry: Entry, tail: string, entries: seq<Entry>, rest: string)
    requires s != "" && s[0] != '}' && (first || s[0] == ',')
    requires ReadEntry(if first then s else s[1..]) == Some((entry, tail))
    requires ReadEntries(tail, false) == Some((entries, rest))
    ensures ReadEntries(s, first) == Some(([entry] + entries, rest))
  {
    hide ReadEntry;
  }

  lemma EntriesText(entries: seq<Entry>, first: bool, rest: string)
    requires entries != []
    ensures var s, body := WriteEntries(entries, first) + rest,
                           WriteEntry(entries[0]) + (WriteEntries(entries[1..], false) + rest);
      s == (if first then "" else ",") + body && body[0] == '\"'
  {
    assert WriteEntry(entries[0])[0] == '\"';
    hide WriteEntry;
  }

  lemma {:induction false} ReadWriteEntries(entries: seq<Entry>, first: bool, rest: string)
    ensures ReadEntries(WriteEntries(entries, first) + rest, first) == Some((entries, rest))
    decreases entries
  {
    var s := WriteEntries(entries, first) + rest;
    hide WriteEntry, ReadEntry;
    if entries == [] {
      assert s[1..] == rest;
    } else {
      var tail := WriteEntries(entries[1..], false) + rest;
      EntriesText(entries, first, rest);
      assert (if first then s else s[1..]) == WriteEntry(entries[0]) + tail;
      ReadWriteEntry(entries[0], tail);
      ReadWriteEntries(entries[1..], false, rest);
      EntriesStep(s, first, entries[0], tail, entries[1..], rest);
      assert entries == [entries[0]] + entries[1..];
    }
  }

  lemma {:induction false} ReadWriteEntry(entry: Entry, rest: string)
    ensures ReadEntry(WriteEntry(entry) + rest) == Some((entry, rest))
    decreases entry
  {
    ReadWrite(entry.value, rest);
    hide Write, Read;
    EntryText(entry, rest);
    EntryRead(entry, Write(entry.value) + rest, rest);
  }

  lemma EntryText(entry: Entry, rest: string)
    ensures WriteEntry(entry) + rest == Quote(entry.name) + (":" + (Write(entry.value) + rest))
  {
    hide Quote, Write;
  }

  lemma EntryRead(entry: Entry, tail: string, rest: string)
    requires Read(tail) == Some((entry.value, rest))
    ensures ReadEntry(Quote(entry.name) + (":" + tail)) == Some((entry, rest))
  {
    var colon := ":" + tail;
    QuoteRoundTrip(entry.name, colon);
    assert colon[1..] == tail;
    hide Read, Quote, ReadBody;
  }

  lemma {:induction false} WriteInjective(a: Tree, b: Tree)
    requires Write(a) == Write(b)
    ensures a == b
  {
    ReadWrite(a, "");
    ReadWrite(b, "");
  }
}
