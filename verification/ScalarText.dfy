/** Bounded Unicode text: `validScalarText` on the admission side and `validateText` on the
    provider side, both against one declarative rule. */
module ScalarText {
  import opened Options
  import opened Utf8

  // The bytes encode a text of bounded length, with no control or line separator where rejected.
  predicate ValidText(text: seq<Byte>, minimum: int, maximum: int, rejectControls: bool) {
    match Decode(text)
    case None => false
    case Some(t) => minimum <= |t| <= maximum && (rejectControls ==> NoUnsafe(t))
  }

  predicate NoUnsafe(t: string) { forall i | 0 <= i < |t| :: !UnsafeRune(t[i] as int) }

  // `isUnsafeSourceCharacter`
  predicate UnsafeRune(v: int) {
    v <= 0x1F || 0x7F <= v <= 0x9F || v == 0x2028 || v == 0x2029
  }

  // The text decoded so far, and what remains, make up the whole.
  ghost predicate Split(whole: seq<Byte>, done: string, rest: seq<Byte>) {
    (Decode(whole).Some? <==> Decode(rest).Some?)
    && (Decode(rest).Some? ==> Decode(whole) == Some(done + Decode(rest).value))
  }

  lemma SplitStep(whole: seq<Byte>, done: string, rest: seq<Byte>)
    requires Split(whole, done, rest) && rest != [] && !Invalid(DecodeRune(rest))
    ensures Scalar(DecodeRune(rest).0)
    ensures Split(whole, done + [DecodeRune(rest).0 as char], rest[DecodeRune(rest).1..])
  {
    DecodeScalar(rest);
    hide DecodeRune;
    var (v, size) := DecodeRune(rest);
    if Decode(rest).Some? {
      var tail := Decode(rest[size..]).value;
      assert done + ([v as char] + tail) == done + [v as char] + tail;
    }
  }

  // Text seen so far that already breaks the rule settles the answer.
  lemma PrefixFails(whole: seq<Byte>, done: string, rest: seq<Byte>, minimum: int, maximum: int, rejectControls: bool)
    requires Split(whole, done, rest)
    requires |done| > maximum || (rejectControls && !NoUnsafe(done))
    ensures !ValidText(whole, minimum, maximum, rejectControls)
  {
    if Decode(rest).Some? {
      var t := done + Decode(rest).value;
      assert forall i :: 0 <= i < |done| ==> t[i] == done[i];
    }
  }

  /** `validScalarText` accepts exactly the UTF-8 encodings of admissible texts. */
  method ValidScalarText(text: seq<Byte>, minimum: int, maximum: int, rejectControls: bool) returns (ok: bool)
    ensures maximum >= 0 ==> (ok <==> ValidText(text, minimum, maximum, rejectControls))
    ensures maximum < 0 ==> (ok <==> text == [] && minimum <= 0)  // the bound is checked per character
  {
    hide DecodeRune, ValidText;
    var length, rest := 0, text;
    ghost var done := "";
    SplitStart(text);
    while rest != []
      invariant Split(text, done, rest) && length == |done| && (length <= maximum || rest == text)
      invariant rejectControls ==> NoUnsafe(done)
      decreases |rest|
    {
      var (character, size) := DecodeRune(rest);
      if character == RUNE_ERROR && size == 1 {
        Broken(text, done, rest, minimum, maximum, rejectControls);
        return false;
      }
      SplitStep(text, done, rest);
      done := done + [character as char];
      length := length + 1;
      if length > maximum || (rejectControls && UnsafeRune(character)) {
        assert done[|done| - 1] == character as char;
        PrefixFails(text, done, rest[size..], minimum, maximum, rejectControls);
        return false;
      }
      rest := rest[size..];
    }
    ok := length >= minimum;
    if maximum >= 0 {
      Finished(text, done, minimum, maximum, rejectControls);
    }
  }

  lemma SplitStart(text: seq<Byte>)
    ensures Split(text, "", text)
  {
    assert forall t: string :: "" + t == t;
  }

  lemma Broken(whole: seq<Byte>, done: string, rest: seq<Byte>, minimum: int, maximum: int, rejectControls: bool)
    requires Split(whole, done, rest) && rest != [] && Invalid(DecodeRune(rest))
    ensures !ValidText(whole, minimum, maximum, rejectControls)
  {
  }

  lemma Finished(whole: seq<Byte>, done: string, minimum: int, maximum: int, rejectControls: bool)
    requires Split(whole, done, [])
    requires |done| <= maximum
    requires rejectControls ==> NoUnsafe(done)
    ensures ValidText(whole, minimum, maximum, rejectControls) <==> minimum <= |done|
  {
    assert done + "" == done;
  }

  datatype TextError = NotUtf8 | WrongLength | ControlCharacter

  // The bytes begin with this text.
  ghost predicate Begins(bytes: seq<Byte>, t: string) { exists rest :: bytes == Encode(t) + rest }

  // What an error says of the bytes: they go on with no character after a text that is still fine, its
  // last character is one too many or unsafe, or the whole is too short.
  ghost predicate Blames(error: TextError, text: seq<Byte>, minimum: int, maximum: int, rejectControls: bool) {
    match error
    case NotUtf8 => Decode(text).None?
    case WrongLength =>
      (exists t :: Begins(text, t) && |t| > 0 && |t| > maximum)
      || (exists t :: text == Encode(t) && |t| < minimum)
    case ControlCharacter =>
      rejectControls && exists t :: Begins(text, t) && 0 < |t| <= maximum && UnsafeRune(t[|t| - 1] as int)
  }

  /** `validateText` raises no error on exactly the texts that `validScalarText` accepts. */
  method ValidateText(text: seq<Byte>, minimum: int, maximum: int, rejectControls: bool)
    returns (error: Option<TextError>)
    ensures maximum >= 0 ==> (error.None? <==> ValidText(text, minimum, maximum, rejectControls))
    ensures maximum < 0 ==> (error.None? <==> text == [] && minimum <= 0)
    ensures error.Some? ==> Blames(error.value, text, minimum, maximum, rejectControls)
  {
    hide DecodeRune, ValidText, Blames, Encode, UnsafeRune, NoUnsafe;
    var length, rest := 0, text;
    ghost var done := "";
    SplitStart(text);
    EncodeNothing(text);
    while rest != []
      invariant text == Encode(done) + rest
      invariant Split(text, done, rest) && length == |done| && (length <= maximum || rest == text)
      invariant rejectControls ==> NoUnsafe(done)
      decreases |rest|
    {
      var (character, size) := DecodeRune(rest);
      if character == RUNE_ERROR && size == 1 {
        Broken(text, done, rest, minimum, maximum, rejectControls);
        BlamesEncoding(text, done, rest, minimum, maximum, rejectControls);
        return Some(NotUtf8);
      }
      SplitStep(text, done, rest);
      EncodeStep(text, done, rest);
      ghost var before := done;
      done := done + [character as char];
      GrownUnsafe(before, character);
      length := length + 1;
      if length > maximum {
        PrefixFails(text, done, rest[size..], minimum, maximum, rejectControls);
        BlamesLength(text, done, rest[size..], minimum, maximum, rejectControls);
        return Some(WrongLength);
      }
      if rejectControls && UnsafeRune(character) {
        assert done[|done| - 1] == character as char;
        BlamesControl(text, done, rest[size..], minimum, maximum, rejectControls);
        PrefixFails(text, done, rest[size..], minimum, maximum, rejectControls);
        return Some(ControlCharacter);
      }
      rest := rest[size..];
    }
    if maximum >= 0 {
      Finished(text, done, minimum, maximum, rejectControls);
    }
    if length < minimum {
      BlamesShort(text, done, minimum, maximum, rejectControls);
      return Some(WrongLength);
    }
    return None;
  }

  lemma EncodeNothing(bytes: seq<Byte>)
    ensures bytes == Encode("") + bytes && NoUnsafe("")
  {
  }

  lemma GrownUnsafe(done: string, v: int)
    requires Scalar(v)
    ensures NoUnsafe(done + [v as char]) <==> NoUnsafe(done) && !UnsafeRune(v)
  {
    hide UnsafeRune;
    var t := done + [v as char];
    assert forall i | 0 <= i < |done| :: t[i] == done[i];
    assert t[|done|] == v as char;
  }

  lemma BlamesEncoding(whole: seq<Byte>, done: string, rest: seq<Byte>, minimum: int, maximum: int,
                       rejectControls: bool)
    requires Split(whole, done, rest) && rest != [] && Invalid(DecodeRune(rest))
    ensures Blames(NotUtf8, whole, minimum, maximum, rejectControls)
  {
  }

  lemma BlamesLength(whole: seq<Byte>, done: string, rest: seq<Byte>, minimum: int, maximum: int, rejectControls: bool)
    requires whole == Encode(done) + rest && |done| > 0 && |done| > maximum
    ensures Blames(WrongLength, whole, minimum, maximum, rejectControls)
  {
    hide Encode;
    assert Begins(whole, done);
  }

  lemma BlamesShort(whole: seq<Byte>, done: string, minimum: int, maximum: int, rejectControls: bool)
    requires whole == Encode(done) + [] && |done| < minimum
    ensures Blames(WrongLength, whole, minimum, maximum, rejectControls)
  {
    hide Encode;
    assert whole == Encode(done);
  }

  lemma BlamesControl(whole: seq<Byte>, done: string, rest: seq<Byte>, minimum: int, maximum: int,
                      rejectControls: bool)
    requires whole == Encode(done) + rest && rejectControls
    requires 0 < |done| <= maximum && UnsafeRune(done[|done| - 1] as int)
    ensures Blames(ControlCharacter, whole, minimum, maximum, rejectControls)
  {
    hide Encode, UnsafeRune;
    assert Begins(whole, done);
  }

  // One more character of the bytes that make up the whole.
  lemma EncodeStep(whole: seq<Byte>, done: string, rest: seq<Byte>)
    requires whole == Encode(done) + rest && rest != [] && !Invalid(DecodeRune(rest))
    ensures Scalar(DecodeRune(rest).0)
    ensures whole == Encode(done + [DecodeRune(rest).0 as char]) + rest[DecodeRune(rest).1..]
  {
    DecodeScalar(rest);
    hide DecodeRune, EncodeChar;
    var (v, size) := DecodeRune(rest);
    EncodeConcat(done, [v as char]);
    assert [v as char][1..] == "" && Encode([v as char]) == EncodeChar(v as char) + [];
    assert rest == rest[..size] + rest[size..];
  }

  /** The rule over the text rather than its bytes. */
  lemma ValidTextEncoded(t: string, minimum: int, maximum: int, rejectControls: bool)
    ensures ValidText(Encode(t), minimum, maximum, rejectControls) <==>
      minimum <= |t| <= maximum && (rejectControls ==> NoUnsafe(t))
  {
    DecodeOfEncode(t);
  }
}
