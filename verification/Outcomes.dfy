/** `Outcome`: the closed results of admission and execution, and the failure payloads they carry. */
module Outcomes {
  import opened JsonText
  import opened Options
  import P = Provider
  import opened Utf8
  import W = WireRequest

  const UNCORRELATED_BODY := "invalid request\n"

  const INVALID_REQUEST := "invalid_request"
  const UNSUPPORTED_CAPABILITY := "unsupported_capability"
  const INTERNAL_ERROR := "internal_error"

  const INVALID_REQUEST_MESSAGE := "The request is invalid."
  const UNSUPPORTED_CAPABILITY_MESSAGE := "The required capability is not supported."
  const INTERNAL_ERROR_MESSAGE := "The request could not be processed."

  // The zero value has no kind.
  datatype Kind = NoKind | UncorrelatedFailure | AdmissionFailure | ProviderKind | InternalFailure

  datatype Outcome = Outcome(
    kind: Kind,
    requestID: seq<Byte>,
    failureCode: string,
    result: P.Result,
    providerError: P.InvokeError)

  function RequestID(o: Outcome): Option<seq<Byte>> {
    match o.kind
    case AdmissionFailure => Some(o.requestID)
    case ProviderKind => Some(o.requestID)
    case InternalFailure => Some(o.requestID)
    case _ => None
  }

  function FailureBody(o: Outcome): Option<seq<Byte>> {
    match o.kind
    case UncorrelatedFailure => Some(Encode(UNCORRELATED_BODY))
    case AdmissionFailure => Some(CorrelatedFailureBody(o.requestID, o.failureCode))
    case InternalFailure => Some(CorrelatedFailureBody(o.requestID, o.failureCode))
    case _ => None
  }

  function FailureCode(o: Outcome): Option<string> {
    match o.kind
    case AdmissionFailure => Some(o.failureCode)
    case InternalFailure => Some(o.failureCode)
    case _ => None
  }

  function ProviderOutcome(o: Outcome): Option<(P.Result, P.InvokeError)> {
    match o.kind
    case ProviderKind => Some((o.result, o.providerError))
    case _ => None
  }

  function NewUncorrelatedFailure(): Outcome {
    Outcome(UncorrelatedFailure, [], "", P.ZERO_RESULT, P.NoError)
  }

  function NewFailure(kind: Kind, requestID: seq<Byte>, code: string): Outcome {
    Outcome(kind, requestID, code, P.ZERO_RESULT, P.NoError)
  }

  function NewInvalidRequestFailure(requestID: seq<Byte>): Outcome {
    NewFailure(AdmissionFailure, requestID, INVALID_REQUEST)
  }

  function NewUnsupportedCapabilityFailure(requestID: seq<Byte>): Outcome {
    NewFailure(AdmissionFailure, requestID, UNSUPPORTED_CAPABILITY)
  }

  function NewInternalFailure(requestID: seq<Byte>): Outcome {
    NewFailure(InternalFailure, requestID, INTERNAL_ERROR)
  }

  function NewProviderOutcome(requestID: seq<Byte>, result: P.Result, error: P.InvokeError): Outcome {
    Outcome(ProviderKind, requestID, "", result, error)
  }

  function FailureMessage(code: string): string {
    if code == INVALID_REQUEST then INVALID_REQUEST_MESSAGE
    else if code == UNSUPPORTED_CAPABILITY then UNSUPPORTED_CAPABILITY_MESSAGE
    else INTERNAL_ERROR_MESSAGE
  }

  const BEFORE_ID := "{\"version\":\"v1\",\"kind\":\"model_turn.failed\",\"request_id\":\""
  const BEFORE_CODE := "\",\"error\":{\"code\":\""
  const BEFORE_MESSAGE := "\",\"message\":\""
  const AFTER_MESSAGE := "\",\"retryable\":false}}"

  // `correlatedFailureBody`: plain concatenation, nothing escaped
  function CorrelatedFailureBody(requestID: seq<Byte>, code: string): seq<Byte> {
    Encode(BEFORE_ID) + requestID + Encode(BEFORE_CODE) + Encode(code) + Encode(BEFORE_MESSAGE)
    + Encode(FailureMessage(code)) + Encode(AFTER_MESSAGE)
  }

  // ---- the document a failure body spells ----

  function ErrorDocument(code: string, message: string): Tree {
    Dict([Entry("code", Text(code)), Entry("message", Text(message)), Entry("retryable", Flag(false))])
  }

  function FailureDocument(id: string, code: string): Tree {
    Dict([Entry("version", Text("v1")), Entry("kind", Text("model_turn.failed")),
          Entry("request_id", Text(id)), Entry("error", ErrorDocument(code, FailureMessage(code)))])
  }

  // Characters JSON writes as themselves.
  predicate PlainText(s: string) {
    forall i :: 0 <= i < |s| ==> ' ' <= s[i] <= '~' && s[i] != '\"' && s[i] != '\\'
  }

  lemma {:induction false} EscapePlain(s: string)
    requires PlainText(s)
    ensures EscapeAll(s) == s
  {
    if s != "" {
      EscapePlain(s[1..]);
      assert Escape(s[0]) == [s[0]];
      assert s == [s[0]] + s[1..];
    }
  }

  lemma QuotePlain(s: string)
    requires PlainText(s)
    ensures Quote(s) == "\"" + s + "\""
  {
    EscapePlain(s);
    assert "\"" + (s + "\"") == "\"" + s + "\"";
  }

  lemma EntryThen(e: Entry, rest: seq<Entry>, first: bool)
    ensures WriteEntries([e] + rest, first) == (if first then "" else ",") + WriteEntry(e) + WriteEntries(rest, false)
  {
    hide WriteEntry;
    assert ([e] + rest)[1..] == rest;
  }

  lemma ThreeEntries(a: Entry, b: Entry, c: Entry)
    ensures Write(Dict([a, b, c])) ==
      "{" + WriteEntry(a) + ("," + WriteEntry(b) + ("," + WriteEntry(c) + "}"))
  {
    EntryThen(c, [], false);
    EntryThen(b, [c], false);
    EntryThen(a, [b, c], true);
    assert [c] + [] == [c] && [b] + [c] == [b, c] && [a] + [b, c] == [a, b, c];
    EmptyEntries();
    hide WriteEntry, WriteEntries;
    assert "" + WriteEntry(a) == WriteEntry(a);
  }

  lemma FourEntries(a: Entry, b: Entry, c: Entry, d: Entry)
    ensures Write(Dict([a, b, c, d])) ==
      "{" + WriteEntry(a) + ("," + WriteEntry(b) + ("," + WriteEntry(c) + ("," + WriteEntry(d) + "}")))
  {
    EntryThen(d, [], false);
    EntryThen(c, [d], false);
    EntryThen(b, [c, d], false);
    EntryThen(a, [b, c, d], true);
    assert [d] + [] == [d] && [c] + [d] == [c, d] && [b] + [c, d] == [b, c, d] && [a] + [b, c, d] == [a, b, c, d];
    EmptyEntries();
    hide WriteEntry, WriteEntries;
    assert "" + WriteEntry(a) == WriteEntry(a);
  }

  lemma EmptyEntries()
    ensures WriteEntries([], false) == "}"
  {
  }

  function Opening(name: string): string { "\"" + name + "\":\"" }

  lemma TextEntry(name: string, s: string)
    requires PlainText(name) && PlainText(s)
    ensures WriteEntry(Entry(name, Text(s))) == Opening(name) + (s + "\"")
  {
    QuotePlain(name);
    QuotePlain(s);
    assert Write(Text(s)) == Quote(s);
    hide Quote, PlainText, Write;
    Assoc("\"" + name + "\"", ":", "\"" + s + "\"");
    Assoc("\"" + name, "\"", ":");
    Assoc("\"", s, "\"");
    Assoc("\"" + name + ("\"" + ":"), "\"", s + "\"");
    Assoc("\"" + name, "\"" + ":", "\"");
    assert "\"" + ":" + "\"" == "\":\"";
  }

  lemma Assoc(a: string, b: string, c: string)
    ensures (a + b) + c == a + (b + c)
  {
  }

  // Two text entries and a last entry, with the joints gathered around the texts.
  lemma TwoTexts(o: string, h: string, x: string, q: string, s: string, k: string, y: string, c: string, z: string)
    ensures o + (h + (x + q)) + (s + (k + (y + q)) + (s + c + z)) ==
      (o + h) + x + (q + s + k) + y + (q + s + c + z)
  {
    // both sides, nested to the right
    Assoc(o, h + (x + q), s + (k + (y + q)) + (s + c + z));
    Assoc(h, x + q, s + (k + (y + q)) + (s + c + z));
    Assoc(x, q, s + (k + (y + q)) + (s + c + z));
    Assoc(s, k + (y + q), s + c + z);
    Assoc(k, y + q, s + c + z);
    Assoc(y, q, s + c + z);
    Assoc(q, s + c, z);
    Assoc(q, s, c);
    var rest := q + (s + c + z);
    Assoc((o + h) + x + (q + s + k), y, rest);
    Assoc((o + h) + x, q + s + k, y + rest);
    Assoc(o + h, x, q + s + k + (y + rest));
    Assoc(o, h, x + (q + s + k + (y + rest)));
    Assoc(q + s, k, y + rest);
    Assoc(q, s, k + (y + rest));
  }

  // The text a correlated failure spells, in the order the source concatenates it.
  function FailureText(id: string, code: string): string {
    BEFORE_ID + id + BEFORE_CODE + code + BEFORE_MESSAGE + FailureMessage(code) + AFTER_MESSAGE
  }

  // The literals of the source, joined one piece at a time.
  lemma OpeningCode() ensures Opening("code") == "\"code\":\"" {
    assert "\"" + "code" == "\"code";
    assert "\"code" + "\":\"" == "\"code\":\"";
  }

  lemma OpeningMessage() ensures Opening("message") == "\"message\":\"" {
    assert "\"" + "message" == "\"message";
    assert "\"message" + "\":\"" == "\"message\":\"";
  }

  lemma OpeningRequestID() ensures Opening("request_id") == "\"request_id\":\"" {
    assert "\"" + "request_id" == "\"request_id";
    assert "\"request_id" + "\":\"" == "\"request_id\":\"";
  }

  lemma JoinCode() ensures "{" + "\"code\":\"" == "{\"code\":\"" {}

  lemma JoinMessage() ensures "\"" + "," + "\"message\":\"" == BEFORE_MESSAGE {
    assert "\"" + "," == "\",";
  }

  lemma JoinRetryable() ensures "\"" + "," + "\"retryable\":false" + "}" == "\",\"retryable\":false}" {
    assert "\"" + "," == "\",";
    assert "\"," + "\"retryable\":false" == "\",\"retryable\":false";
  }

  lemma ErrorText(code: string, message: string)
    requires PlainText(code) && PlainText(message)
    ensures Write(ErrorDocument(code, message)) ==
      "{\"code\":\"" + code + BEFORE_MESSAGE + message + "\",\"retryable\":false}"
  {
    hide WriteEntry, Write, PlainText, Opening;
    var c := "\"retryable\":false";
    ErrorEntries(code, message);
    RetryableText();
    OpeningCode();
    OpeningMessage();
    JoinCode();
    JoinMessage();
    JoinRetryable();
    TwoTexts("{", Opening("code"), code, "\"", ",", Opening("message"), message, c, "}");
  }

  lemma ErrorEntries(code: string, message: string)
    requires PlainText(code) && PlainText(message)
    ensures Write(ErrorDocument(code, message)) ==
      "{" + (Opening("code") + (code + "\"")) + ("," + (Opening("message") + (message + "\""))
        + ("," + WriteEntry(Entry("retryable", Flag(false))) + "}"))
  {
    ThreeEntries(Entry("code", Text(code)), Entry("message", Text(message)), Entry("retryable", Flag(false)));
    CodeName();
    MessageName();
    hide WriteEntry, Write, PlainText, Opening;
    TextEntry("code", code);
    TextEntry("message", message);
  }

  lemma CodeName() ensures PlainText("code") {}
  lemma MessageName() ensures PlainText("message") {}
  lemma RetryableName() ensures PlainText("retryable") {}
  lemma VersionName() ensures PlainText("version") && PlainText("v1") {}
  lemma KindName() ensures PlainText("kind") {}
  lemma KindValue() ensures PlainText("model_turn.failed") {}
  lemma ErrorName() ensures PlainText("error") {}
  lemma NamePlain() ensures PlainText("request_id") {}

  lemma RetryableText()
    ensures WriteEntry(Entry("retryable", Flag(false))) == "\"retryable\":false"
  {
    RetryableName();
    QuotePlain("retryable");
    assert Write(Flag(false)) == "false";
    hide Quote, PlainText, Write;
    assert "\"" + "retryable" == "\"retryable";
    assert "\"retryable" + "\"" == "\"retryable\"";
    assert ":" + "false" == ":false";
    assert "\"retryable\"" + ":false" == "\"retryable\":false";
  }

  // One text entry between fixed entries and a nested document with two texts of its own.
  lemma NestedTexts(o: string, a: string, s: string, b: string, h: string, x: string, q: string, k: string,
                    e: string, y: string, f: string, m: string, g: string, z: string)
    ensures o + a + (s + b + (s + (h + (x + q)) + (s + (k + (e + y + f + m + g)) + z))) ==
      (o + a + s + b + s + h) + x + (q + s + k + e) + y + f + m + (g + z)
  {
    // the nested document, to the right
    var right := g + z;
    Assoc(e + y + f + m, g, z);
    Assoc(e + y + f, m, right);
    Assoc(e + y, f, m + right);
    Assoc(e, y, f + (m + right));
    Assoc(k, e + y + f + m + g, z);
    var rest := y + (f + (m + right));
    Assoc(s, k + (e + y + f + m + g), z);
    Assoc(s, h + (x + q), s + (k + (e + y + f + m + g)) + z);
    Assoc(h, x + q, s + (k + (e + rest)));
    Assoc(x, q, s + (k + (e + rest)));
    var tail := h + (x + (q + (s + (k + (e + rest)))));
    Assoc(s, b, s + tail);
    Assoc(o, a, s + (b + (s + tail)));
    // the right-hand side, likewise
    var joint := q + s + k + e;
    Assoc(q + s + k, e, rest);
    Assoc(q + s, k, e + rest);
    Assoc(q, s, k + (e + rest));
    var head := o + a + s + b + s + h;
    Assoc(head + x + joint + y + f, m, right);
    Assoc(head + x + joint + y, f, m + right);
    Assoc(head + x + joint, y, f + (m + right));
    Assoc(head + x, joint, rest);
    Assoc(head, x, joint + rest);
    Assoc(o + a + s + b + s, h, x + (joint + rest));
    Assoc(o + a + s + b, s, tail);
    Assoc(o + a + s, b, s + tail);
    Assoc(o + a, s, b + (s + tail));
  }

  lemma VersionEntry()
    ensures WriteEntry(Entry("version", Text("v1"))) == "\"version\":\"v1\""
  {
    VersionName();
    TextEntry("version", "v1");
    hide WriteEntry, PlainText;
    assert "\"" + "version" == "\"version";
    assert "\"version" + "\":\"" == "\"version\":\"";
    assert "v1" + "\"" == "v1\"";
    assert "\"version\":\"" + "v1\"" == "\"version\":\"v1\"";
  }

  lemma KindEntry()
    ensures WriteEntry(Entry("kind", Text("model_turn.failed"))) == "\"kind\":\"model_turn.failed\""
  {
    hide WriteEntry, PlainText, Opening;
    KindName();
    KindValue();
    TextEntry("kind", "model_turn.failed");
    OpeningKind();
    JoinKindQuote();
    JoinKindText();
  }

  lemma OpeningKind() ensures Opening("kind") == "\"kind\":\"" {
    assert "\"" + "kind" == "\"kind";
    assert "\"kind" + "\":\"" == "\"kind\":\"";
  }

  lemma JoinKindQuote() ensures "model_turn.failed" + "\"" == "model_turn.failed\"" {}

  lemma JoinKindText() ensures "\"kind\":\"" + "model_turn.failed\"" == "\"kind\":\"model_turn.failed\"" {}

  lemma JoinVersion() ensures "{" + "\"version\":\"v1\"" == "{\"version\":\"v1\"" {}

  lemma JoinVersionComma() ensures "{\"version\":\"v1\"" + "," == "{\"version\":\"v1\"," {}

  lemma JoinKind()
    ensures "{\"version\":\"v1\"," + "\"kind\":\"model_turn.failed\"" ==
            "{\"version\":\"v1\",\"kind\":\"model_turn.failed\""
  {}

  lemma JoinKindComma()
    ensures "{\"version\":\"v1\",\"kind\":\"model_turn.failed\"" + "," ==
            "{\"version\":\"v1\",\"kind\":\"model_turn.failed\","
  {}

  lemma JoinRequestID()
    ensures "{\"version\":\"v1\",\"kind\":\"model_turn.failed\"," + "\"request_id\":\"" == BEFORE_ID
  {}

  lemma JoinError() ensures "\"" + "," + "\"error\":" + "{\"code\":\"" == BEFORE_CODE {
    assert "\"" + "," == "\",";
    assert "\"," + "\"error\":" == "\",\"error\":";
    assert "\",\"error\":" + "{\"code\":\"" == BEFORE_CODE;
  }

  lemma JoinEnd() ensures "\",\"retryable\":false}" + "}" == AFTER_MESSAGE {}

  lemma ErrorEntry(code: string, message: string)
    requires PlainText(code) && PlainText(message)
    ensures WriteEntry(Entry("error", ErrorDocument(code, message))) ==
      "\"error\":" + Write(ErrorDocument(code, message))
  {
    ErrorName();
    QuotePlain("error");
    hide PlainText, Write, Quote, ErrorDocument;
    var w := Write(ErrorDocument(code, message));
    assert "\"" + "error" == "\"error";
    assert "\"error" + "\"" == "\"error\"";
    Assoc("\"error\"", ":", w);
    assert "\"error\"" + ":" == "\"error\":";
  }

  lemma FailureTextWritten(id: string, code: string)
    requires PlainText(id) && PlainText(code) && PlainText(FailureMessage(code))
    ensures FailureText(id, code) == Write(FailureDocument(id, code))
  {
    var message := FailureMessage(code);
    var error := Entry("error", ErrorDocument(code, message));
    hide PlainText, Write, WriteEntry, Opening, FailureMessage, ErrorDocument;
    FourEntries(Entry("version", Text("v1")), Entry("kind", Text("model_turn.failed")),
                Entry("request_id", Text(id)), error);
    VersionEntry();
    KindEntry();
    NamePlain();
    TextEntry("request_id", id);
    ErrorEntry(code, message);
    ErrorText(code, message);
    OpeningRequestID();
    JoinVersion();
    JoinVersionComma();
    JoinKind();
    JoinKindComma();
    JoinRequestID();
    JoinError();
    JoinEnd();
    NestedTexts("{", "\"version\":\"v1\"", ",", "\"kind\":\"model_turn.failed\"", Opening("request_id"), id, "\"",
                "\"error\":", "{\"code\":\"", code, BEFORE_MESSAGE, message, "\",\"retryable\":false}", "}");
  }

  // Which message goes with which code.
  predicate PublicPair(code: string, message: string) {
    (code == "invalid_request" && message == "The request is invalid.")
    || (code == "unsupported_capability" && message == "The required capability is not supported.")
    || (code == "internal_error" && message == "The request could not be processed.")
  }

  lemma CodesDiffer()
    ensures INVALID_REQUEST != UNSUPPORTED_CAPABILITY && INVALID_REQUEST != INTERNAL_ERROR
    ensures UNSUPPORTED_CAPABILITY != INTERNAL_ERROR
  {
    assert INVALID_REQUEST[2] == 'v' && UNSUPPORTED_CAPABILITY[0] == 'u' && INTERNAL_ERROR[2] == 't';
  }

  lemma MessagePaired(code: string)
    requires KnownCode(code)
    ensures PublicPair(code, FailureMessage(code))
  {
    CodesDiffer();
  }

  // The text is one failure document, with these three values in it.
  ghost predicate ReadsAs(text: string, id: string, code: string, message: string) {
    Read(text) ==
      Some((Dict([Entry("version", Text("v1")), Entry("kind", Text("model_turn.failed")),
                  Entry("request_id", Text(id)),
                  Entry("error", Dict([Entry("code", Text(code)), Entry("message", Text(message)),
                                       Entry("retryable", Flag(false))]))]), ""))
  }

  predicate KnownCode(code: string) {
    code == INVALID_REQUEST || code == UNSUPPORTED_CAPABILITY || code == INTERNAL_ERROR
  }

  lemma InvalidPlain() ensures PlainText(INVALID_REQUEST) && PlainText(INVALID_REQUEST_MESSAGE) {}
  lemma UnsupportedCodePlain() ensures PlainText(UNSUPPORTED_CAPABILITY) {}
  lemma UnsupportedMessagePlain() ensures PlainText(UNSUPPORTED_CAPABILITY_MESSAGE) {}
  lemma InternalPlain() ensures PlainText(INTERNAL_ERROR) && PlainText(INTERNAL_ERROR_MESSAGE) {}

  lemma CodesPlain(code: string)
    requires KnownCode(code)
    ensures PlainText(code) && PlainText(FailureMessage(code))
  {
    hide PlainText;
    InvalidPlain();
    UnsupportedCodePlain();
    UnsupportedMessagePlain();
    InternalPlain();
  }

  lemma {:induction false} IdentifierPlain(id: string)
    requires W.Identifier(Encode(id))
    ensures PlainText(id)
  {
    hide Encode;
    assert forall i :: 0 <= i < |Encode(id)| ==> Encode(id)[i] < 0x80;
    AsciiBytes(id);
    EncodeAscii(id);
    forall i | 0 <= i < |id| ensures ' ' <= id[i] <= '~' && id[i] != '\"' && id[i] != '\\' {
      assert W.IdentifierByte(Encode(id)[i]);
    }
  }

  lemma {:induction false} BodyEncodes(id: string, code: string)
    ensures CorrelatedFailureBody(Encode(id), code) == Encode(FailureText(id, code))
  {
    hide Encode;
    var m := FailureMessage(code);
    EncodeConcat(BEFORE_ID, id);
    EncodeConcat(BEFORE_ID + id, BEFORE_CODE);
    EncodeConcat(BEFORE_ID + id + BEFORE_CODE, code);
    EncodeConcat(BEFORE_ID + id + BEFORE_CODE + code, BEFORE_MESSAGE);
    EncodeConcat(BEFORE_ID + id + BEFORE_CODE + code + BEFORE_MESSAGE, m);
    EncodeConcat(BEFORE_ID + id + BEFORE_CODE + code + BEFORE_MESSAGE + m, AFTER_MESSAGE);
  }

  lemma DocumentReadsAs(text: string, id: string, code: string)
    requires Read(text) == Some((FailureDocument(id, code), ""))
    ensures ReadsAs(text, id, code, FailureMessage(code))
  {
    hide Read;
  }

  /** A correlated failure body, built without escaping, is UTF-8 JSON that reads back as exactly
      the admitted identifier, the code and its fixed message. */
  lemma {:induction false} FailureBodyReadsBack(id: string, code: string)
    requires W.Identifier(Encode(id)) && KnownCode(code)
    ensures Decode(CorrelatedFailureBody(Encode(id), code)).Some?
    ensures Read(Decode(CorrelatedFailureBody(Encode(id), code)).value) == Some((FailureDocument(id, code), ""))
    ensures PublicPair(code, FailureMessage(code))
    ensures ReadsAs(Decode(CorrelatedFailureBody(Encode(id), code)).value, id, code, FailureMessage(code))
  {
    hide *;
    MessagePaired(code);
    IdentifierPlain(id);
    CodesPlain(code);
    FailureTextWritten(id, code);
    BodyEncodes(id, code);
    DecodeOfEncode(FailureText(id, code));
    ReadWrite(FailureDocument(id, code), "");
    assert Write(FailureDocument(id, code)) + "" == Write(FailureDocument(id, code));
    DocumentReadsAs(Decode(CorrelatedFailureBody(Encode(id), code)).value, id, code);
  }
}
