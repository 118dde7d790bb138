# FastGate model-turn v1: a verified model

FastGate states one contract twice. `scripts/check_contract.py` holds a small JSON Schema language: a
well-formedness checker, an interpreter, a value equality, JSON Pointer paths and a canonical form
that is hashed to freeze a schema. `gateway/internal/modelturn` holds a hand-written admission path in
Go: a bounded body reader, a surrogate scanner, a recursive-descent token walk and an exact decoder
that feeds one provider call. Around them stand a strict fake provider, a server lifecycle and an HTTP
presentation. This project models all of these and proves how they behave on every input and every run.

`dafny verify dfyconfig.toml` checks the project.

## How the model is built

- Decoded JSON is an ordered association list per object (`Json.dfy`), so that key order is visible and
  reordering is something to prove. Strings hold Unicode scalars, as strict parsing leaves them; the
  two places that see surrogates (`SurrogateScan.dfy`, `ScalarCheck.dfy`) use code points and bytes.
- Numbers are sign, digits and exponent (`Decimals.dfy`); 64, 64.0 and 6.4e1 are three decimals of one
  value. Python compares decimals by exact value, which is a `real` here.
- Go strings are byte sequences. `Utf8.dfy` has RFC 3629 encoding and Go's one-rune decoder.
- Code that appends to a captured list, drains a reader, moves a cursor or consumes a string is a class
  or a method with loops, proved equal to a function; the laws are lemmas about that function.
- A method's precondition is the source's own: the interpreter and the canonicaliser take schemas that
  raised no issue. `TypeSoundness.dfy` runs the interpreter over any JSON value instead, with `None` where
  Python raises, and proves that a schema without issues never gets there.
- What the code cannot see is a parameter: the `io.Reader` is any function from call number and offered
  size to a reply; the lexer inside `encoding/json` is any function from bytes to a token stream; the
  invoker is any function from call number, request and context to an answer.
- `lemma` bodies use `hide` to keep irrelevant definitions out of a proof.

## Main results

1. `Bridge.SameVerdict`, `WireDocument.DecodeExact`: on every strict document with an object root, the Go
   decoder accepts exactly when the Python interpreter, run on the committed request schema, reports
   nothing, and then decodes exactly the request that the members say. `Patterns.PatternMeans`: the
   patterns behind that verdict mean what their text says.
2. `Canonical.CanonicalTextExact` and `Meaning.CanonicalTextMeans`: equal hashed texts, exactly for
   schemas that differ in key order, in the order of `required` and `enum`, in number spelling and in
   node annotations; and such schemas report the same violations on every instance.
3. `Validator.ValidateInstance`, `TypeSoundness.NeverStuck`, `Locations.ReportExact`: the capped interpreter
   never raises on a well-formed schema, is sound and complete for a declarative meaning, and reports a
   rule at a path exactly when the value there breaks it. `IssueReport.IssuesExact`: so does the
   well-formedness checker, for schema nodes.
4. `Executor.Execute`, `Executor.InvokedExact`, `Presentation.RefusedExact`, `Presentation.ExecuteAndPrepare`:
   for every reader, invoker and context, one provider call, with what the document says, for exactly the
   dispatchable bodies and none otherwise, and the one intended response to every body;
   `ResponseSchema.ResponsesConform`: the committed schemas accept every response.
5. `TokenWalk.DocumentExact`, `SurrogateScan.LexedExact`, `SurrogateScan.InStringExact`,
   `SurrogateScan.ScanKeepsReadersAlike`, `Executor.StrictExact`, `BodyReader.ChunkingIrrelevant`,
   `ScalarText.ValidScalarText`: what each stage of admission accepts, stated without its code.
6. `FakeProvider.CompleteExact`, `Service.ReturnsJoined`, `Service.MaximalRunsReturn`: every run of the
   fake provider, and every interleaving of the server lifecycle.

## Model

| member | source | states |
|---|---|---|
| `Decimals.ComputeNumberKey` | scripts/check_contract.py:212-221 | The loop that pops trailing zeros and bumps the exponent computes the specified key. |
| `Decimals.NumberKeyExact` | scripts/check_contract.py:212-221 | Two decimals share a key exactly when they are numerically equal, for any coefficient, trailing zeros, exponent and sign of zero. |
| `Decimals.IntegralExact` | scripts/check_contract.py:162-184 | A decimal counts as an integer exactly when it is zero or its key carries no negative exponent. |
| `Decimals.KeyReads` | scripts/check_contract.py:212-221 | A key spells the sign, the digits without zeros at either end and the power of ten that give the number back; zero is "0". |
| `Text.BeforeExact` | scripts/check_contract.py:226 | The sort order of names is decided at the first index where they differ. |
| `JsonText.ReadWrite` | scripts/check_contract.py:244-248 | The compact ASCII text of a value, followed by anything, reads back as that value and that rest. |
| `JsonText.WriteInjective` | scripts/check_contract.py:261-263 | The serialised sort key and the hashed text determine the value they were written from. |
| `JsonStrings.QuoteUnescapes` | scripts/check_contract.py:244-248 | A serialised text is one ASCII string token, and unescaping it by section 7 of RFC 8259 gives its code points back. |
| `Sorting.SortCanonical` | scripts/check_contract.py:243-248 | Sorting by a key that decides the entry gives equal lists exactly for equal multisets. |
| `Sorting.SortDistinct` | scripts/check_contract.py:226-227 | With distinct names, sorted entries agree exactly when the same entries occur. |
| `Canonical.EncodeExact` | scripts/check_contract.py:187-200 | Plain values have equal canonical forms exactly when `json_equal` holds between them. |
| `Canonical.JsonEqualEquivalence` | scripts/check_contract.py:187-200 | `json_equal` is reflexive, symmetric and transitive on exact JSON values. |
| `Canonical.UnorderedExact` | scripts/check_contract.py:241-248 | `required` and `enum` contribute their multiset of encoded items, no more and no less. |
| `Canonical.RearrangedExact` | scripts/check_contract.py:241-248 | One list rearranges into another up to `json_equal` exactly when those multisets are equal. |
| `Canonical.NodeExact` | scripts/check_contract.py:223-259 | Two schema nodes encode alike exactly when they are equivalent keyword by keyword. |
| `Canonical.CanonicalTextExact` | scripts/check_contract.py:209-264 | The texts hashed for two schemas are equal exactly when the schemas differ only in what the profile declares irrelevant. |
| `Canonical.AnnotationIgnored` | scripts/check_contract.py:228-229 | A title or description added to the schema node at any path, anywhere among its members, leaves the hashed text unchanged. |
| `Canonical.SameNodes` | scripts/check_contract.py:231-240 | Equivalent schemas have nodes at the same paths, whatever the properties on the way are called, and the nodes at one path are equivalent. |
| `Canonical.NamesAndValuesCount` | scripts/check_contract.py:231-248 | Under equal hashed texts every node, at any path, has the same property names, title and description included, and rearranged enum values. |
| `Meaning.WellFormedEncodable` | scripts/check_contract.py:223-259 | The canonicaliser never raises on an issue-free schema. |
| `Meaning.ViolationsMatch` | scripts/check_contract.py:386-443 | Equivalent issue-free schemas yield the same multiset of violations on every instance. |
| `Meaning.CanonicalTextMeans` | scripts/check_contract.py:209-264 | Issue-free schemas of one canonical text accept the same instances, report equally many violations, and the same ones below the cap. |
| `SchemaProfile.IssueFreeExact` | scripts/check_contract.py:295-383 | A schema raises no issue exactly when it is well formed node by node, marked at its root only and not nested too deep. |
| `SchemaChecker.Checker.Walk` | scripts/check_contract.py:295-380 | The walk appends the node's issues in order to the list captured so far and stops at fifty. |
| `SchemaChecker.Checker.Add` | scripts/check_contract.py:271-276 | One issue is appended unless the list is full. |
| `SchemaChecker.SchemaIssues` | scripts/check_contract.py:267-383 | The first fifty issues in walk order are returned, all of them below fifty, and none exactly for a well-formed schema. |
| `IssueReport.InNode` | scripts/check_contract.py:295-380 | A node contributes the conditions it breaks, at its own path, and the issues of its properties and items, each at its own. |
| `IssueReport.IssuesExact` | scripts/check_contract.py:267-383 | An issue of a kind is reported at a path exactly when the path leads, through properties names and items, to a node that breaks the condition the kind stands for. |
| `IssueOrder.InOrder` | scripts/check_contract.py:295-380 | Issues come node by node as the schema is read, unsupported keywords by name first, each node's conditions in one fixed order before and after its children. |
| `Validator.Walker.Walk` | scripts/check_contract.py:394-440 | The walk appends the instance's violations in order to the list captured so far, early return included, and stops at twenty-five. |
| `Validator.Walker.Add` | scripts/check_contract.py:390-392 | One violation is appended unless the list is full. |
| `Validator.Walker.WalkMembers` | scripts/check_contract.py:411-415 | Known members are walked and unknown ones reported, in the instance's own order. |
| `Validator.ValidateInstance` | scripts/check_contract.py:386-443 | The first twenty-five violations are returned, all of them below that number, and an empty list exactly for conforming instances. |
| `Patterns.PatternMeans` | scripts/check_contract.py:61-66 | Both audited patterns, read from their own text as anchored character classes with repeats, match exactly what the interpreter takes them to match. |
| `Patterns.UnsafeClass` | gateway/internal/modelturn/request.go:225-230 | The rune test and the interpreter call unsafe exactly the characters in the ranges the control-safe pattern spells. |
| `Validator.ViolationsNone` | scripts/check_contract.py:394-440 | The full list of violations is empty exactly when the instance satisfies the declarative conformance relation. |
| `ReportOrder.InOrder` | scripts/check_contract.py:394-440 | Violations come place by place as the instance is read, each place's broken rules in one fixed order, required once for each missing name. |
| `TypeSoundness.RunSound` | scripts/check_contract.py:394-440 | On a well-formed node every lookup, iteration, membership test and comparison of the walk is defined, whatever was found before, and the walk ends with the capped violations. |
| `TypeSoundness.NeverStuck` | scripts/check_contract.py:386-443 | A schema without issues never makes the interpreter raise, and nothing is found exactly for conforming instances. |
| `TypeSoundness.ObjectNeedsKeywords` | scripts/check_contract.py:405-408 | An object node without `properties` or `required` makes the walk raise on every object. |
| `Pointer.EscapeRoundTrip` | scripts/check_contract.py:203-206 | Unescaping by section 4 of RFC 6901 undoes the two replacements, and no slash survives them. |
| `Pointer.EscapeInjective` | scripts/check_contract.py:203-206 | Different tokens have different escapes. |
| `Pointer.EscapeStep` | scripts/check_contract.py:203-206 | Escaping goes character by character, `~0` for a tilde and `~1` for a slash. |
| `Pointer.ParseRender` | scripts/check_contract.py:61 | Every rendered path is a well-formed pointer that parses back into its tokens. |
| `Locations.Found` | scripts/check_contract.py:394-440 | Each reported violation comes with tokens that render to its path and lead, through instance and schema together, to a value that breaks the rule. |
| `Locations.Reported` | scripts/check_contract.py:394-440 | Whatever breaks a rule along some path is reported at that path. |
| `Locations.ReportExact` | scripts/check_contract.py:394-440 | A rule is reported at a path exactly when the path's tokens lead to a value that breaks it. |
| `Locations.ReportedPathsResolve` | scripts/check_contract.py:203-206 | Every reported path parses as a JSON Pointer and resolves inside the instance to the offending value. |
| `ScalarCheck.RequireUnicodeScalars` | scripts/check_contract.py:145-159 | The work-list walk ends, accepts exactly documents of scalars at most 128 levels deep, and each refusal names a real defect. |
| `ScalarCheck.SameSurrogates` | gateway/internal/modelturn/parse.go:142-180 | The byte scanner accepts an encoded document exactly when the document it decodes to holds scalars only. |
| `RequestSchema.RequestSchemaWellFormed` | gateway/contracts/model-turn/v1/schema/request.schema.json:1-103 | The committed request schema raises no issue. |
| `SchemaNodes.ClosedOverMeans` | scripts/check_contract.py:406-415 | A closed object node that requires all its properties accepts exactly the objects with those members, each conforming. |
| `SchemaNodes.ArrayNodeMeans` | scripts/check_contract.py:416-424 | An array node accepts exactly the lists of bounded length whose items all conform. |
| `SchemaNodes.PatternNodeMeans` | scripts/check_contract.py:425-436 | A string node with bounds and an audited pattern accepts exactly the bounded strings of that shape. |
| `SchemaNodes.IntegerNodeMeans` | scripts/check_contract.py:437-440 | An integer node accepts exactly the integers within its bounds, however they are spelled. |
| `SchemaNodes.ClosedConforms` | scripts/check_contract.py:406-415 | A closed object node accepts exactly the objects with every required field and no member that is not a conforming field. |
| `Bridge.IdentifierBridge` | gateway/internal/modelturn/request.go:188-207 | 128 bytes of the identifier class on one side and 128 code points under the pattern on the other admit the same identifiers. |
| `Bridge.MessageBridge` | gateway/internal/modelturn/request.go:108-124 | A message decodes exactly when it conforms to the conversation item schema. |
| `Bridge.InstructionBridge` | gateway/internal/modelturn/request.go:126-138 | An instruction decodes exactly when it conforms to the instruction item schema. |
| `Bridge.SameVerdict` | gateway/internal/modelturn/request.go:37-106 | For every object root of a strict document, the decoder accepts exactly when the interpreter on the request schema reports no violation. |
| `Bridge.StrictDocumentsAgree` | gateway/internal/modelturn/request_test.go:488-531 | The same agreement for every token stream the walk accepts, where the repository has fixtures. |
| `Bridge.BothVerdicts` | gateway/internal/modelturn/request_test.go:520-529 | Running decoder and interpreter on one strict object never gives different verdicts. |
| `Utf8.DecodeExact` | gateway/internal/modelturn/request.go:211-216 | Bytes decode to a text exactly when they are its UTF-8 encoding. |
| `Utf8.Valid` | gateway/internal/modelturn/parse.go:71 | The validity pass accepts exactly the encodings of some text. |
| `ScalarText.ValidScalarText` | gateway/internal/modelturn/request.go:209-223 | The loop accepts exactly the UTF-8 encodings of texts with length in bounds and, where rejected, no control or line separator; under a negative maximum only the empty text can pass. |
| `ScalarText.ValidateText` | gateway/internal/provider/provider.go:389-422 | The provider's loop raises no error on exactly the same inputs, and an error blames what is wrong: the encoding, the length, or an unsafe character. |
| `BodyReader.ReadRequestBody` | gateway/internal/modelturn/parse.go:25-69 | Against every reader the loop ends with what that reader's own answers to the offered sizes amount to, after exactly the calls that takes, its buffer never above 8388609 bytes and fewer than twice that copied. |
| `BodyReader.EndExact` | gateway/internal/modelturn/parse.go:31-60 | The reply that ends the loop decides: a count not offered, a byte beyond 8388608, the reader's end or error, or the hundredth stall in a row; at most 32768 bytes are offered. |
| `BodyReader.ServedToTheEnd` | gateway/internal/modelturn/parse.go:31-60 | Every reader serves replies, one for each call, whose step-by-step reading ends in that result. |
| `BodyReader.Append` | gateway/internal/modelturn/parse.go:42-50 | Growth keeps the bytes, doubles the capacity up to the limit, and always makes room for what is needed. |
| `BodyReader.ChunkingIrrelevant` | gateway/internal/modelturn/parse.go:25-69 | A lawful reader with at most 99 stalls in a row gives its whole stream up to 8388608 bytes, too-large beyond, or its own error, however it cuts the stream. |
| `BodyReader.ReadAlike` | gateway/internal/modelturn/parse.go:25-69 | Two readers that cut one stream with one end differently get one result. |
| `BodyReader.EveryStreamReads` | gateway/internal/modelturn/parse.go:25-69 | Any stream and end can be served byte by byte, and then read as promised. |
| `SurrogateScan.HexValueExact` | gateway/internal/modelturn/parse.go:189-198 | A byte is a hex digit of a value exactly when it is the character at that place among the sixteen digits, in either case. |
| `SurrogateScan.DecodeHexEscape` | gateway/internal/modelturn/parse.go:182-201 | Four hex digits give their 16-bit value, anything else nothing. |
| `SurrogateScan.HexPlaces` | gateway/internal/modelturn/parse.go:182-201 | The four digits weigh 4096, 256, 16 and 1, in this order. |
| `SurrogateScan.SimpleExact` | gateway/internal/modelturn/parse.go:153-160 | The two-character escapes are those of section 7 of RFC 8259, each with its code point. |
| `SurrogateScan.HasValidSurrogateEscapes` | gateway/internal/modelturn/parse.go:142-180 | The index loop computes the scanner's verdict on the whole input, and takes exactly the scanner's turns, with its index and `inString` at each. |
| `SurrogateScan.TurnExact` | gateway/internal/modelturn/parse.go:145-178 | On any bytes, a turn refuses exactly a backslash that ends the input, a `\u` without four hex digits, a lone low surrogate, or a high one without its low, and otherwise moves on by what it read. |
| `SurrogateScan.InStringExact` | gateway/internal/modelturn/parse.go:143-150 | On any byte sequence whose strings lex, `inString` is true at a turn exactly when the turn starts inside a string token. |
| `SurrogateScan.ScanUnits` | gateway/internal/modelturn/parse.go:142-180 | From an opening quote the scanner stays inside the string to its closing quote, and passes exactly units that decode to scalars. |
| `SurrogateScan.ScanExact` | gateway/internal/modelturn/parse.go:142-180 | Over any sequence of JSON strings and bytes between them the scanner ends outside strings, having passed exactly the documents whose strings decode to scalars. |
| `SurrogateScan.LexExact` | gateway/internal/modelturn/parse.go:142-180 | A string lexer finds the valid strings of a byte sequence and the bytes between them exactly when it is made of them, in the one way it can be. |
| `SurrogateScan.LexedExact` | gateway/internal/modelturn/parse.go:142-180 | Any byte sequence whose strings lex is accepted exactly when unescaping every string yields Unicode scalars only. |
| `SurrogateScan.ReadersAgree` | scripts/check_contract.py:145-159 | A string token gives Go, which replaces unpaired surrogate escapes, and Python, which keeps them, one text exactly when that text holds scalars only. |
| `SurrogateScan.ScanKeepsReadersAlike` | gateway/internal/modelturn/parse.go:142-180 | The scanner passes exactly the lexable byte sequences from whose strings Go and Python read the same texts. |
| `TokenWalk.WalkValue` | gateway/internal/modelturn/parse.go:84-140 | The recursive walk accepts what the grammar parses and leaves the cursor where the parse ends. |
| `TokenWalk.WalkDocument` | gateway/internal/modelturn/parse.go:75-81 | One value followed by the end of the stream, and nothing else, is accepted. |
| `TokenWalk.ParseComplete` | gateway/internal/modelturn/parse.go:84-140 | The tokens of any strict tree, followed by anything, are walked exactly to their end. |
| `TokenWalk.DocumentExact` | gateway/internal/modelturn/parse.go:70-140 | A stream is accepted as tree v exactly when it is v's tokens with a clean end, at most sixteen containers of v lie within one another and no object in it repeats a name. |
| `Provider.Validate` | gateway/internal/provider/provider.go:97-149 | No error is raised on exactly the requests whose counts, roles, texts and capabilities are all valid, and an error names the first thing wrong. |
| `Provider.NewRequest` | gateway/internal/provider/provider.go:73-94 | Construction succeeds on exactly the valid requests and keeps its arguments. |
| `Provider.ValidateResult` | gateway/internal/provider/provider.go:194-208 | A result is valid exactly when its text is bounded UTF-8 and any usage is in range. |
| `Provider.ValidateInvocation` | gateway/internal/provider/provider.go:330-354 | Under a caller context that is not nil, exactly the three invocation alternatives are accepted; under a nil one, none. |
| `Provider.AlternativesExclusive` | gateway/internal/provider/provider.go:317-323 | A valid invocation is a result or an error, never both, and a termination matches the caller's context. |
| `Provider.InvocationExact` | gateway/internal/provider/provider.go:330-354 | What each alternative needs, in numbers: a nil error, a termination, a failure; nothing else passes. |
| `Provider.RequestExact` | gateway/internal/provider/provider.go:97-149 | A request is valid exactly within the limits of model-turn v1, in numbers. |
| `WireRequest.ValidIdentifier` | gateway/internal/modelturn/request.go:188-201 | The byte loop accepts exactly the identifiers. |
| `WireRequest.HasExactFields` | gateway/internal/modelturn/request.go:176-186 | The count and the loop together require each listed field and admit no more members than fields. |
| `WireRequest.DecodeWireMessage` | gateway/internal/modelturn/request.go:108-124 | A message decodes exactly when it is good, to its role and content. |
| `WireRequest.DecodeWireInstruction` | gateway/internal/modelturn/request.go:126-138 | An instruction decodes exactly when it is good, to its source and content. |
| `WireRequest.DecodeWireRequest` | gateway/internal/modelturn/request.go:37-106 | Exactly the admissible objects decode, with every list kept in order. |
| `WireRequest.MapProviderRequest` | gateway/internal/modelturn/request.go:232-245 | Mapping succeeds exactly for capability-free requests the provider accepts. |
| `WireRequest.DecodedMaps` | gateway/internal/modelturn/request.go:232-245 | Mapping never fails on a decoded request that requires no capability. |
| `WireDocument.MessageExact` | gateway/internal/modelturn/request.go:108-124 | A message decodes to the role its "role" names and the text its "content" says, and to nothing else. |
| `WireDocument.DecodeExact` | gateway/internal/modelturn/request.go:37-106 | An object decodes to a wire request exactly when its members, in any order, say that request and the request is within the limits. |
| `WireDocument.PrintedDecodes` | gateway/internal/modelturn/request.go:37-106 | A request written down with its members in any order decodes to that request. |
| `Executor.ValidateStrictDocument` | gateway/internal/modelturn/parse.go:70-82 | The three checks together accept exactly the strict documents. |
| `Executor.StrictExact` | gateway/internal/modelturn/parse.go:70-82 | For a lexer that ends cleanly only over well-formed strings, a document is strict with tree v exactly when it is UTF-8, its strings unescape to scalars, and it lexes to the tokens of v, bounded in nesting and without repeated names. |
| `Executor.UncorrelatedExact` | gateway/internal/modelturn/executor.go:34-45 | A body is answered without an identifier exactly when it is no strict object that carries one. |
| `Executor.CorrelatedExact` | gateway/internal/modelturn/executor.go:46-57 | A strict object with an identifier is dispatched, refused for its capability, or invalid, exactly by whether it decodes, what it requires and which alias it names. |
| `Executor.InvokedExact` | gateway/internal/modelturn/executor.go:34-70 | Exactly the bodies that say a request, require nothing and name learning-text reach the invoker, once, with what they say. |
| `Executor.ReportedTerminationReal` | gateway/internal/modelturn/executor.go:65-69 | A termination is passed on only if the caller context stands ended by it; an invoker cannot claim one, and nothing else changes the context. |
| `Executor.DispatchMaps` | gateway/internal/modelturn/executor.go:59-63 | The mapping-error branch cannot be reached from Execute. |
| `Executor.AdmittedIdentifier` | gateway/internal/modelturn/executor.go:42-57 | Every correlated outcome carries an identifier the rule admits. |
| `Executor.ExecuteAdmitted` | gateway/internal/modelturn/executor.go:59-70 | One invocation with the mapped request; its answer is passed on if valid for the context as the call left it and replaced by an internal failure if not; otherwise nothing is touched. |
| `Executor.Execute` | gateway/internal/modelturn/executor.go:26-57 | The outcome, the requests the invoker saw and the context's end are exactly what this body's bytes, this invoker's answer and this context make of each other. |
| `Outcomes.FailureBodyReadsBack` | gateway/internal/modelturn/outcome.go:109-128 | A correlated body, concatenated without escaping, is UTF-8 JSON that reads back as the identifier, the code and the message that belongs to it. |
| `Presentation.MessagesDistinct` | gateway/internal/modelturnhttp/presentation.go:146-166 | Every known failure code has a public message of its own, and no other code has one. |
| `Presentation.FallbackExact` | gateway/internal/modelturnhttp/presentation.go:56-60 | An ordinary error, or an outcome of no kind, is answered by the plain internal error. |
| `Presentation.PresentedAsIntended` | gateway/internal/modelturnhttp/presentation.go:56-166 | Every outcome Execute can produce gets its intended response, status, code and public message included, never a fallback, and aborts exactly on a termination that matches the caller's context. |
| `Presentation.FailureResponseReadsBack` | gateway/internal/modelturnhttp/presentation.go:69-74 | Every correlated failure response reads back as the admitted identifier, its code and message. |
| `Presentation.ExecuteAndPrepare` | gateway/internal/modelturnhttp/handler.go:32-39 | The response is the one intended presentation of what this body, this invoker and this context make of each other, with the invocations Execute promises. |
| `Presentation.RefusedExact` | gateway/internal/modelturnhttp/presentation.go:56-98 | Which refusal a body gets, from its document alone: 400 without an identifier, 422 for a capability, 400 for any other correlated body, each with its code and message and no invocation. |
| `ResponseSchema.ResponseSchemasWellFormed` | gateway/contracts/model-turn/v1/schema/failure.schema.json:1-84 | The committed success and failure schemas raise no issue. |
| `ResponseSchema.ResponsesConform` | gateway/contracts/model-turn/v1/schema/success.schema.json:1-55 | Every JSON response any body, invoker and context can lead to spells a document that the committed success or failure schema accepts. |
| `ResponseSchema.ResultBridge` | gateway/internal/provider/provider.go:194-208 | The provider boundary admits exactly the results that the success schema can carry. |
| `ResponseSchema.FailureBridge` | gateway/internal/provider/provider.go:274-297 | It admits exactly the failures that the failure schema can carry beside a showable message. |
| `FakeProvider.Validate` | gateway/internal/provider/fake/fake.go:146-169 | Exactly the exchanges with a valid request and one valid outcome are accepted. |
| `FakeProvider.ExchangeExact` | gateway/internal/provider/fake/fake.go:146-169 | An exchange is valid exactly when its one outcome is what an invoker may return and nothing of the other stands beside it. |
| `FakeProvider.New` | gateway/internal/provider/fake/fake.go:74-85 | A fake is built for exactly the scripts of at most 64 valid exchanges, with the cursor at the start. |
| `FakeProvider.FirstRequestMismatch` | gateway/internal/provider/fake/fake.go:178-218 | No mismatch is reported exactly for equal requests, and otherwise the first differing place. |
| `FakeProvider.Provider.Invoke` | gateway/internal/provider/fake/fake.go:89-125 | Each call takes the one step its state and request allow: the scripted outcome, or the recorded violation. |
| `FakeProvider.Provider.VerifyComplete` | gateway/internal/provider/fake/fake.go:128-144 | Nothing is reported exactly when no violation is recorded and the script is consumed. |
| `FakeProvider.RunPrefix` | gateway/internal/provider/fake/fake.go:89-125 | Over every run, replies are the exchanges' own results and failures as long as the calls match the script, and a violation is recorded exactly when they do not. |
| `FakeProvider.FirstViolation` | gateway/internal/provider/fake/fake.go:99-118 | The first call that leaves the script is recorded as what it is: without a context, past the end, or different at its first differing place, under its number. |
| `FakeProvider.CompleteExact` | gateway/internal/provider/fake/fake.go:127-144 | A run verifies complete exactly when its calls are the script's requests in order and number. |
| `FakeProvider.ViolationSticks` | gateway/internal/provider/fake/fake.go:96-98 | The first violation never changes and every later call panics with it. |
| `FakeProvider.ScriptedValid` | gateway/internal/provider/fake/fake.go:120-124 | Whatever a valid script returns satisfies the provider boundary. |
| `Service.StepInv` | gateway/internal/service/service.go:80-125 | Every step of the owner, the goroutine or the caller keeps the invariant of the lifecycle. |
| `Service.RunHeard` | gateway/internal/service/service.go:88-125 | Over every run, what the goroutine sends and what the owner stops with are exactly what serving, shutdown and close returned. |
| `Service.ReturnsJoined` | gateway/internal/service/service.go:88-106 | Serve returns only after the one send was received once, with one shutdown, a close exactly when that shutdown failed, and nil exactly when serving ended cleanly and shutdown succeeded. |
| `Service.ShutdownCause` | gateway/internal/service/service.go:94-100 | Every step that starts shutdown comes after cancellation or with the end of serving in the channel. |
| `Service.SenderNeverBlocks` | gateway/internal/service/service.go:88-91 | The channel is free whenever the goroutine is about to send. |
| `Service.RunsEnd` | gateway/internal/service/service.go:80-106 | Every interleaving is finite: each step lowers a rank. |
| `Service.MaximalRunsReturn` | gateway/internal/service/service.go:80-125 | After cancellation or the end of serving, a run that cannot go on by itself has returned, if stopping the server makes serving return. |

## Left out

- Reading files, the fixture manifest, the pinned SHA-256 values and the command line of the contract checker: I/O, and constants compared only after hashing.
- Python float values and decimals beyond the implementation range: strict parsing yields exact decimals only.
- Diagnostic wording and truncation: an issue keeps its path and kind, a refusal its class.
- The regular-expression engine: `Patterns.dfy` reads only the form of the two audited patterns.
- The bytes-to-tokens lexer of `encoding/json` and Go's HTML-escaping marshaller: the lexer is a parameter, and completed and provider-failure responses keep their document instead of its bytes.
- Copy-on-read of slices in provider requests: requests are values here, so aliasing with a caller's slice cannot arise and is not shown to be prevented.
- The nil checks on a fake provider, on the arguments of `Serve` and on the executor's invoker: one-branch facts.
- HTTP target, method and media checks, the health handler, configuration and real timeouts: a shutdown deadline is a shutdown that fails.
