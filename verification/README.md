# Capability grants, verified

`sharedai.servicekit.capability_grants` is the receiver's half of a protocol of single-use
capability grants. An issuer signs a set of claims as canonical JSON; a caller presents the compact
token with an HTTP request; the receiver rebuilds the exact request, verifies the token against it,
redeems the grant at an authority, and only then runs the handler. This project models that module
in Dafny, from the bytes of a JSON number to the interleavings of many requests, and proves what it
promises. Three small components with loop or run properties stand beside it: think-block removal,
lease heartbeats and token estimates.

## Structure

| file | models |
|---|---|
| `Base`, `Runtimes`, `Utf8` | text, errors, library functions as parameters, strict UTF-8 (RFC 3629, section 3) |
| `Json`, `JsonPrint`, `JsonParse` | JSON values, the canonical printer, the strict reader (RFC 8259, sections 4, 6 and 7) |
| `JsonRoundTrip`, `JsonTheorems`, `JsonOrder`, `JsonShortest` | the reader inverts the printer; equality by bytes; nothing lost; order invisible; nothing shorter |
| `JsonGrammar`, `JsonForms` | the grammar of JSON texts apart from any reader, and the proof that the strict reader is it |
| `Base64Url`, `Hashing` | unpadded base64url (RFC 4648, sections 3.2, 3.5 and 5), hexadecimal SHA-256 |
| `Queries`, `Requests` | query canonicalisation and the request value on both sides of the wire |
| `Claims`, `Contracts` | the schemas, and the claims contract spelled out field by field |
| `Verifiers`, `VerifierTheorems` | `verify`, and exactly which tokens it accepts |
| `Verification` | `verify` as raising checks over local state, and what its error codes mean |
| `Issuers` | claims written field by field, and tokens for them |
| `RequiredClaims` | the frozen, route-specific required claims, and the caller's mutable mapping on the heap |
| `Presenting`, `Redeemability` | which grants an HTTP request can carry, and exactly which can be redeemed |
| `Dependencies`, `Headers`, `Redeemers`, `Endpoint` | the checks before redemption, the reply decision table, one request end to end |
| `Protocol` | many requests, one authority, all interleavings |
| `EndToEnd`, `TokenBinding` | sender, issuer, receiver and authority put together; one token, one request |
| `Assumptions`, `Witnesses` | a library that meets the assumptions below, and tokens, requests and runs under it |
| `ThinkBlocks`, `ThinkSplices` | `strip_think`, and exactly when it leaves a tag behind |
| `Leases`, `Tokens` | lease and activity records, `estimate_tokens` |

## Assumptions

Library functions are fields of a `Runtime` value, and nothing is known of them except what a lemma
names in its precondition.

- `FloatsRoundTrip`: `repr` of a finite float is a JSON float lexeme that `float` reads back as the
  same binary64 number. Integers, strings and everything else are printed and parsed for real.
- `SignsFor`: an honest signature has 64 bytes and verifies. Nothing is said about forgeries. Hash
  results are stated as "equal, or these two inputs are a collision".
- `KnowsWords`: what `\w` means is a parameter; the letters of the tag name belong to it, `<` and `>`
  do not.
- `Protocol.Enabled`: the authority gives a success answer at most once for each grant identifier. It
  may otherwise answer any call at any time, repeatedly, with anything; replies may be lost.

The first two can hold together (`Assumptions.AssumptionsCanHold`). Under them some token is accepted
(`Witnesses.SomeTokenIsAccepted`), some request is let through (`Witnesses.SomeRequestIsReady`) and in
some run a handler runs (`Witnesses.SomeHandlerRuns`), so the theorems that rest on them are not empty.

## What the code does not do

Each of these has an input that shows it and the exact condition under which the code does keep the
expectation.

- A request value does not determine body and query (`Requests.MaskingExists`). An accepted request
  with a body has a twin with the same value iff its query is not empty and encodable, or its query is
  empty and its body is an object with exactly `json` and `params`, the latter a non-empty canonical
  query (`Requests.TwinsAreExactlyTheAmbiguous`). For GET and HEAD the canonical query is the value.
- A grant that the verifier accepts may be impossible to redeem, in three ways, each under every
  library. The schema lets the six bound claims carry outer white space, which the header checks strip
  (`Witnesses.PaddedGrantIsStuck`). It lets the path start with two slashes or leave ASCII, which the
  raw path refuses (`Witnesses.DoubleSlashIsStuck`). And `verify` takes any value for the request, while
  a GET or HEAD request is always worth a canonical query (`Witnesses.NullByGetIsStuck`). At a route that
  serves the grant, some request with the value it was accepted for is let through iff its six claims
  are trimmed field texts, its path is a wire path and its value is receivable
  (`Redeemability.RedeemableExactly`); a request with another value that is let through is an explicit
  collision (`Redeemability.LetThroughHasValue`).
- The authority may be called without headers of its own (`Witnesses.SomeRequestIsReady`), where
  `src/sharedai/servicekit/CAPABILITY_GRANTS.md` says that absent auth fails closed. For a request that
  passes all checks that happens iff there is no header source or an empty mapping; a bad name or value
  always refuses first (`Dependencies.AuthHeadersBeforeTheCall`), and a blank value is not a bad one
  (`Witnesses.BlankHeaderIsGood`).
  What the authority then answers is its own affair, and the handler runs for an explicit yes only.
- The output of `strip_think` may contain a tag, and applying it again may change it
  (`ThinkSplices.TagLeftBehind`). Either happens iff the third pass has a splice: at most six kept
  characters right before a tag it removes that begin a tag together with what is left behind it
  (`ThinkSplices.CleanIffNoSplice`).
- A lease with a default heartbeat interval does not always survive two missed beats
  (`Leases.LateBeat`): it does iff its time to live is at least 3 (`Leases.SurvivesTwoMissedBeats`).

## Model

| member | source | states |
|---|---|---|
| Utf8.DecodeEncode | src/sharedai/servicekit/capability_grants.py:112-125 | every string without surrogates survives strict UTF-8 |
| Utf8.EncodeDecode | src/sharedai/servicekit/capability_grants.py:189-196 | decoding is strict: accepted bytes are the encoding of what they decode to, so overlong forms and surrogates are out |
| Base.StripIsExact | src/sharedai/servicekit/capability_grants.py:781-788 | `value.strip()` is exactly the text, with no white space at either end, that only white space surrounds |
| Base.StripFixesTrimmed | src/sharedai/servicekit/capability_grants.py:224-229 | `value == value.strip()` holds iff neither end of the text is white space |
| Json.LeqIsCodePointOrder | src/sharedai/servicekit/capability_grants.py:117-123 | the order of keys is: equal, a proper prefix, or a smaller character at the first difference |
| Json.SortedKeysAscend | src/sharedai/servicekit/capability_grants.py:117-123 | the sorted keys are the keys, each before the next in that order |
| JsonTheorems.PrintedKeysAscend | src/sharedai/servicekit/capability_grants.py:112-125 | the canonical text spells the value, and in every dict of it, at any depth, the keys ascend |
| JsonPrint.CodeNamesDefect | src/sharedai/servicekit/capability_grants.py:84-109 | the recursive check passes iff no string or key has a surrogate and no float is infinite or NaN, at any depth; the code names a defect that is there, and with defects of one kind it is that kind's |
| JsonParse.UniqueJsonObject | src/sharedai/servicekit/capability_grants.py:180-186 | the object hook, as a loop, refuses a repeated key and otherwise builds a dict with one entry a pair, each holding its own item |
| JsonRoundTrip.ScanNumberStops | src/sharedai/servicekit/capability_grants.py:189-204 | a comma, bracket or brace after a number never changes which number is read |
| JsonRoundTrip.ParsePrintString | src/sharedai/servicekit/capability_grants.py:112-125 | a printed string, escapes included, is read back up to exactly its closing quote |
| JsonRoundTrip.ParsePrint | src/sharedai/servicekit/capability_grants.py:112-125 | the strict reader stops exactly where the printed value stops, whatever delimited text follows, and sees the members in key order |
| JsonRoundTrip.ToJsonTreeOf | src/sharedai/servicekit/capability_grants.py:180-186 | members listed in key order build the very dict they came from, at every depth |
| JsonTheorems.CanonicalBytesDefined | src/sharedai/servicekit/capability_grants.py:112-125 | canonical bytes exist for exactly the valid values; the canonicalisation failure branch is never taken |
| JsonTheorems.RoundTrip | src/sharedai/servicekit/capability_grants.py:112-209 | strict parsing of the canonical bytes of any valid value gives the value back |
| JsonTheorems.CanonicalBytesDecideEquality | src/sharedai/servicekit/capability_grants.py:112-125 | two valid values print to the same bytes iff they are equal, with `true`, `1` and `1.0` kept apart |
| JsonOrder.DumpsIsPrint | src/sharedai/servicekit/capability_grants.py:117-123 | dicts kept in insertion order, sorted at every depth and printed member after member, give the text of the value they stand for |
| JsonOrder.InsertionOrderIsInvisible | src/sharedai/servicekit/capability_grants.py:117-123 | two values whose dicts were filled in different orders, at any depth, print to the same text |
| JsonTheorems.NothingIsLost | src/sharedai/servicekit/capability_grants.py:180-186 | a spelled-out tree without repeated keys becomes a value with one entry for every pair, at every depth |
| JsonTheorems.StrictParsingIsExact | src/sharedai/servicekit/capability_grants.py:189-209 | a text is accepted iff the lenient reader finds one value in it that repeats no key at any depth and passes validation, float overflow included; then every pair is kept |
| JsonGrammar.SpelledTextIsRead | src/sharedai/servicekit/capability_grants.py:189-204 | every spelling of a text, each character raw, by a short escape, by `\u` with digits of either case or by a UTF-16 pair, is read as that text |
| JsonGrammar.ReadTextWasSpelled | src/sharedai/servicekit/capability_grants.py:189-204 | a string that is read was spelled so, character by character, up to its closing quote |
| JsonForms.NumberScanned | src/sharedai/servicekit/capability_grants.py:189-204 | every number of the grammar is scanned whole, and as a float iff it has a fraction or an exponent |
| JsonForms.IntegerIsRead | src/sharedai/servicekit/capability_grants.py:189-204 | an integer is read as the decimal number its digits mean |
| JsonForms.FormIsRead | src/sharedai/servicekit/capability_grants.py:189-209 | every form of a value, with any spellings, blanks and nesting, is read as what it says, up to what follows |
| JsonForms.ValueWasForm | src/sharedai/servicekit/capability_grants.py:189-209 | whatever is read has such a form |
| JsonForms.StrictLoadsIsTheGrammar | src/sharedai/servicekit/capability_grants.py:189-209 | a text is accepted with a value iff it is a form of it that repeats no key at any depth, and the value is valid |
| JsonForms.NonFiniteNames | src/sharedai/servicekit/capability_grants.py:176-177 | `NaN`, `Infinity` and `-Infinity` are refused with a code of their own |
| JsonShortest.CanonicalTextIsShortest | src/sharedai/servicekit/capability_grants.py:117-123 | compact separators and least escaping: for a value without floats no accepted text is shorter than the canonical one |
| Base64Url.DecodeEncode | src/sharedai/servicekit/capability_grants.py:152-173 | every non-empty byte string comes back from its text |
| Base64Url.DecodeAcceptsCanonical | src/sharedai/servicekit/capability_grants.py:160-173 | a text is accepted iff it is non-empty, in the alphabet, not 1 modulo 4 long, and leaves no unused bit set; then it is the encoding of its bytes |
| Base64Url.DecodeInjective | src/sharedai/servicekit/capability_grants.py:160-173 | no two texts decode to the same bytes |
| Base64Url.SymbolSpelledOut | src/sharedai/servicekit/capability_grants.py:152-157 | the sextets stand for capitals, small letters, digits, `-` and `_`, in that order |
| Hashing.HexInjective | src/sharedai/servicekit/capability_grants.py:134-149 | the hexadecimal form loses nothing of a digest |
| Hashing.HexSpelledOut | src/sharedai/servicekit/capability_grants.py:134-149 | each byte becomes two lower-case digits, the high one first |
| Hashing.EqualHashes | src/sharedai/servicekit/capability_grants.py:134-137 | equal hashes come from equal bytes or from an explicit collision |
| Hashing.FingerprintPinsTheToken | src/sharedai/servicekit/capability_grants.py:140-149 | exactly the non-empty ASCII tokens have a fingerprint, the two failures are told apart, and equal fingerprints mean equal tokens or an explicit collision |
| Queries.QueryValuePairs | src/sharedai/servicekit/capability_grants.py:477-496 | the nested loops give the wire pairs of every value of every parameter in order, or the first decoding error |
| Queries.ArgumentByPosition | src/sharedai/servicekit/capability_grants.py:477-496 | a parameter gives one pair for each value, in order and under its key, iff every value has a text |
| Queries.WireOfAppend | src/sharedai/servicekit/capability_grants.py:477-496 | parameters go on the wire one after another |
| Queries.ValueTextSpelledOut | src/sharedai/servicekit/capability_grants.py:484-495 | `None` is empty, booleans are `true` and `false`, UTF-8 bytes are their text, numbers are printed, text is itself |
| Queries.CanonicalQueryParams | src/sharedai/servicekit/capability_grants.py:499-510 | grouping in a dict of lists and collapsing gives, for each key, its values in wire order |
| Queries.QueryIsCompleteInvariant | src/sharedai/servicekit/capability_grants.py:499-510 | two pair lists canonicalise equally iff every key has the same value sequence in both |
| Queries.InterleavingIsInvisible | src/sharedai/servicekit/capability_grants.py:504-510 | pairs of different keys may change places anywhere |
| Queries.FlatteningIsInvisible | src/sharedai/servicekit/capability_grants.py:477-510 | sending the flat text pairs gives the same canonical query |
| Queries.CollapsedIsCanonical | src/sharedai/servicekit/capability_grants.py:499-510 | every map of texts and of text lists with two or more items is the canonical form of some parameters |
| Queries.CanonicalisingTwiceIsInvisible | src/sharedai/servicekit/capability_grants.py:499-510 | every canonical form is such a map, and given back as parameters it canonicalises to itself |
| Requests.RequestValueInjective | src/sharedai/servicekit/capability_grants.py:513-532 | for one method two accepted requests have one value iff they agree, or one body literally is the other's combined value; for GET and HEAD iff the queries agree |
| Requests.MaskingExists | src/sharedai/servicekit/capability_grants.py:513-532 | a POST with query `a=1` and no body and a POST with a body that spells it are both accepted and have one value |
| Requests.TwinsAreExactlyTheAmbiguous | src/sharedai/servicekit/capability_grants.py:513-532 | an accepted request with a body has a different accepted request of the same value iff its query could stand in a body, or it has no query and its body could stand for one |
| Requests.ReceiverAgrees | src/sharedai/servicekit/capability_grants.py:513-554 | whatever request the sender accepts, the receiver rebuilds the same value from method, body text and wire pairs |
| Requests.ReconstructSpelledOut | src/sharedai/servicekit/capability_grants.py:535-554 | the receiver's order: a body with GET or HEAD, a body that is not JSON, the strict reader's own error, then the sender's checks |
| Requests.MediaTypeIsExact | src/sharedai/servicekit/capability_grants.py:545-548 | the media type is what stands before the first semicolon, stripped and in lower case |
| Requests.CanonicalBodyIsCarried | src/sharedai/servicekit/capability_grants.py:535-554 | the canonical bytes of a body with a JSON content type, or no body for null, are such a body text |
| Claims.ReadDumpedTransport | src/sharedai/servicekit/capability_grants.py:212-245 | a valid transport survives its JSON form |
| Contracts.TransportIsExact | src/sharedai/servicekit/capability_grants.py:212-245 | a transport is read from a JSON value iff the value says it under exactly the known names and it meets the field constraints, spelled out |
| Contracts.SchemaIsExact | src/sharedai/servicekit/capability_grants.py:274-296 | the schema accepts a payload and reads these terms iff the payload says them field by field, single use and algorithm included, and they meet the contract |
| Verifiers.ThawFreeze | src/sharedai/servicekit/capability_grants.py:299-304 | thawing gives back what was frozen, at every depth |
| Verifiers.FreezeIsFrozen | src/sharedai/servicekit/capability_grants.py:299-304 | freezing leaves read-only mappings, tuples and scalars only, at every depth |
| Verifiers.SplitTokenExact | src/sharedai/servicekit/capability_grants.py:391-393 | a token splits into two parts iff it is these two dot-free parts with one dot between |
| Verification.VerifyBoundHeaders | src/sharedai/servicekit/capability_grants.py:467-474 | the loop over the header table passes iff the six headers, by their names, are present, not empty and equal to their claims |
| Verification.CheckGrantHash | src/sharedai/servicekit/capability_grants.py:410-419 | the claims come back iff the payload says them, they meet the contract and `grant_hash` is the hash of the canonical rest; a payload that meets no contract and one with another hash get different codes |
| Verification.VerifyToken | src/sharedai/servicekit/capability_grants.py:380-465 | the sequence of raising checks returns a grant iff some claims and signature make the token genuine and authorize the request; the grant's own claims then say its terms field by field, `max_uses` 1 included; a code about what the token says is raised for a genuine token only |
| Verification.LateErrorsAreSigned | src/sharedai/servicekit/capability_grants.py:391-446 | any code about claims, trust, time, request, transport or headers implies that the signature verified over exactly the canonical bytes of the claims |
| Verification.ShapeErrorIsExact | src/sharedai/servicekit/capability_grants.py:391-392 | a token is no token iff it is not two dot-free parts with one dot between |
| Verification.SignatureErrorsAreExact | src/sharedai/servicekit/capability_grants.py:394-401 | the signature is judged before the payload is parsed: a wrong length, then a failing check |
| Verification.PayloadErrorsAreExact | src/sharedai/servicekit/capability_grants.py:403-409 | of a signed payload: not an object, not in canonical form, or a signature among the claims |
| Verification.TrustErrorsAreExact | src/sharedai/servicekit/capability_grants.py:420-435 | issuer, key, audience, order of the bounds, the clock, too early, too late: each code iff its own condition fails first |
| Verification.BindingErrorsAreExact | src/sharedai/servicekit/capability_grants.py:437-446 | request, transport given, transport equal, then the headers: each code iff its own condition fails first |
| Verification.HeaderErrorsAreExact | src/sharedai/servicekit/capability_grants.py:467-474 | missing and mismatch each name the first bad header in table order |
| Verification.ErrorGroupsAreExact | src/sharedai/servicekit/capability_grants.py:410-446 | for a genuine token: claim codes iff the claims are unsound, trust and time codes iff sound but not trusted now, binding codes iff trusted but not bound to this request |
| VerifierTheorems.PayloadGateIsExact | src/sharedai/servicekit/capability_grants.py:403-407 | parse, require an object, print again, compare: lets through exactly the printed valid objects |
| VerifierTheorems.AcceptedIsGenuine | src/sharedai/servicekit/capability_grants.py:391-465 | soundness: an accepted token is the one compact form of its signed claims, which authorize exactly this request, and the grant holds them unchanged |
| VerifierTheorems.GenuineIsAccepted | src/sharedai/servicekit/capability_grants.py:391-465 | completeness: a genuine token that authorizes the request is accepted with these claims |
| VerifierTheorems.VerifyIsExact | src/sharedai/servicekit/capability_grants.py:380-465 | a token is accepted iff some claims and signature make it genuine and authorize the request |
| VerifierTheorems.WireFormIsUnique | src/sharedai/servicekit/capability_grants.py:391-407 | accepted tokens with equal claims and equal signature bytes are the same string |
| VerifierTheorems.GrantHashPinsTheGrant | src/sharedai/servicekit/capability_grants.py:415-419 | accepted grants with equal `grant_hash` have identical claims, or their unsigned bytes are a collision |
| VerifierTheorems.IssuedTokenIsAccepted | tests/test_capability_grants.py:59-98 | a token issued from claims meant for this receiver, request and clock is accepted, and the claims thaw to the issued ones |
| Issuers.WrittenIsRead | src/sharedai/servicekit/capability_grants.py:274-296 | the schema accepts claims written from well-formed terms, opaque claims beside them, and reads exactly these terms back |
| Issuers.TokenForTermsIsAccepted | tests/test_capability_grants.py:59-98 | for all well-formed terms that name this receiver, request and clock, with any opaque claims, the issued token is accepted with these terms and the hash of their claims |
| Assumptions.AssumptionsCanHold | src/sharedai/servicekit/capability_grants.py:112-125 | some library makes every finite float round trip through a JSON float lexeme and every honest signature verify |
| Witnesses.SomeTokenIsAccepted | src/sharedai/servicekit/capability_grants.py:380-465 | some token is accepted for some request under such a library |
| Witnesses.PaddedGrantIsStuck | src/sharedai/servicekit/capability_grants.py:278-284 | under every library that meets the assumptions, a grant called ` g` is accepted by the verifier, and no request that presents its token is ever let through |
| Witnesses.DoubleSlashIsStuck | src/sharedai/servicekit/capability_grants.py:237-245 | likewise a grant for the path `//x` whose claims are fit for headers |
| Witnesses.NullByGetIsStuck | src/sharedai/servicekit/capability_grants.py:437-439 | likewise a GET grant for the value `null`, otherwise in order, except for explicit collisions with that value |
| Witnesses.SomeRequestIsReady | src/sharedai/servicekit/capability_grants.py:710-723 | some request passes every check with no header source, and the authority would be called without headers |
| Witnesses.SomeHandlerRuns | src/sharedai/servicekit/capability_grants.py:817-869 | in some run of the protocol a handler runs |
| RequiredClaims.MatchIsEquality | src/sharedai/servicekit/capability_grants.py:762-778 | comparing canonical bytes is comparing values: the thawed signed claim equals the required one |
| RequiredClaims.RequiredCheckIsExact | src/sharedai/servicekit/capability_grants.py:762-778 | the check passes iff every required claim is signed with an equal value |
| RequiredClaims.ReadIsHolding | src/sharedai/servicekit/capability_grants.py:84-109 | walking the caller's lists and dicts gives a value iff the heap holds it, item for item and key for key, no deeper than the limit |
| RequiredClaims.RequiredClaimsGuard.Freeze | src/sharedai/servicekit/capability_grants.py:726-749 | the loop reads every claim out of the caller's shared lists and dicts and freezes it as canonical bytes, or refuses the whole mapping |
| RequiredClaims.RequiredClaimsGuard.Build | src/sharedai/servicekit/capability_grants.py:791-815 | a guard is built iff every claim has a proper name and a printable value, and it lets through exactly the grants that hold the values of that moment |
| RequiredClaims.RequiredClaimsGuard.Check | src/sharedai/servicekit/capability_grants.py:762-778 | the loop stops at the first claim that is missing or differs, and passes otherwise |
| RequiredClaims.CheckAfterEdits | src/sharedai/servicekit/capability_grants.py:726-778 | after any sequence of in-place edits of the mapping and of the lists and dicts inside it, at any depth, the check passes iff the grant holds the values of the moment of building |
| RequiredClaims.GrowingListIsNotSeen | src/sharedai/servicekit/capability_grants.py:726-749 | a nested list grows in place, the mapping then stands for other claims, and the guard still asks for the old ones |
| Dependencies.AuthHeadersBeforeTheCall | src/sharedai/servicekit/capability_grants.py:710-723 | a bad header name or value refuses before the call, and a request that goes on carries no headers of its own iff there is no source or an empty mapping |
| Presenting.PresentableExactly | src/sharedai/servicekit/capability_grants.py:781-788 | some headers present a grant iff its six bound claims are trimmed and can stand in a field value: Latin-1, without NUL, CR and LF |
| Presenting.SentPath | src/sharedai/servicekit/capability_grants.py:557-578 | the raw path of a sent path comes through iff it is ASCII with one leading slash only, and then unchanged |
| Dependencies.VerifiedRequestIsBound | src/sharedai/servicekit/capability_grants.py:825-840 | the verified grant is genuine, and bound to the rebuilt request and to the transport the receiver built itself |
| Dependencies.RedemptionNamesItsRequest | src/sharedai/servicekit/capability_grants.py:842-850 | the redemption names the request's own grant id and hash, token fingerprint, request hash, transport and audience |
| Redeemers.DecisionTable | src/sharedai/servicekit/capability_grants.py:681-697 | the handler may run iff the reply is 2xx with an object that has `redeemed` true, this grant's `grant_id` and a trimmed `event_id` of 1 to 200 characters; 503 for a lost, busy, broken or unreadable authority, 403 for every other reply |
| Headers.SingleHeaderIsExact | src/sharedai/servicekit/capability_grants.py:781-788 | a header is read iff it is sent at exactly one position, names compared without case, with a value that is not blank, and then as its strip; sent twice and missing have their own codes |
| Headers.HeadersComeFirst | src/sharedai/servicekit/capability_grants.py:817-822 | a request is refused with 401 iff one of the seven headers cannot be read, with the code of the first |
| Headers.SecondCopyIsRefused | src/sharedai/servicekit/capability_grants.py:781-785 | a second copy of any of the seven headers is refused |
| Endpoint.CollectSingleHeaders | src/sharedai/servicekit/capability_grants.py:817-822 | the loop over the header names gathers each header once, or raises for the first that is missing or doubled |
| Endpoint.RequireCapabilityGrant | src/sharedai/servicekit/capability_grants.py:817-869 | the whole sequence admits iff all checks pass and the reply says yes to this grant; a doubled header is 401 with the authority untouched; each other rejection has the status and code of its cause; exactly one redemption is sent if all checks pass and none otherwise |
| Endpoint.SequentialRunIsARun | src/sharedai/servicekit/capability_grants.py:817-869 | a request that is not interleaved ends in the step system exactly as the sequential method says |
| Protocol.StepKeeps | src/sharedai/servicekit/capability_grants.py:817-869 | every step keeps the invariant on calls, phases, replies, successes and handler runs |
| Protocol.EveryRunKeeps | src/sharedai/servicekit/capability_grants.py:817-869 | the invariant holds in every state of every run |
| Protocol.AtMostOnce | src/sharedai/servicekit/capability_grants.py:857-869 | in every state of every run: handler runs under a grant ≤ success answers for it ≤ 1, and no two requests are handled under one grant |
| Protocol.OneCallPerRequest | src/sharedai/servicekit/capability_grants.py:857-860 | no request sends two redeem calls, and only requests that passed every check send one |
| EndToEnd.LedgerNamesEntitled | src/sharedai/servicekit/capability_grants.py:817-862 | whenever the authority changed its state for a request, that request had passed every single local check and is past its call |
| Protocol.HandledWasCleared | src/sharedai/servicekit/capability_grants.py:857-869 | a handler ran only for a request that passed every check and whose grant got a yes |
| Protocol.YesRunsTheHandler | src/sharedai/servicekit/capability_grants.py:857-869 | delivering a success answer to a waiting request runs its handler under its own grant |
| EndToEnd.HandlerRunsAreRightful | src/sharedai/servicekit/capability_grants.py:791-869 | in every run a handler ran only for a request with a genuine token that authorizes exactly it and holds the required claims, after one yes to that grant |
| EndToEnd.CallsNameTheirRequests | src/sharedai/servicekit/capability_grants.py:842-860 | in every run each redeem call names the grant, hashes, token and transport of the request that sent it |
| EndToEnd.HonestRequestReachesTheAuthority | src/sharedai/servicekit/capability_grants.py:513-855 | a request hashed by the sender, signed for by the issuer and sent by method and path with its token and claims passes every check of the receiver, with that very grant, iff no bound claim has outer white space and the path can stand in a request |
| EndToEnd.ReadyIsRightful | src/sharedai/servicekit/capability_grants.py:817-855 | a request goes on to the authority iff some claims and signature make it rightful, the receiver's name fits the redemption and the header source is good |
| TokenBinding.OneTokenOneRequest | src/sharedai/servicekit/capability_grants.py:380-465 | requests for which one token is accepted have the same method, path and transport, and the same content up to masking, or their canonical values are a collision |
| Redeemability.RedeemableExactly | src/sharedai/servicekit/capability_grants.py:380-855 | at a route that serves it, a grant accepted for a value can be redeemed for that value by some request iff its six claims can stand in headers, its path in a request and its value is one a request by its method can have |
| Redeemability.LetThroughFits | src/sharedai/servicekit/capability_grants.py:557-578 | a token that any verifier accepts is let through only if its claims are trimmed and its path is a wire path |
| Redeemability.LetThroughHasValue | src/sharedai/servicekit/capability_grants.py:437-439 | a request that is let through has the value the grant was accepted for, or an explicit collision with it |
| ThinkBlocks.NameSpelledOut | src/sharedai/llm/utils.py:8-10 | a tag name is `think` in any case of each letter, and the three characters beyond ASCII that fold to them |
| ThinkBlocks.OutputIsSubsequence | src/sharedai/llm/utils.py:13-18 | for every text the output only leaves characters out |
| ThinkBlocks.SecondPassLeavesNoOpeningTag | src/sharedai/llm/utils.py:9-16 | after the second pass no opening tag starts anywhere |
| ThinkBlocks.BlocksAreRemovedExactly | src/sharedai/llm/utils.py:8-18 | for visible segments between complete blocks, with or without an unterminated block at the end, the output is the visible text, trimmed; visible text may hold angles as long as no tag begins in it |
| ThinkSplices.TagFreeIsTrimmed | src/sharedai/llm/utils.py:13-18 | any text without tags, stray angles included, comes back trimmed and otherwise unchanged |
| ThinkSplices.CleanIffNoSplice | src/sharedai/llm/utils.py:13-18 | the output has no tag iff applying the function again changes nothing iff the text before the third pass has no splice |
| ThinkSplices.TagFreeHasNoSplice | src/sharedai/llm/utils.py:16-17 | a text without tags before the third pass is enough for both |
| ThinkSplices.NoAngleBeforeTags | src/sharedai/llm/utils.py:16-17 | so is a text with no `<` within six characters before a tag |
| ThinkSplices.TagLeftBehind | src/sharedai/llm/utils.py:13-18 | `<th</think>ink>` becomes `<think>`, and that becomes the empty text |
| Leases.LeaseRecord.constructor | src/sharedai/system/resource_governor/schemas.py:207-227 | the deadline is the decision's time to live after now, else the requested one, else 60 seconds; the record carries the resolved identifier, time to live and interval |
| Leases.IntervalSpelledOut | src/sharedai/system/resource_governor/schemas.py:216-217 | without an interval of its own a lease beats every third of its time to live, rounded down, at least every second and at most every 10 |
| Leases.LeaseRecord.Heartbeat | src/sharedai/system/resource_governor/schemas.py:229-233 | the deadline moves to the time to live after now; nothing else changes |
| Leases.LeaseRecord.Run | src/sharedai/system/resource_governor/schemas.py:229-233 | over any run of beats the deadline is the last beat's, and the lease was alive at each beat iff the run never expires |
| Leases.ActivityRecord.Heartbeat | src/sharedai/system/resource_governor/schemas.py:255-258 | the same for activities, with the request's own time to live |
| Leases.SurvivesTwoMissedBeats | src/sharedai/system/resource_governor/schemas.py:207-233 | with no interval supplied, all runs with gaps under three intervals keep the lease alive iff the resolved time to live is at least 3 |
| Leases.LateBeat | src/sharedai/system/resource_governor/schemas.py:216-217 | the run that breaks a shorter lease |
| Tokens.EstimateSpelledOut | src/sharedai/llm/tokens.py:11-16 | the estimate is the least number of tokens, at least one, that holds the normalised text at that many characters each, and zero for blank text |
| Tokens.WhiteSpaceIsInvisible | src/sharedai/llm/tokens.py:11-16 | normalising first, or padding either end, changes no estimate |
| Tokens.ConcatLength | src/sharedai/llm/tokens.py:13-14 | joining two texts adds their normalised lengths, and at most one for the gap; a blank side adds nothing |
| Tokens.EstimateOfConcat | src/sharedai/llm/tokens.py:11-16 | joining never lowers either estimate and moves their sum by at most one either way, words merging at the seam included |

## Left out

- Ed25519 and SHA-256 themselves, key loading and key identifiers: opaque functions; no unforgeability is claimed.
- Pydantic beyond the field constraints of the claims, transport and redemption models: strict-mode corner cases of coercion are not modelled, except that integers serve for float claims.
- Values that are not JSON at all and keys that are not strings (`json_value_not_supported`, `json_object_key_must_be_string`): the datatype cannot hold them.
- JsonPrint.CodeNamesDefect: among defects of both kinds in one object the model reports the one under the least key, the program the first inserted.
- Recursion depth of the JSON reader and printer, and the digit limit of integers in Python.
- How `repr` prints a float: an assumed inverse of `float`, stated as `JsonRoundTrip.FloatsRoundTrip`.
- JsonShortest.CanonicalTextIsShortest: excludes values with floats, because `repr` writes `10.0` where `1e1` means the same number.
- Queries: the `str` of values other than text, bytes, numbers, booleans and `None`, nested lists among them.
- `str.upper` and `str.lower` outside what the method pattern and ASCII media types can tell apart.
- Percent-encoding, cookies, TLS and the rest of httpx, Starlette and FastAPI; the redeemer's URL, endpoint template and timeout checks; client ownership.
- `broker_internal_token_headers`, and header sources that are no mapping or that raise errors other than the module's own.
- Redeem callbacks other than the HTTP redeemer, in the step system: `Redeemers.Conclude` covers a raised denial, but no step produces one.
- The authority's own policy and replay store: not in this repository; only its at-most-once answer is assumed.
- Rounding of float clocks in leases and of the division in token estimates: both use reals. A verifier reads its clock once a check.
- RequiredClaims.RequiredClaimsGuard.Freeze: a mapping nested too deep, or a cycle, ends in the interpreter's recursion error; the model gives that a code of its own and takes the limit as a parameter.
- Module settings, environment lookups, payload builders and HTTP wrappers elsewhere in the package.
