# Proof verification core of the developer portal backend

This project models, in Dafny, the server-side verification step of
`web/src/backend/verify.ts`: a caller submits an ABI-encoded Semaphore-style
proof with its Merkle root, nullifier hash, external nullifier and signal;
the backend decodes and canonicalises them, hashes the signal when it is not
already a field element, posts a request to the sequencer and turns the
sequencer's answer into a typed outcome. It also models the decision rules
that `fetchActionForProof` applies to the app/action lookup.

Files:

- `wrappers.dfy` (`Wrappers`): the `Option` and `Result` types.
- `codec.dfy` (`Codec`): the encodings verify.ts takes from ethers and the
  JavaScript runtime, as simple definitions: "0x" hex data to bytes, ABI
  `uint256` and `uint256[8]` decoding (32-byte big-endian words, as in the
  "Formal Specification of the Encoding" of the Solidity Contract ABI
  Specification), `BigNumber.toHexString`/`hexlify` as the canonical hex
  quantity, and the decimal rendering of an integer. The hex data, word,
  array and hex-quantity encodings each come with a round trip. The
  decimal rendering comes with a lemma that its digits, after any sign,
  denote the magnitude of the value.
- `verify.dfy` (`Verify`): `KNOWN_ERROR_CODES`, `decodeProof`,
  `parseProofInputs`, the decisions of `fetchActionForProof`, and the request
  building and response classification of `verifyProof`.

Everything in scope is pure in the source (early returns, `.map`, `.find`, a
ternary), so it is modelled as functions returning `Option`/`Result` values,
with lemmas. Exceptions that the source catches become `None`/`Err`; the
exception `verifyProof` throws is the `Thrown` outcome.

External collaborators are arguments:

- `validateABILikeEncoding` and `hashToField(…).hash` are the two fields of a
  `Hashing` value. Every property holds whatever those functions compute.
- The GraphQL query result `result.data.app` is the `apps` argument of
  `FetchActionForProof`.
- The `fetch` call is the `backend: Request -> Response` argument of
  `VerifyProof`. A `Response` is either not ok, with its text (`None` when
  reading it fails), or ok, with the `status` of its JSON object (`None`
  when that field is absent or not a string). A JSON body that is not an
  object is outside this type (see "## Left out").
- `sequencerMapping` is the `mapping` argument.

Behaviour of the code that a reader might not expect, which the model
follows:

- An ok answer with no `status`, or with any status but `"mined"`, becomes
  `"pending"`. The status is then never empty, so the "Unexpected response
  received from sequencer." exception at verify.ts:367-373 is never thrown.
  `ClassifyResponse` and `VerifyProof` prove `!out.Thrown?`, and
  `MissingStatusIsPending` states the absent-status case.
- A verification level with no route in `sequencerMapping` is not an error.
  The URL starts with the text "undefined" (`Interpolate`).
- `max_age` is tested for truthiness, so a value of 0 and no value both leave
  the `maxRootAgeSeconds` query off the URL.
- The `hexArray.length !== 8` check in `decodeProof` can never fire after a
  successful `uint256[8]` decode, which always yields eight values
  (`DecodeUint256Array` ensures `|r.value| == n`). `ReshapeProof` still
  models the check on its own.

## Model

| member | source | states |
|---|---|---|
| `Codec.HexToBytes` | web/src/backend/verify.ts:210 | hex data is accepted exactly when it is "0x" followed by an even number of hex digits, and then yields half as many bytes |
| `Codec.HexDataRoundTrip` | web/src/backend/verify.ts:210 | reading back the hex data written for any byte string gives that byte string |
| `Codec.BigEndianRoundTrip` | web/src/backend/verify.ts:210 | a number below 256^width, written as width big-endian bytes, reads back as itself |
| `Codec.DecodeUint256` | web/src/backend/verify.ts:209-211 | the `uint256` decode succeeds exactly on hex data of at least one 32-byte word, and its value is below 2^256 |
| `Codec.DecodeUint256Array` | web/src/backend/verify.ts:102 | the `uint256[n]` decode succeeds exactly on hex data of at least n words, and then yields n values, each below 2^256 |
| `Codec.DecodeUint256RoundTrip` | web/src/backend/verify.ts:209-211 | decoding the ABI encoding of any `uint256` gives that number back |
| `Codec.DecodeUint256ArrayRoundTrip` | web/src/backend/verify.ts:102 | decoding the ABI encoding of any array of `uint256` values gives the same values in the same order |
| `Codec.MinimalDigits` | web/src/backend/verify.ts:211 | the digits are lower-case hex, empty exactly for zero, and never start with '0' |
| `Codec.ToHexString` | web/src/backend/verify.ts:211 | every rendering is canonical: "0x", an even positive number of lower-case digits, and no leading zero byte except "0x00" |
| `Codec.ToHexStringRoundTrip` | web/src/backend/verify.ts:211 | reading back the rendering of a number gives that number |
| `Codec.ToHexStringInjective` | web/src/backend/verify.ts:103-105 | two numbers with the same rendering are equal |
| `Codec.CanonicalHexIsRendering` | web/src/backend/verify.ts:211 | every canonical hex string is the rendering of the number it denotes, so each number has exactly one canonical form |
| `Codec.DecimalDigitsRoundTrip` | web/src/backend/verify.ts:326 | reading back the decimal digits written for a number gives that number |
| `Codec.IntToDecimal` | web/src/backend/verify.ts:326 | the rendering of `max_age` starts with '-' exactly for a negative value, and the rest is the decimal digits of its magnitude, with no leading zero unless the magnitude is zero |
| `Codec.IntToDecimalValue` | web/src/backend/verify.ts:326 | the digits of the rendering, after any sign, denote the magnitude of the value |
| `Verify.FindKnownError` | web/src/backend/verify.ts:340-342 | the result is an entry whose raw message equals the text exactly and no earlier entry matches; there is no result exactly when no entry matches |
| `Verify.KnownErrorCatalogue` | web/src/backend/verify.ts:12-33 | the catalogue maps "invalid root", "invalid proof" and "Root provided in semaphore proof is too old." to their own entries and every other text to nothing |
| `Verify.KnownErrorsNonEmpty` | web/src/backend/verify.ts:12-33 | no catalogue entry has an empty code or detail, so the `||` fallbacks apply only when nothing matched |
| `Verify.ReshapeProof` | web/src/backend/verify.ts:107-118 | reshaping fails exactly when there are not 8 values, and flattening a reshaped proof gives the 8 values in input order |
| `Verify.ReshapeFlatten` | web/src/backend/verify.ts:111-118 | reshaping the flattening of any proof gives that proof back |
| `Verify.DecodeProof` | web/src/backend/verify.ts:101-119 | decoding fails exactly when the `uint256[8]` decode fails, and the flattened proof lists the canonical renderings of the decoded values in order |
| `Verify.DecodeProofPreservesOrder` | web/src/backend/verify.ts:101-119 | for the ABI encoding of any eight `uint256` values, the decoded proof lists their renderings in input order |
| `Verify.DecodeProofRejectsShort` | web/src/backend/verify.ts:102-109 | hex data shorter than eight words is refused |
| `Verify.DecodeScalar` | web/src/backend/verify.ts:209-211 | a scalar decodes exactly when it is a valid `uint256`, to a canonical hex string denoting the decoded value |
| `Verify.SignalHash` | web/src/backend/verify.ts:259-278 | the signal step fails only for an ABI-like signal that does not decode, and otherwise yields a canonical hex string |
| `Verify.FirstInvalidField` | web/src/backend/verify.ts:193-278 | reference definition of the reported field: none exactly when every field is accepted, else the first field not accepted, all before it being accepted |
| `Verify.ParseProofInputs` | web/src/backend/verify.ts:186-289 | every failure is `invalid_format` with status 400 and a named attribute; on success each output field is the canonical rendering of its decoded input and the proof keeps the input order |
| `Verify.ParseReportsFirstInvalidField` | web/src/backend/verify.ts:193-278 | parsing fails exactly when some field is not accepted, and then reports the first such field in the order proof, nullifier_hash, merkle_root, external_nullifier, signal, with that field's message |
| `Verify.SignalDecodedWhenAbiLike` | web/src/backend/verify.ts:259-275 | for an ABI-like signal, parsing succeeds exactly when it decodes, the signal hash denotes the decoded value, and a failure is `signal` with the "uint256 or a string" message |
| `Verify.SignalHashedOtherwise` | web/src/backend/verify.ts:276-278 | any other signal is hashed with `hashToField`, whether it would decode or not, and the step cannot fail |
| `Verify.SignalPathsExclusive` | web/src/backend/verify.ts:259-278 | the result for an ABI-like signal does not depend on `hashToField`, and for any other signal it depends on nothing but `hashToField` of it |
| `Verify.FetchActionForProof` | web/src/backend/verify.ts:136-177 | success exactly when an app, an action and the "cloud" engine are all present; otherwise not_found/404, then invalid_action/400 on `action`, then invalid_engine/400 on `engine`; on success the first action and its first nullifier, if any |
| `Verify.SequencerUrl` | web/src/backend/verify.ts:319-322 | a URL is found exactly when the mapping has the verification level and, under it, the key "true" or "false" for the staging flag, and it is the mapping's entry under that level and key |
| `Verify.RequestUrl` | web/src/backend/verify.ts:324-327 | the URL always starts with the endpoint; it is the endpoint alone exactly when `max_age` is falsy (missing or 0), and otherwise ends with the root-age query carrying its value |
| `Verify.PrepareRequest` | web/src/backend/verify.ts:303-327 | a parse error is returned unchanged and no request is built; otherwise the body is exactly the parser's `merkle_root`, `nullifier_hash`, `external_nullifier`, `signal_hash` and `proof` under the names `root`, `nullifierHash`, `externalNullifierHash`, `signalHash` and `proof`, the four scalars are canonical hex strings, and each denotes the decoded value of its input |
| `Verify.ClassifyResponse` | web/src/backend/verify.ts:337-375 | an unreadable error body gives internal_error/500; a readable one gives status 400 and a null attribute, the catalogue's code and detail on an exact match and invalid_proof with the raw text otherwise; an ok answer is on-chain exactly for "mined" and pending otherwise, and nothing is thrown |
| `Verify.VerifyProof` | web/src/backend/verify.ts:294-376 | a parse error is the outcome; otherwise the outcome is the classification of the backend's answer to the prepared request; the exception is never thrown |
| `Verify.ParseErrorSkipsBackend` | web/src/backend/verify.ts:303-306 | on a parse error the outcome does not depend on the backend |
| `Verify.ShortProofFailsOnProof` | web/src/backend/verify.ts:193-206 | a proof of fewer than eight words fails with invalid_format/400 on `proof` and the uint256[8] message, whatever the backend |
| `Verify.InvalidProofTextIsKnown` | web/src/backend/verify.ts:337-352 | the text "invalid proof" yields the catalogue's invalid_proof entry with its detail, not the generic message |
| `Verify.UnknownTextIsGeneric` | web/src/backend/verify.ts:337-352 | any text outside the catalogue yields invalid_proof/400 with the text embedded in the message |
| `Verify.MinedIsOnChain` | web/src/backend/verify.ts:364-375 | a well-formed request answered with status "mined" ends as success with status "on-chain" |
| `Verify.MissingStatusIsPending` | web/src/backend/verify.ts:364-375 | an ok answer without a status ends as success with status "pending" |

## Left out

- web/src/components/Dialog/index.tsx: presentation only (transitions, styling, close button), no decision logic.
- The GraphQL query and its execution (verify.ts:69-99, 127-134): the query result is an argument; its server-side filters (active, not archived, named action, matching nullifier) are assumed of that argument, not modelled.
- `fetch`, the HTTP method and headers, `JSON.stringify` of the body, `response.text()` and `response.json()`: the request is a record and the answer an argument. A body that `response.json()` cannot parse, and a `fetch` that rejects, make the source's promise reject; neither is modelled.
- `logger.error` calls: diagnostics only.
- The ethers library: `abi.decode`, `hexlify` and `BigNumber.toHexString` are simple stand-ins in `Codec`. The `uint256` decode reads only the words it needs and ignores any bytes after them. Negative numbers and the library's error messages are not modelled.
- `hashToField` and `validateABILikeEncoding`: their code is not part of this model; they are arbitrary functions in `Hashing`.
- The contents of `sequencerMapping`: not part of this model; it is an arbitrary map argument.
- `max_age`: modelled as an optional integer. NaN and fractional values, which JavaScript would also accept, are not modelled.
- Codec.IntToDecimal: writes every digit. JavaScript writes a number of magnitude 10^21 or more in exponent notation (`1e+21`), and it cannot represent every integer above 2^53 exactly. A `max_age` that large is not modelled.
- An ok answer whose JSON body is `null` makes the source throw a TypeError when it reads `result.status`, so its promise rejects. `OkResponse` cannot represent such a body, and the model does not cover it.
- A JSON `status` that is not a string is folded into `None`. Any such value compares unequal to "mined", so it also gives "pending".
- The `rawCode` field of `KNOWN_ERROR_CODES` is kept in the table but, as in the source, never used for matching.
