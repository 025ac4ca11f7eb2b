/**
 * Model of web/src/backend/verify.ts: the known backend error catalogue,
 * the reshaping of a decoded proof, the parsing of the five proof inputs,
 * the decision rules applied to the action lookup, and the building of the
 * verification request together with the classification of the backend's
 * answer.
 *
 * The GraphQL query and `fetch` are not performed here: the query result is
 * an argument of FetchActionForProof and the backend is a function argument
 * of VerifyProof. `hashToField` and `validateABILikeEncoding` are the fields
 * of a Hashing value, so every property below holds whatever they compute.
 */
module Verify {
  import opened Wrappers
  import opened Codec

  // ---------------------------------------------------------------------
  // Errors returned to the caller (`{ error: { message, code, statusCode, attribute? } }`)

  /** `attribute` is left out of some errors, set to null in others and
      names a field in the rest. */
  datatype Attribute = Omitted | NullAttribute | Named(name: string)

  datatype ApiError = ApiError(message: string, code: string, statusCode: nat, attribute: Attribute)

  // ---------------------------------------------------------------------
  // KNOWN_ERROR_CODES

  datatype KnownError = KnownError(rawCode: Option<string>, rawMessage: string, code: string, detail: string)

  const InvalidRootText := "invalid root"
  const InvalidProofText := "invalid proof"
  const RootTooOldText := "Root provided in semaphore proof is too old."

  const KnownErrorCodes: seq<KnownError> := [
    KnownError(Some("0x504570e3"), InvalidRootText, "invalid_merkle_root",
      "The provided Merkle root is invalid. User appears to be unverified."),
    KnownError(Some("0x09bde339"), InvalidProofText, "invalid_proof",
      "The provided proof is invalid and it cannot be verified. Please check all inputs and try again."),
    KnownError(None, RootTooOldText, "root_too_old",
      "The provided merkle root is too old. Please generate a new proof and try again.")
  ]

  /** `table.find(({ rawMessage }) => rawMessage === raw)`: the first entry
      whose raw message is exactly the backend's text. */
  function FindKnownError(table: seq<KnownError>, raw: string): (r: Option<KnownError>)
    ensures r.Some? ==> r.value.rawMessage == raw
    ensures r.Some? ==> exists i :: 0 <= i < |table| && table[i] == r.value
                                    && forall k :: 0 <= k < i ==> table[k].rawMessage != raw
    ensures r.None? <==> forall i :: 0 <= i < |table| ==> table[i].rawMessage != raw
  {
    if |table| == 0 then None
    else if table[0].rawMessage == raw then Some(table[0])
    else
      var r := FindKnownError(table[1..], raw);
      assert forall i :: 1 <= i < |table| ==> table[i] == table[1..][i - 1];
      if r.Some? then
        var i :| 0 <= i < |table[1..]| && table[1..][i] == r.value
                 && forall k :: 0 <= k < i ==> table[1..][k].rawMessage != raw;
        assert table[i + 1] == r.value;
        r
      else r
  }

  /** The catalogue maps exactly its three raw messages, each to its own
      entry; every other text has no entry. */
  lemma KnownErrorCatalogue(raw: string)
    ensures FindKnownError(KnownErrorCodes, raw) ==
      if raw == InvalidRootText then Some(KnownErrorCodes[0])
      else if raw == InvalidProofText then Some(KnownErrorCodes[1])
      else if raw == RootTooOldText then Some(KnownErrorCodes[2])
      else None
  {
  }

  /** No entry has an empty code or detail, so `knownError?.detail || …`
      falls back only when nothing matched. */
  lemma KnownErrorsNonEmpty()
    ensures forall e :: e in KnownErrorCodes ==> e.code != "" && e.detail != ""
  {
  }

  // ---------------------------------------------------------------------
  // decodeProof

  datatype Pair = Pair(first: string, second: string)

  datatype PairOfPairs = PairOfPairs(first: Pair, second: Pair)

  /** `[[a0, a1], [[b00, b01], [b10, b11]], [c0, c1]]` */
  datatype Proof = Proof(a: Pair, b: PairOfPairs, c: Pair)

  /** The eight values of a proof in the order they are written. */
  function Flatten(p: Proof): (s: seq<string>)
    ensures |s| == 8
  {
    [p.a.first, p.a.second,
     p.b.first.first, p.b.first.second, p.b.second.first, p.b.second.second,
     p.c.first, p.c.second]
  }

  /** The length check and the array literal of `decodeProof`: None where it
      throws "Input array must have exactly 8 elements." */
  function ReshapeProof(hexes: seq<string>): (r: Option<Proof>)
    ensures r.Some? <==> |hexes| == 8
    ensures r.Some? ==> Flatten(r.value) == hexes
  {
    if |hexes| != 8 then None
    else Some(Proof(Pair(hexes[0], hexes[1]),
                    PairOfPairs(Pair(hexes[2], hexes[3]), Pair(hexes[4], hexes[5])),
                    Pair(hexes[6], hexes[7])))
  }

  /** Reshaping undoes flattening. */
  lemma ReshapeFlatten(p: Proof)
    ensures ReshapeProof(Flatten(p)) == Some(p)
  {
  }

  function HexAll(ws: seq<nat>): seq<string>
  {
    seq(|ws|, i requires 0 <= i < |ws| => ToHexString(ws[i]))
  }

  /** `decodeProof`: decode a `uint256[8]`, render each value with `hexlify`
      and reshape. None wherever the source throws. */
  function DecodeProof(encoded: string): (r: Option<Proof>)
    ensures r.Some? <==> DecodeUint256Array(encoded, 8).Some?
    ensures r.Some? ==> Flatten(r.value) == HexAll(DecodeUint256Array(encoded, 8).value)
  {
    match DecodeUint256Array(encoded, 8)
    case None => None
    case Some(words) => ReshapeProof(HexAll(words))
  }

  /** For every ABI encoding of eight `uint256` values, the decoded proof
      lists their canonical renderings in input order. */
  lemma DecodeProofPreservesOrder(ws: seq<nat>)
    requires |ws| == 8 && AllUint256(ws)
    ensures DecodeProof(EncodeUint256Array(ws)).Some?
    ensures Flatten(DecodeProof(EncodeUint256Array(ws)).value) == HexAll(ws)
  {
    DecodeUint256ArrayRoundTrip(ws);
  }

  /** A proof shorter than eight words is refused. */
  lemma DecodeProofRejectsShort(encoded: string)
    requires IsHexData(encoded) && |encoded| < 2 + 2 * WordBytes * 8
    ensures DecodeProof(encoded).None?
  {
  }

  // ---------------------------------------------------------------------
  // parseProofInputs

  datatype InputParams = InputParams(
    merkle_root: string, signal: string, nullifier_hash: string,
    external_nullifier: string, proof: string)

  datatype Params = Params(
    proof: Proof, nullifier_hash: string, external_nullifier: string,
    signal_hash: string, merkle_root: string)

  /** The two signal helpers whose code is not part of this model:
      `validateABILikeEncoding` and `hashToField(…).hash`. */
  datatype Hashing = Hashing(isAbiLike: string -> bool, hashToField: string -> nat)

  datatype Field = ProofField | NullifierHashField | MerkleRootField | ExternalNullifierField | SignalField
  {
    /** The `attribute` reported for the field. */
    function Name(): string
    {
      match this
      case ProofField => "proof"
      case NullifierHashField => "nullifier_hash"
      case MerkleRootField => "merkle_root"
      case ExternalNullifierField => "external_nullifier"
      case SignalField => "signal"
    }
  }

  /** The order in which the fields are checked. */
  const FieldOrder: seq<Field> :=
    [ProofField, NullifierHashField, MerkleRootField, ExternalNullifierField, SignalField]

  const Uint256ArrayMessage := "This attribute is improperly formatted. Expected an ABI-encoded uint256[8]."
  const Uint256Message := "This attribute is improperly formatted. Expected an ABI-encoded uint256."
  const SignalMessage := "This attribute is improperly formatted. Expected an ABI-encoded uint256 or a string."

  function FormatMessage(f: Field): string
  {
    match f
    case ProofField => Uint256ArrayMessage
    case SignalField => SignalMessage
    case _ => Uint256Message
  }

  /** The error returned when a field cannot be decoded. */
  function FormatError(f: Field): ApiError
  {
    ApiError(FormatMessage(f), "invalid_format", 400, Named(f.Name()))
  }

  /** `abi.decode(["uint256"], s)[0].toHexString()`; None where it throws. */
  function DecodeScalar(s: string): (r: Option<string>)
    ensures r.Some? <==> DecodeUint256(s).Some?
    ensures r.Some? ==> IsCanonicalHex(r.value) && HexQuantityValue(r.value) == DecodeUint256(s)
  {
    match DecodeUint256(s)
    case None => None
    case Some(v) => ToHexStringRoundTrip(v); Some(ToHexString(v))
  }

  /** The signal step: an ABI-like signal is decoded as a `uint256`, any
      other goes through `hashToField`. None where the source reports an
      error. */
  function SignalHash(h: Hashing, signal: string): (r: Option<string>)
    ensures r.None? ==> h.isAbiLike(signal) && DecodeUint256(signal).None?
    ensures r.Some? ==> IsCanonicalHex(r.value)
  {
    if h.isAbiLike(signal) then DecodeScalar(signal)
    else Some(ToHexString(h.hashToField(signal)))
  }

  /** Whether the parser accepts the given field of the input. */
  predicate FieldValid(h: Hashing, p: InputParams, f: Field)
  {
    match f
    case ProofField => DecodeProof(p.proof).Some?
    case NullifierHashField => DecodeUint256(p.nullifier_hash).Some?
    case MerkleRootField => DecodeUint256(p.merkle_root).Some?
    case ExternalNullifierField => DecodeUint256(p.external_nullifier).Some?
    case SignalField => !h.isAbiLike(p.signal) || DecodeUint256(p.signal).Some?
  }

  /** Reference definition of the reported field: the first of `fields`
      that the parser does not accept. */
  function FirstInvalidField(h: Hashing, p: InputParams, fields: seq<Field>): (r: Option<Field>)
    ensures r.None? <==> forall i :: 0 <= i < |fields| ==> FieldValid(h, p, fields[i])
    ensures r.Some? ==> exists i :: 0 <= i < |fields| && fields[i] == r.value && !FieldValid(h, p, r.value)
                                    && forall j :: 0 <= j < i ==> FieldValid(h, p, fields[j])
  {
    if |fields| == 0 then None
    else if !FieldValid(h, p, fields[0]) then Some(fields[0])
    else
      var r := FirstInvalidField(h, p, fields[1..]);
      assert forall i :: 1 <= i < |fields| ==> fields[i] == fields[1..][i - 1];
      if r.Some? then
        var i :| 0 <= i < |fields[1..]| && fields[1..][i] == r.value && !FieldValid(h, p, r.value)
                 && forall j :: 0 <= j < i ==> FieldValid(h, p, fields[1..][j]);
        assert fields[i + 1] == r.value;
        r
      else r
  }

  /** `parseProofInputs`: decode the proof, the nullifier hash, the Merkle
      root, the external nullifier and the signal, in that order, stopping
      at the first failure. */
  function ParseProofInputs(h: Hashing, p: InputParams): (r: Result<Params, ApiError>)
    ensures r.Err? ==> r.error.code == "invalid_format" && r.error.statusCode == 400
                       && r.error.attribute.Named?
    ensures r.Ok? ==> DecodeUint256Array(p.proof, 8).Some?
                      && Flatten(r.value.proof) == HexAll(DecodeUint256Array(p.proof, 8).value)
    ensures r.Ok? ==> HexQuantityValue(r.value.nullifier_hash) == DecodeUint256(p.nullifier_hash)
    ensures r.Ok? ==> HexQuantityValue(r.value.merkle_root) == DecodeUint256(p.merkle_root)
    ensures r.Ok? ==> HexQuantityValue(r.value.external_nullifier) == DecodeUint256(p.external_nullifier)
    ensures r.Ok? ==> IsCanonicalHex(r.value.nullifier_hash) && IsCanonicalHex(r.value.merkle_root)
                      && IsCanonicalHex(r.value.external_nullifier) && IsCanonicalHex(r.value.signal_hash)
  {
    match DecodeProof(p.proof)
    case None => Err(FormatError(ProofField))
    case Some(proof) =>
      match DecodeScalar(p.nullifier_hash)
      case None => Err(FormatError(NullifierHashField))
      case Some(nullifier_hash) =>
        match DecodeScalar(p.merkle_root)
        case None => Err(FormatError(MerkleRootField))
        case Some(merkle_root) =>
          match DecodeScalar(p.external_nullifier)
          case None => Err(FormatError(ExternalNullifierField))
          case Some(external_nullifier) =>
            match SignalHash(h, p.signal)
            case None => Err(FormatError(SignalField))
            case Some(signal_hash) =>
              Ok(Params(proof, nullifier_hash, external_nullifier, signal_hash, merkle_root))
  }

  /** The parser fails exactly when some field is not accepted, and then it
      reports the first such field in the order proof, nullifier_hash,
      merkle_root, external_nullifier, signal, with that field's message. */
  lemma ParseReportsFirstInvalidField(h: Hashing, p: InputParams)
    ensures ParseProofInputs(h, p).Err? <==> FirstInvalidField(h, p, FieldOrder).Some?
    ensures ParseProofInputs(h, p).Err? ==>
              ParseProofInputs(h, p).error == FormatError(FirstInvalidField(h, p, FieldOrder).value)
  {
    FirstInvalidFieldInOrder(h, p);
    var r := ParseProofInputs(h, p);
    assert FieldValid(h, p, ProofField) <==> DecodeProof(p.proof).Some?;
    assert FieldValid(h, p, NullifierHashField) <==> DecodeScalar(p.nullifier_hash).Some?;
    assert FieldValid(h, p, MerkleRootField) <==> DecodeScalar(p.merkle_root).Some?;
    assert FieldValid(h, p, ExternalNullifierField) <==> DecodeScalar(p.external_nullifier).Some?;
    assert FieldValid(h, p, SignalField) <==> SignalHash(h, p.signal).Some?;
    if DecodeProof(p.proof).None? {
      assert r == Err(FormatError(ProofField));
    } else if DecodeScalar(p.nullifier_hash).None? {
      assert r == Err(FormatError(NullifierHashField));
    } else if DecodeScalar(p.merkle_root).None? {
      assert r == Err(FormatError(MerkleRootField));
    } else if DecodeScalar(p.external_nullifier).None? {
      assert r == Err(FormatError(ExternalNullifierField));
    } else if SignalHash(h, p.signal).None? {
      assert r == Err(FormatError(SignalField));
    } else {
      assert r.Ok?;
    }
  }

  /** FirstInvalidField over FieldOrder, unrolled. */
  lemma FirstInvalidFieldInOrder(h: Hashing, p: InputParams)
    ensures FirstInvalidField(h, p, FieldOrder) ==
      if !FieldValid(h, p, ProofField) then Some(ProofField)
      else if !FieldValid(h, p, NullifierHashField) then Some(NullifierHashField)
      else if !FieldValid(h, p, MerkleRootField) then Some(MerkleRootField)
      else if !FieldValid(h, p, ExternalNullifierField) then Some(ExternalNullifierField)
      else if !FieldValid(h, p, SignalField) then Some(SignalField)
      else None
  {
    var fs := FieldOrder;
    assert fs[4..][1..] == [];
    assert FirstInvalidField(h, p, fs[4..]) ==
      if !FieldValid(h, p, SignalField) then Some(SignalField) else None;
    assert fs[3..][1..] == fs[4..];
    assert FirstInvalidField(h, p, fs[3..]) ==
      if !FieldValid(h, p, ExternalNullifierField) then Some(ExternalNullifierField)
      else FirstInvalidField(h, p, fs[4..]);
    assert fs[2..][1..] == fs[3..];
    assert FirstInvalidField(h, p, fs[2..]) ==
      if !FieldValid(h, p, MerkleRootField) then Some(MerkleRootField)
      else FirstInvalidField(h, p, fs[3..]);
    assert fs[1..][1..] == fs[2..];
    assert FirstInvalidField(h, p, fs[1..]) ==
      if !FieldValid(h, p, NullifierHashField) then Some(NullifierHashField)
      else FirstInvalidField(h, p, fs[2..]);
  }

  /** The four fields before the signal are accepted. */
  predicate ScalarsValid(h: Hashing, p: InputParams)
  {
    && FieldValid(h, p, ProofField)
    && FieldValid(h, p, NullifierHashField)
    && FieldValid(h, p, MerkleRootField)
    && FieldValid(h, p, ExternalNullifierField)
  }

  /** An ABI-like signal is decoded as a `uint256`: its value becomes the
      signal hash, and an undecodable one is reported on `signal` with the
      "uint256 or a string" message. */
  lemma SignalDecodedWhenAbiLike(h: Hashing, p: InputParams)
    ensures ScalarsValid(h, p) && h.isAbiLike(p.signal) ==>
              (ParseProofInputs(h, p).Ok? <==> DecodeUint256(p.signal).Some?)
    ensures ScalarsValid(h, p) && h.isAbiLike(p.signal) && ParseProofInputs(h, p).Ok? ==>
              HexQuantityValue(ParseProofInputs(h, p).value.signal_hash) == DecodeUint256(p.signal)
    ensures ScalarsValid(h, p) && h.isAbiLike(p.signal) && ParseProofInputs(h, p).Err? ==>
              ParseProofInputs(h, p).error == ApiError(SignalMessage, "invalid_format", 400, Named("signal"))
  {
    if ScalarsValid(h, p) && h.isAbiLike(p.signal) {
      AbiLikeSignalParse(h, p);
    }
  }

  /** SignalDecodedWhenAbiLike under its hypotheses. */
  lemma AbiLikeSignalParse(h: Hashing, p: InputParams)
    requires ScalarsValid(h, p) && h.isAbiLike(p.signal)
    ensures ParseProofInputs(h, p).Ok? <==> DecodeUint256(p.signal).Some?
    ensures ParseProofInputs(h, p).Ok? ==>
              HexQuantityValue(ParseProofInputs(h, p).value.signal_hash) == DecodeUint256(p.signal)
    ensures ParseProofInputs(h, p).Err? ==>
              ParseProofInputs(h, p).error == ApiError(SignalMessage, "invalid_format", 400, Named("signal"))
  {
    ParseAfterScalars(h, p);
    var r := ParseProofInputs(h, p);
    if DecodeUint256(p.signal).Some? {
      assert SignalHash(h, p.signal) == DecodeScalar(p.signal);
      assert r.Ok? && r.value.signal_hash == DecodeScalar(p.signal).value;
    } else {
      assert r == Err(FormatError(SignalField));
    }
  }

  /** Once the four fields before the signal are accepted, the parse
      succeeds or fails with the signal step. */
  lemma ParseAfterScalars(h: Hashing, p: InputParams)
    requires ScalarsValid(h, p)
    ensures SignalHash(h, p.signal).None? ==> ParseProofInputs(h, p) == Err(FormatError(SignalField))
    ensures SignalHash(h, p.signal).Some? ==>
              ParseProofInputs(h, p).Ok? && ParseProofInputs(h, p).value.signal_hash == SignalHash(h, p.signal).value
  {
    assert DecodeScalar(p.nullifier_hash).Some?;
    assert DecodeScalar(p.merkle_root).Some?;
    assert DecodeScalar(p.external_nullifier).Some?;
  }

  /** Any other signal is hashed with `hashToField`, whether or not it
      would decode, and this step cannot fail. */
  lemma SignalHashedOtherwise(h: Hashing, p: InputParams)
    ensures ScalarsValid(h, p) && !h.isAbiLike(p.signal) ==>
              ParseProofInputs(h, p).Ok?
              && ParseProofInputs(h, p).value.signal_hash == ToHexString(h.hashToField(p.signal))
  {
  }

  /** The two signal paths are exclusive: the parse does not consult
      `hashToField` for an ABI-like signal, and for any other signal it
      consults nothing but `hashToField`. */
  lemma SignalPathsExclusive(h1: Hashing, h2: Hashing, p: InputParams)
    requires h1.isAbiLike(p.signal) == h2.isAbiLike(p.signal)
    requires !h1.isAbiLike(p.signal) ==> h1.hashToField(p.signal) == h2.hashToField(p.signal)
    ensures ParseProofInputs(h1, p) == ParseProofInputs(h2, p)
  {
  }

  // ---------------------------------------------------------------------
  // fetchActionForProof (decision rules over the query result)

  datatype NullifierRecord = NullifierRecord(uses: int, created_at: string, nullifier_hash: string)

  datatype ActionRecord = ActionRecord(
    id: string, action: string, status: string, external_nullifier: string,
    nullifiers: seq<NullifierRecord>, max_verifications: int)

  datatype AppRecord = AppRecord(id: string, is_staging: bool, engine: string, actions: seq<ActionRecord>)

  /** The app returned on success: its own fields, its first action and
      that action's first nullifier, if any. */
  datatype ResolvedApp = ResolvedApp(
    id: string, is_staging: bool, engine: string,
    action: ActionRecord, nullifier: Option<NullifierRecord>)

  const AppNotFound := ApiError("App not found. App may be no longer active.", "not_found", 404, Omitted)
  const ActionNotFound := ApiError("Action not found.", "invalid_action", 400, Named("action"))
  const OnChainEngine := ApiError("This action runs on-chain and can't be verified here.", "invalid_engine", 400, Named("engine"))

  /** All three gates pass. */
  predicate ActionUsable(apps: seq<AppRecord>)
  {
    |apps| > 0 && |apps[0].actions| > 0 && apps[0].engine == "cloud"
  }

  /** `fetchActionForProof` after the query: `apps` is `result.data.app`. */
  function FetchActionForProof(apps: seq<AppRecord>): (r: Result<ResolvedApp, ApiError>)
    ensures r.Ok? <==> ActionUsable(apps)
    ensures |apps| == 0 ==> r == Err(AppNotFound)
    ensures |apps| > 0 && |apps[0].actions| == 0 ==> r == Err(ActionNotFound)
    ensures |apps| > 0 && |apps[0].actions| > 0 && apps[0].engine != "cloud" ==> r == Err(OnChainEngine)
    ensures r.Ok? ==> r.value.engine == "cloud" && r.value.id == apps[0].id
                      && r.value.is_staging == apps[0].is_staging
                      && r.value.action == apps[0].actions[0]
                      && (r.value.nullifier.Some? <==> |apps[0].actions[0].nullifiers| > 0)
                      && (r.value.nullifier.Some? ==> r.value.nullifier.value == apps[0].actions[0].nullifiers[0])
  {
    if |apps| == 0 then Err(AppNotFound)
    else
      var app := apps[0];
      if |app.actions| == 0 then Err(ActionNotFound)
      else if app.engine != "cloud" then Err(OnChainEngine)
      else
        var action := app.actions[0];
        var nullifier := if |action.nullifiers| > 0 then Some(action.nullifiers[0]) else None;
        Ok(ResolvedApp(app.id, app.is_staging, app.engine, action, nullifier))
  }

  // ---------------------------------------------------------------------
  // verifyProof

  datatype VerifyParams = VerifyParams(is_staging: bool, verification_level: string, max_age: Option<int>)

  /** `sequencerMapping[level][String(is_staging)]`; its contents are not
      part of this model. */
  type SequencerMapping = map<string, map<string, string>>

  datatype RequestBody = RequestBody(
    root: string, nullifierHash: string, externalNullifierHash: string,
    signalHash: string, proof: Proof)

  datatype Request = Request(url: string, body: RequestBody)

  /** The backend's answer: not ok with its text (None when reading it
      fails), or ok with the `status` of its JSON object (None when that
      field is absent or not a string). A JSON body that is not an object,
      such as `null`, is not represented. */
  datatype Response = NotOkResponse(text: Option<string>) | OkResponse(status: Option<string>)

  /** What `verifyProof` resolves to (`{ success: true, status }` or
      `{ error }`), or the exception it throws. */
  datatype Outcome = Verified(status: string) | Failed(error: ApiError) | Thrown(message: string)

  function StagingKey(is_staging: bool): string
  {
    if is_staging then "true" else "false"
  }

  /** `sequencerMapping[level]?.[key]`; None is `undefined`. */
  function SequencerUrl(mapping: SequencerMapping, vp: VerifyParams): (r: Option<string>)
    ensures r.Some? <==> vp.verification_level in mapping
                         && StagingKey(vp.is_staging) in mapping[vp.verification_level]
    ensures r.Some? ==> r.value == mapping[vp.verification_level][StagingKey(vp.is_staging)]
  {
    if vp.verification_level in mapping && StagingKey(vp.is_staging) in mapping[vp.verification_level]
    then Some(mapping[vp.verification_level][StagingKey(vp.is_staging)])
    else None
  }

  /** `${sequencerUrl}`: an undefined URL is written as "undefined". */
  function Interpolate(u: Option<string>): string
  {
    match u
    case None => "undefined"
    case Some(s) => s
  }

  /** JavaScript truthiness of `max_age` (a missing value and 0 are falsy). */
  predicate MaxAgeTruthy(maxAge: Option<int>)
  {
    maxAge.Some? && maxAge.value != 0
  }

  function Endpoint(base: Option<string>): string
  {
    Interpolate(base) + "/verifySemaphoreProof"
  }

  /** The URL posted to: the endpoint, followed by the root-age query only
      when `max_age` is truthy. */
  function RequestUrl(base: Option<string>, maxAge: Option<int>): (u: string)
    ensures |Endpoint(base)| <= |u| && u[..|Endpoint(base)|] == Endpoint(base)
    ensures u == Endpoint(base) <==> !MaxAgeTruthy(maxAge)
    ensures MaxAgeTruthy(maxAge) ==>
              u[|Endpoint(base)|..] == "?maxRootAgeSeconds=" + IntToDecimal(maxAge.value)
  {
    if MaxAgeTruthy(maxAge) then
      var query := "?maxRootAgeSeconds=" + IntToDecimal(maxAge.value);
      assert (Endpoint(base) + query)[|Endpoint(base)|..] == query;
      Endpoint(base) + query
    else Endpoint(base)
  }

  /** The parse, then the JSON body and the URL of the request. */
  function PrepareRequest(h: Hashing, p: InputParams, vp: VerifyParams, mapping: SequencerMapping): (r: Result<Request, ApiError>)
    ensures ParseProofInputs(h, p).Err? ==> r == Err(ParseProofInputs(h, p).error)
    ensures ParseProofInputs(h, p).Ok? ==> r.Ok?
    ensures r.Ok? ==> r.value.url == RequestUrl(SequencerUrl(mapping, vp), vp.max_age)
    ensures r.Ok? ==> var parsed := ParseProofInputs(h, p).value;
                      r.value.body == RequestBody(parsed.merkle_root, parsed.nullifier_hash,
                                                  parsed.external_nullifier, parsed.signal_hash, parsed.proof)
    ensures r.Ok? ==> IsCanonicalHex(r.value.body.root) && IsCanonicalHex(r.value.body.nullifierHash)
                      && IsCanonicalHex(r.value.body.externalNullifierHash) && IsCanonicalHex(r.value.body.signalHash)
    ensures r.Ok? ==> HexQuantityValue(r.value.body.root) == DecodeUint256(p.merkle_root)
    ensures r.Ok? ==> HexQuantityValue(r.value.body.nullifierHash) == DecodeUint256(p.nullifier_hash)
    ensures r.Ok? ==> HexQuantityValue(r.value.body.externalNullifierHash) == DecodeUint256(p.external_nullifier)
    ensures r.Ok? ==> Some(r.value.body.signalHash) == SignalHash(h, p.signal)
    ensures r.Ok? ==> DecodeUint256Array(p.proof, 8).Some?
                      && Flatten(r.value.body.proof) == HexAll(DecodeUint256Array(p.proof, 8).value)
  {
    match ParseProofInputs(h, p)
    case Err(e) => Err(e)
    case Ok(params) =>
      var body := RequestBody(params.merkle_root, params.nullifier_hash, params.external_nullifier,
                              params.signal_hash, params.proof);
      Ok(Request(RequestUrl(SequencerUrl(mapping, vp), vp.max_age), body))
  }

  const InternalErrorMessage := "There was an internal issue verifying this proof."
  const UnexpectedResponseMessage := "Unexpected response received from sequencer."

  function UnknownErrorMessage(raw: string): string
  {
    "We couldn't verify the provided proof (error code " + raw + ")."
  }

  /** `a || b` for an optional string: b when a is missing or empty. */
  function OrElse(a: Option<string>, b: string): string
  {
    if a.Some? && a.value != "" then a.value else b
  }

  function CodeOf(e: Option<KnownError>): Option<string>
  {
    match e
    case None => None
    case Some(k) => Some(k.code)
  }

  function DetailOf(e: Option<KnownError>): Option<string>
  {
    match e
    case None => None
    case Some(k) => Some(k.detail)
  }

  /** The classification of the backend's answer. The status of an ok
      answer is never empty, so the exception is never thrown. */
  function ClassifyResponse(resp: Response): (out: Outcome)
    ensures !out.Thrown?
    ensures resp.OkResponse? ==> out.Verified?
    ensures resp.OkResponse? ==> (out.status == "on-chain" <==> resp.status == Some("mined"))
    ensures resp.OkResponse? ==> (out.status == "pending" <==> resp.status != Some("mined"))
    ensures resp.NotOkResponse? ==> out.Failed?
    ensures resp == NotOkResponse(None) ==>
              out.error == ApiError(InternalErrorMessage, "internal_error", 500, Omitted)
    ensures resp.NotOkResponse? && resp.text.Some? ==>
              out.error.statusCode == 400 && out.error.attribute == NullAttribute
    ensures resp.NotOkResponse? && resp.text.Some? ==>
              match FindKnownError(KnownErrorCodes, resp.text.value)
              case Some(e) => out.error.code == e.code && out.error.message == e.detail
              case None => out.error.code == "invalid_proof"
                           && out.error.message == UnknownErrorMessage(resp.text.value)
  {
    match resp
    case NotOkResponse(None) =>
      Failed(ApiError(InternalErrorMessage, "internal_error", 500, Omitted))
    case NotOkResponse(Some(raw)) =>
      var known := FindKnownError(KnownErrorCodes, raw);
      KnownErrorsNonEmpty();
      Failed(ApiError(OrElse(DetailOf(known), UnknownErrorMessage(raw)),
                      OrElse(CodeOf(known), "invalid_proof"), 400, NullAttribute))
    case OkResponse(status) =>
      var st := if status == Some("mined") then "on-chain" else "pending";
      if st == "" then Thrown(UnexpectedResponseMessage) else Verified(st)
  }

  /** `verifyProof`, with `backend` in place of the `fetch` call. */
  function VerifyProof(h: Hashing, p: InputParams, vp: VerifyParams, mapping: SequencerMapping,
                       backend: Request -> Response): (out: Outcome)
    ensures !out.Thrown?
    ensures ParseProofInputs(h, p).Err? ==> out == Failed(ParseProofInputs(h, p).error)
    ensures ParseProofInputs(h, p).Ok? ==>
              out == ClassifyResponse(backend(PrepareRequest(h, p, vp, mapping).value))
  {
    match PrepareRequest(h, p, vp, mapping)
    case Err(e) => Failed(e)
    case Ok(req) => ClassifyResponse(backend(req))
  }

  /** A parse error is returned as is and the backend is never asked: the
      outcome is the same whatever the backend would answer. */
  lemma ParseErrorSkipsBackend(h: Hashing, p: InputParams, vp: VerifyParams, mapping: SequencerMapping,
                               b1: Request -> Response, b2: Request -> Response)
    requires ParseProofInputs(h, p).Err?
    ensures VerifyProof(h, p, vp, mapping, b1) == VerifyProof(h, p, vp, mapping, b2)
  {
  }

  /** A proof that encodes fewer than eight words fails on `proof` before
      anything is sent. */
  lemma ShortProofFailsOnProof(h: Hashing, p: InputParams, vp: VerifyParams, mapping: SequencerMapping,
                               backend: Request -> Response)
    requires IsHexData(p.proof) && |p.proof| < 2 + 2 * WordBytes * 8
    ensures VerifyProof(h, p, vp, mapping, backend)
            == Failed(ApiError(Uint256ArrayMessage, "invalid_format", 400, Named("proof")))
  {
  }

  /** A backend text of exactly "invalid proof" yields the catalogue's
      entry, not the generic fallback. */
  lemma InvalidProofTextIsKnown()
    ensures ClassifyResponse(NotOkResponse(Some(InvalidProofText)))
            == Failed(ApiError(KnownErrorCodes[1].detail, "invalid_proof", 400, NullAttribute))
  {
  }

  /** Any other text yields `invalid_proof` with the text in the message. */
  lemma UnknownTextIsGeneric(raw: string)
    requires raw != InvalidRootText && raw != InvalidProofText && raw != RootTooOldText
    ensures ClassifyResponse(NotOkResponse(Some(raw)))
            == Failed(ApiError(UnknownErrorMessage(raw), "invalid_proof", 400, NullAttribute))
  {
  }

  /** An accepted request whose answer has status "mined" ends on-chain. */
  lemma MinedIsOnChain(h: Hashing, p: InputParams, vp: VerifyParams, mapping: SequencerMapping,
                       backend: Request -> Response)
    ensures ParseProofInputs(h, p).Ok?
            && backend(PrepareRequest(h, p, vp, mapping).value) == OkResponse(Some("mined")) ==>
              VerifyProof(h, p, vp, mapping, backend) == Verified("on-chain")
  {
  }

  /** An ok answer without a `status` is reported as pending. */
  lemma MissingStatusIsPending()
    ensures ClassifyResponse(OkResponse(None)) == Verified("pending")
  {
  }
}
