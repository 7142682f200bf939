/** What a caller asks for when it claims a run dispatch, and how the request is put in
  * normal form before anything is looked up (`normalizeRunDispatchInput`,
  * `runDispatchRequestDigest`). */
module DispatchInput {
  import opened Wrappers
  import opened CodePoints
  import opened CanonicalJson

  datatype ProducerKind = ThreadMessage | ClarificationResolution

  datatype GatewayError =
    | ProducerInvalid
    | RequestInvalid
    | CustomerIdentityInvalid
    | ThreadNotFound
    | ThreadOwnerMismatch
    | RunNotFound
    | DispatchNotFound
    | DispatchConflict
    | ClarificationSourceNotWaiting
    | DispatchActiveConflict
    | DispatchInvariantFailed
    | DispatchStateInvalid

  /** A request as received. A field that is absent or not a string is an empty string;
    * an unknown producer is `None`, an absent or null payload is `None`. */
  datatype RawInput = RawInput(
    producerKind: Option<ProducerKind>,
    scopeRef: JsString,
    requestIdentity: JsString,
    threadId: JsString,
    runId: JsString,
    text: JsString,
    actorId: JsString,
    requestPayload: Option<Json>)

  datatype Request = Request(
    producerKind: ProducerKind,
    scopeRef: JsString,
    requestIdentity: JsString,
    threadId: JsString,
    runId: JsString,
    text: JsString,
    actorId: JsString,
    requestPayload: Json)

  /** SHA-256 of the canonical envelope, represented by the envelope. */
  datatype Digest = Digest(producerKind: ProducerKind, scopeRef: JsString, threadId: JsString, requestPayload: Json)

  const MESSAGE_KEY: JsString := [109, 101, 115, 115, 97, 103, 101]

  /** White space and line terminators of ECMAScript. */
  predicate IsSpace(u: CodeUnit) {
    || 9 <= u <= 13 || u == 32 || u == 0xA0 || u == 0x1680 || 0x2000 <= u <= 0x200A
    || u == 0x2028 || u == 0x2029 || u == 0x202F || u == 0x205F || u == 0x3000 || u == 0xFEFF
  }

  function TrimStart(s: JsString): (r: JsString)
    ensures r == [] || !IsSpace(r[0])
    ensures |r| <= |s|
  {
    if s != [] && IsSpace(s[0]) then TrimStart(s[1..]) else s
  }

  function TrimEnd(s: JsString): (r: JsString)
    ensures r == [] || !IsSpace(r[|r| - 1])
    ensures |r| <= |s| && r == s[..|r|]
  {
    if s != [] && IsSpace(s[|s| - 1]) then TrimEnd(s[..|s| - 1]) else s
  }

  function Trim(s: JsString): JsString { TrimEnd(TrimStart(s)) }

  predicate IsBlank(s: JsString) { Trim(s) == [] }

  predicate HasControl(s: JsString) {
    exists i :: 0 <= i < |s| && (s[i] < 0x20 || s[i] == 0x7F)
  }

  function NormalizeActorId(actorId: JsString): Result<JsString, GatewayError> {
    if IsBlank(actorId) || |Trim(actorId)| > 256 || HasControl(actorId) then Err(CustomerIdentityInvalid)
    else Ok(Trim(actorId))
  }

  function Lookup(fields: seq<Field>, key: JsString): Json {
    if fields == [] then NotJson
    else if fields[0].key == key then fields[0].value
    else Lookup(fields[1..], key)
  }

  /** The canonical payload; none if it is not an object, has no canonical form, or does not carry the text. */
  function NormalPayload(requestPayload: Option<Json>, text: JsString): Option<Json> {
    var raw := if requestPayload == None || requestPayload == Some(Null)
               then Object([Field(MESSAGE_KEY, String(text))]) else requestPayload.value;
    if !raw.Object? then None
    else
      var payload := Canonical(raw, true);
      if payload.None? || Lookup(payload.value.fields, MESSAGE_KEY) != String(text) then None else payload
  }

  function Normalize(input: RawInput): Result<Request, GatewayError> {
    if input.producerKind.None? then Err(ProducerInvalid)
    else if IsBlank(input.scopeRef) || IsBlank(input.requestIdentity) || IsBlank(input.threadId)
            || IsBlank(input.text) || IsBlank(input.actorId) then Err(RequestInvalid)
    else
      var producer := input.producerKind.value;
      var threadId, scopeRef := Trim(input.threadId), Trim(input.scopeRef);
      var identity, text := Trim(input.requestIdentity), Trim(input.text);
      var runId := if producer == ClarificationResolution && !IsBlank(input.runId) then Trim(input.runId) else [];
      if |identity| > 256
         || (producer == ThreadMessage && scopeRef != threadId)
         || (producer == ClarificationResolution && (scopeRef != runId || runId == [])) then Err(RequestInvalid)
      else
        var payload := NormalPayload(input.requestPayload, text);
        var actor := NormalizeActorId(input.actorId);
        if payload.None? then Err(RequestInvalid)
        else if actor.Err? then Err(actor.error)
        else Ok(Request(producer, scopeRef, identity, threadId, runId, text, actor.value, payload.value))
  }

  function RequestDigest(r: Request): Digest {
    Digest(r.producerKind, r.scopeRef, r.threadId, r.requestPayload)
  }

  /** What normal form guarantees about the scope of a request. */
  ghost predicate Scoped(r: Request) {
    match r.producerKind
    case ThreadMessage => r.scopeRef == r.threadId && r.runId == []
    case ClarificationResolution => r.scopeRef == r.runId
  }

  lemma NormalizedIsScoped(input: RawInput)
    requires Normalize(input).Ok?
    ensures Scoped(Normalize(input).value)
  {
  }

  lemma SameKind(a: Json, b: Json)
    requires Same(a, b)
    ensures a.Object? <==> b.Object?
    ensures a.Null? <==> b.Null?
  {
  }

  lemma ReorderedPayloadIsTheSamePayload(payload: Json, reordered: Json, text: JsString)
    requires Proper(payload) && Proper(reordered) && Same(payload, reordered)
    ensures NormalPayload(Some(reordered), text) == NormalPayload(Some(payload), text)
  {
    SameGivesEqual(payload, reordered, true);
    SameKind(payload, reordered);
  }

  /** Resending a payload with its object entries in another order, at any depth, asks for the same
    * thing: the request in normal form and its digest are unchanged, and so is a rejection. */
  lemma ReorderedPayloadIsTheSameRequest(input: RawInput, reordered: Json)
    requires input.requestPayload.Some? && Proper(input.requestPayload.value) && Proper(reordered)
    requires Same(input.requestPayload.value, reordered)
    ensures Normalize(input.(requestPayload := Some(reordered))) == Normalize(input)
  {
    hide Same, Proper, NormalPayload, Trim, IsBlank, NormalizeActorId;
    ReorderedPayloadIsTheSamePayload(input.requestPayload.value, reordered, Trim(input.text));
  }

  lemma PayloadIsCanonical(input: RawInput)
    requires Normalize(input).Ok? && input.requestPayload.Some? && input.requestPayload.value.Object?
    ensures Canonical(input.requestPayload.value, true) == Some(Normalize(input).value.requestPayload)
  {
    hide Canonical;
  }

  /** Requests that agree in scope and thread share a digest exactly when their payloads differ in
    * the order of object entries at most. */
  lemma DigestSeesContentOnly(a: RawInput, b: RawInput)
    requires Normalize(a).Ok? && Normalize(b).Ok?
    requires a.requestPayload.Some? && b.requestPayload.Some?
    requires a.requestPayload.value.Object? && b.requestPayload.value.Object?
    requires Proper(a.requestPayload.value) && Proper(b.requestPayload.value)
    requires Normalize(a).value.producerKind == Normalize(b).value.producerKind
    requires Normalize(a).value.scopeRef == Normalize(b).value.scopeRef
    requires Normalize(a).value.threadId == Normalize(b).value.threadId
    ensures RequestDigest(Normalize(a).value) == RequestDigest(Normalize(b).value)
       <==> Same(a.requestPayload.value, b.requestPayload.value)
  {
    hide Normalize, Canonical, Same, Proper;
    PayloadIsCanonical(a);
    PayloadIsCanonical(b);
    CanonicalExactlyUpToOrder(a.requestPayload.value, b.requestPayload.value, true);
  }
}
