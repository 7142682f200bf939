/** When a request for a dispatch is in order, and what becomes of its fields. */
module RequestFields {
  import opened Wrappers
  import opened CodePoints
  import opened CanonicalJson
  import opened CanonicalForm
  import opened DispatchInput
  import opened ExecutionRecords
  import opened VerdictsByProperty

  // ---- Trimming ----

  predicate IsWhite(u: CodeUnit) { u in SPACES }

  ghost predicate IsAllSpace(s: JsString) { forall i | 0 <= i < |s| :: IsWhite(s[i]) }

  /** `t` is what is left of `s` when white space is taken off both ends. */
  ghost predicate IsTrimmed(s: JsString, t: JsString) {
    && (t == [] || (!IsWhite(t[0]) && !IsWhite(t[|t| - 1])))
    && exists before, after :: IsAllSpace(before) && IsAllSpace(after) && s == before + t + after
  }

  lemma SpaceJoins(a: JsString, b: JsString)
    requires IsAllSpace(a) && IsAllSpace(b)
    ensures IsAllSpace(a + b)
  {
  }

  lemma OneSpace(u: CodeUnit)
    requires IsSpace(u)
    ensures IsAllSpace([u])
  {
    SpacesAreThese(u);
  }

  lemma {:induction false} TrimStartLeaves(s: JsString) returns (before: JsString)
    ensures IsAllSpace(before) && s == before + TrimStart(s)
  {
    hide IsSpace, IsWhite;
    before := [];
    if s != [] && IsSpace(s[0]) {
      OneSpace(s[0]);
      before := TrimStartLeaves(s[1..]);
      SpaceJoins([s[0]], before);
      before := [s[0]] + before;
      assert s == [s[0]] + s[1..];
    }
  }

  lemma {:induction false} TrimEndLeaves(s: JsString) returns (after: JsString)
    ensures IsAllSpace(after) && s == TrimEnd(s) + after
  {
    hide IsSpace, IsWhite;
    after := [];
    if s != [] && IsSpace(s[|s| - 1]) {
      var n := |s| - 1;
      OneSpace(s[n]);
      after := TrimEndLeaves(s[..n]);
      SpaceJoins(after, [s[n]]);
      LastJoins(s, TrimEnd(s[..n]), after);
      after := after + [s[n]];
    }
  }

  lemma LastJoins(s: JsString, front: JsString, back: JsString)
    requires s != [] && s[..|s| - 1] == front + back
    ensures s == front + (back + [s[|s| - 1]])
  {
    assert s == s[..|s| - 1] + [s[|s| - 1]];
  }

  lemma TrimmedEnds(s: JsString)
    ensures Trim(s) == [] || (!IsWhite(Trim(s)[0]) && !IsWhite(Trim(s)[|Trim(s)| - 1]))
  {
    var u, t := TrimStart(s), Trim(s);
    if t != [] {
      SpacesAreThese(t[0]);
      SpacesAreThese(t[|t| - 1]);
      assert t[0] == u[0];
    }
    hide TrimStart, TrimEnd, IsSpace;
  }

  lemma TrimExactly(s: JsString)
    ensures IsTrimmed(s, Trim(s))
  {
    TrimmedEnds(s);
    var before := TrimStartLeaves(s);
    var after := TrimEndLeaves(TrimStart(s));
    hide TrimStart, TrimEnd, IsWhite, IsAllSpace;
    assert s == before + Trim(s) + after;
  }

  /** Whatever is not white space lies beyond a beginning of white space. */
  lemma InkLiesBeyond(before: JsString, rest: JsString, other: JsString, i: nat)
    requires IsAllSpace(before) && before + rest == other && i < |other| && !IsWhite(other[i])
    ensures i >= |before|
  {
    forall j | 0 <= j < |before| ensures IsWhite(other[j]) { assert other[j] == before[j]; }
  }

  lemma InkLiesBefore(rest: JsString, after: JsString, other: JsString, i: nat)
    requires IsAllSpace(after) && rest + after == other && i < |other| && !IsWhite(other[i])
    ensures i < |rest|
  {
    forall j | |rest| <= j < |other| ensures IsWhite(other[j]) { assert other[j] == after[j - |rest|]; }
  }

  lemma EndsLieWithin(a: JsString, t: JsString, b: JsString, c: JsString, u: JsString, d: JsString)
    requires a + t + b == c + u + d && IsAllSpace(c) && IsAllSpace(d)
    requires t != [] && !IsWhite(t[0]) && !IsWhite(t[|t| - 1])
    ensures |c| <= |a| && |a| + |t| <= |c| + |u|
  {
    hide IsWhite, IsAllSpace;
    var s := a + t + b;
    assert s[|a|] == t[0] && s[|a| + |t| - 1] == t[|t| - 1];
    assert c + (u + d) == s;
    InkLiesBeyond(c, u + d, s, |a|);
    InkLiesBefore(c + u, d, s, |a| + |t| - 1);
  }

  /** There is one way to trim. */
  lemma OneTrim(s: JsString, t: JsString, u: JsString)
    requires IsTrimmed(s, t) && IsTrimmed(s, u)
    ensures t == u
  {
    hide IsWhite, IsAllSpace;
    var a, b :| IsAllSpace(a) && IsAllSpace(b) && s == a + t + b;
    var c, d :| IsAllSpace(c) && IsAllSpace(d) && s == c + u + d;
    if t != [] { EndsLieWithin(a, t, b, c, u, d); }
    if u != [] { EndsLieWithin(c, u, d, a, t, b); }
    if t != [] && u != [] {
      assert t == s[|a|..|a| + |t|] && u == s[|c|..|c| + |u|];
    }
  }

  // ---- The payload ----

  lemma MessageKey()
    ensures MESSAGE_KEY == Word("message")
  {
  }

  lemma {:induction false} LookupFinds(fields: seq<Field>, key: JsString, v: Json)
    requires DistinctKeys(fields) && v != NotJson
    ensures Lookup(fields, key) == v <==> Field(key, v) in fields
  {
    if fields != [] {
      assert fields == [fields[0]] + fields[1..];
      if fields[0].key == key {
        forall f | f in fields && f.key == key ensures f == fields[0] { OneEntryPerKey(fields, f, fields[0]); }
      } else {
        LookupFinds(fields[1..], key, v);
      }
    }
  }

  lemma OnlyTextBecomesText(v: Json, text: JsString)
    ensures Canonical(v, true) == Some(String(text)) <==> v == String(text)
  {
  }

  /** The object has an entry with this message. */
  ghost predicate Says(fields: seq<Field>, text: JsString) {
    exists i :: 0 <= i < |fields| && fields[i] == Field(Word("message"), String(text))
  }

  lemma CanonicalSays(fields: seq<Field>, text: JsString)
    requires DistinctKeys(fields) && CanonicalFields(fields, true).Some?
    ensures Lookup(SortFields(CanonicalFields(fields, true).value), MESSAGE_KEY) == String(text) <==> Says(fields, text)
  {
    var r := CanonicalFields(fields, true).value;
    CanonicalKeysDistinct(fields, true);
    SortFieldsFacts(r);
    LookupFinds(SortFields(r), MESSAGE_KEY, String(text));
    MessageKey();
    hide SortFields, Word, Lookup;
    forall i | 0 <= i < |fields|
      ensures r[i] == Field(MESSAGE_KEY, String(text)) <==> fields[i] == Field(MESSAGE_KEY, String(text))
    {
      OnlyTextBecomesText(fields[i].value, text);
    }
    if Field(MESSAGE_KEY, String(text)) in r {
      var i :| 0 <= i < |r| && r[i] == Field(MESSAGE_KEY, String(text));
    }
    if Says(fields, text) {
      var i :| 0 <= i < |fields| && fields[i] == Field(Word("message"), String(text));
      assert r[i] in r;
    }
  }

  /** No payload, or an object that can be written and whose message is the text. */
  ghost predicate Carries(payload: Option<Json>, text: JsString) {
    match payload
    case None => true
    case Some(v) => v == Null || (v.Object? && IsWritable(v, true) && Says(v.fields, text))
  }

  lemma PayloadExactly(payload: Option<Json>, text: JsString)
    requires payload.Some? ==> Proper(payload.value)
    ensures NormalPayload(payload, text).Some? <==> Carries(payload, text)
    ensures NormalPayload(payload, text).Some? ==>
              NormalPayload(payload, text)
              == if payload.Some? && payload.value.Object? then Canonical(payload.value, true)
                 else Some(Object([Field(Word("message"), String(text))]))
  {
    MessageKey();
    hide SortFields, Lookup, Word;
    if payload.Some? && payload.value.Object? {
      CanonicalExactlyWhenWritable(payload.value, true);
      if CanonicalFields(payload.value.fields, true).Some? { CanonicalSays(payload.value.fields, text); }
    } else {
      DefaultPayload(text);
    }
  }

  lemma DefaultPayload(text: JsString)
    ensures NormalPayload(None, text) == Some(Object([Field(MESSAGE_KEY, String(text))]))
  {
    var field := Field(MESSAGE_KEY, String(text));
    assert Canonical(field.value, true) == Some(field.value);
    assert [field][1..] == [] && CanonicalFields([], true) == Some([]);
    assert CanonicalFields([field], true) == Some([field] + []);
    assert SortFields([field]) == [field] by { assert [field][1..] == []; }
  }

  // ---- The request ----

  /** The text has something in it besides white space. */
  ghost predicate HasInk(s: JsString) { exists i :: 0 <= i < |s| && !IsWhite(s[i]) }

  lemma InkExactly(s: JsString)
    ensures IsBlank(s) <==> !HasInk(s)
  {
    BlankIsAllSpace(s);
    hide IsBlank, IsWhite, IsSpace;
    forall i | 0 <= i < |s| ensures IsSpace(s[i]) <==> IsWhite(s[i]) { WhiteIsSpace(s[i]); }
    if HasInk(s) {
      var i :| 0 <= i < |s| && !IsWhite(s[i]);
      assert s[i] in s;
    }
  }

  lemma WhiteIsSpace(u: CodeUnit)
    ensures IsSpace(u) <==> IsWhite(u)
  {
    SpacesAreThese(u);
  }

  /** The scope is the thread of a message, and the run of a clarification. */
  ghost predicate ScopeFits(input: RawInput) {
    match input.producerKind
    case Some(ThreadMessage) => Trim(input.scopeRef) == Trim(input.threadId)
    case Some(ClarificationResolution) => HasInk(input.runId) && Trim(input.scopeRef) == Trim(input.runId)
    case None => false
  }

  ghost predicate IsCustomer(actorId: JsString) {
    HasInk(actorId) && |Trim(actorId)| <= 256 && forall i | 0 <= i < |actorId| :: actorId[i] >= 32 && actorId[i] != 127
  }

  /** A request is accepted exactly when its producer is known, its fields are not blank, its identity is not too
    * long, its scope fits, its payload carries its text, and its actor is a customer. Then its fields are the
    * trimmed ones, and its payload the canonical one or the text alone. */
  lemma AcceptedExactlyWhenInOrder(input: RawInput)
    requires input.requestPayload.Some? ==> Proper(input.requestPayload.value)
    ensures Normalize(input).Ok?
       <==> && input.producerKind.Some? && HasInk(input.scopeRef) && HasInk(input.requestIdentity)
            && HasInk(input.threadId) && HasInk(input.text) && HasInk(input.actorId)
            && |Trim(input.requestIdentity)| <= 256 && ScopeFits(input)
            && Carries(input.requestPayload, Trim(input.text)) && IsCustomer(input.actorId)
    ensures Normalize(input).Ok? ==>
      var r := Normalize(input).value;
      && Some(r.producerKind) == input.producerKind && r.threadId == Trim(input.threadId)
      && r.requestIdentity == Trim(input.requestIdentity) && r.text == Trim(input.text)
      && r.scopeRef == Trim(input.scopeRef) && r.actorId == Trim(input.actorId)
      && r.runId == (if r.producerKind == ThreadMessage then [] else Trim(input.runId))
      && Some(r.requestPayload)
         == if input.requestPayload.Some? && input.requestPayload.value.Object?
            then Canonical(input.requestPayload.value, true)
            else Some(Object([Field(Word("message"), String(r.text))]))
  {
    hide IsBlank, Trim, HasInk, NormalPayload, Carries, Word, IsCustomer, NormalizeActorId, Canonical, Proper;
    PayloadExactly(input.requestPayload, Trim(input.text));
    InkExactly(input.scopeRef);
    InkExactly(input.requestIdentity);
    InkExactly(input.threadId);
    InkExactly(input.text);
    InkExactly(input.actorId);
    InkExactly(input.runId);
    BlankHasNoTrim(input.runId);
    CustomerExactly(input.actorId);
    NormalizeByParts(input);
    hide Normalize;
  }

  /** The tests of a request in one condition, and the fields of one that passes them. */
  lemma NormalizeByParts(input: RawInput)
    ensures Normalize(input).Ok?
       <==> && input.producerKind.Some? && !IsBlank(input.scopeRef) && !IsBlank(input.requestIdentity)
            && !IsBlank(input.threadId) && !IsBlank(input.text) && !IsBlank(input.actorId)
            && |Trim(input.requestIdentity)| <= 256
            && (input.producerKind == Some(ThreadMessage) ==> Trim(input.scopeRef) == Trim(input.threadId))
            && (input.producerKind == Some(ClarificationResolution) ==>
                  && !IsBlank(input.runId) && Trim(input.scopeRef) == Trim(input.runId) && Trim(input.runId) != [])
            && NormalPayload(input.requestPayload, Trim(input.text)).Some? && NormalizeActorId(input.actorId).Ok?
    ensures Normalize(input).Ok? ==>
      var r := Normalize(input).value;
      && Some(r.producerKind) == input.producerKind && r.threadId == Trim(input.threadId)
      && r.requestIdentity == Trim(input.requestIdentity) && r.text == Trim(input.text)
      && r.scopeRef == Trim(input.scopeRef) && r.actorId == NormalizeActorId(input.actorId).value
      && r.runId == (if r.producerKind == ThreadMessage then [] else Trim(input.runId))
      && Some(r.requestPayload) == NormalPayload(input.requestPayload, Trim(input.text))
  {
    hide IsBlank, Trim, NormalPayload, NormalizeActorId;
    if input.producerKind.Some? && IsBlank(input.runId) { BlankHasNoTrim(input.runId); }
  }

  lemma BlankHasNoTrim(s: JsString)
    ensures IsBlank(s) <==> Trim(s) == []
  {
  }

  lemma CustomerExactly(actorId: JsString)
    ensures NormalizeActorId(actorId).Ok? <==> IsCustomer(actorId)
    ensures NormalizeActorId(actorId).Ok? ==> NormalizeActorId(actorId).value == Trim(actorId)
  {
    InkExactly(actorId);
    hide IsBlank, Trim, HasInk;
  }
}
