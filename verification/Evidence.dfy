/** Evidence events, the 21 fields their hash covers, and what equal hashes mean. */
module Evidence {
  import opened Ascii
  import opened Folding
  import opened Utf8
  import opened Json
  import opened CanonicalText
  import opened CanonicalRoundTrip

  datatype Payload = Payload(
    eventId: string, env: string, requestId: string, policy: string, bundleSeq: int,
    guardId: Option<string>, scenario: Option<string>, detector: Option<string>, direction: Option<string>,
    verdict: string, score: Option<Number>, actionTaken: Option<string>, latencyMs: Option<int>,
    evidenceMode: string, spans: Json, textHash: Option<string>)

  type Key = (string, string)   // tenant and app

  /** An event as it arrives; the timestamp is still a string. */
  datatype EventIn = EventIn(key: Key, ts: string, payload: Payload, isShadow: bool)

  /** A stored row; the timestamp column holds an instant. */
  datatype Row = Row(key: Key, chainSeq: int, ts: int, prev: Option<string>, eventHash: string,
    isShadow: bool, payload: Payload)

  /** The calls that are not modelled: the digest, and parsing and rendering of timestamps. */
  datatype World = World(digest: Bytes -> string, parse: string -> Option<int>, render: int -> string)

  function OptStr(o: Option<string>): Json {
    if o.None? then Null else Str(o.value)
  }

  function OptNum(o: Option<Number>): Json {
    if o.None? then Null else Num(o.value)
  }

  function OptInt(o: Option<int>): Json {
    if o.None? then Null else Num(Int(o.value))
  }

  const CHAIN_FIELDS := [
    "event_id", "ts", "tenant", "app", "env", "chain_seq", "request_id", "policy", "bundle_seq", "guard_id",
    "scenario", "detector", "direction", "verdict", "score", "action_taken", "latency_ms", "evidence_mode",
    "spans", "text_hash", "prev_event_hash"]

  /** What the hash of an event covers. */
  datatype Covered = Covered(key: Key, chainSeq: int, ts: string, prev: Option<string>, payload: Payload)

  function FieldValues(c: Covered): (vs: seq<Json>)
    ensures |vs| == 21
  {
    var p := c.payload;
    [Str(p.eventId), Str(c.ts), Str(c.key.0), Str(c.key.1), Str(p.env), Num(Int(c.chainSeq)), Str(p.requestId),
     Str(p.policy), Num(Int(p.bundleSeq)), OptStr(p.guardId), OptStr(p.scenario), OptStr(p.detector),
     OptStr(p.direction), Str(p.verdict), OptNum(p.score), OptStr(p.actionTaken), OptInt(p.latencyMs),
     Str(p.evidenceMode), p.spans, OptStr(p.textHash), OptStr(c.prev)]
  }

  /** The subset of an event that is hashed, as a document. */
  function Subset(vs: seq<Json>): (v: Json)
    requires |vs| == 21
    ensures v.Obj? && |v.members| == 21
    ensures forall i :: 0 <= i < 21 ==> v.members[i] == Member(CHAIN_FIELDS[i], vs[i])
  {
    Obj(seq(21, i requires 0 <= i < 21 => Member(CHAIN_FIELDS[i], vs[i])))
  }

  /** Each hashed field under its name, and nothing else. */
  lemma HashedFields(c: Covered)
    ensures var ms, p := Subset(FieldValues(c)).members, c.payload;
      && |ms| == 21
      && Find(ms, "tenant") == Some(Str(c.key.0)) && Find(ms, "app") == Some(Str(c.key.1))
      && Find(ms, "env") == Some(Str(p.env)) && Find(ms, "event_id") == Some(Str(p.eventId))
      && Find(ms, "ts") == Some(Str(c.ts)) && Find(ms, "chain_seq") == Some(Num(Int(c.chainSeq)))
      && Find(ms, "prev_event_hash") == Some(OptStr(c.prev)) && Find(ms, "request_id") == Some(Str(p.requestId))
      && Find(ms, "policy") == Some(Str(p.policy)) && Find(ms, "bundle_seq") == Some(Num(Int(p.bundleSeq)))
      && Find(ms, "guard_id") == Some(OptStr(p.guardId)) && Find(ms, "scenario") == Some(OptStr(p.scenario))
      && Find(ms, "detector") == Some(OptStr(p.detector)) && Find(ms, "direction") == Some(OptStr(p.direction))
      && Find(ms, "verdict") == Some(Str(p.verdict)) && Find(ms, "score") == Some(OptNum(p.score))
      && Find(ms, "action_taken") == Some(OptStr(p.actionTaken))
      && Find(ms, "latency_ms") == Some(OptInt(p.latencyMs))
      && Find(ms, "evidence_mode") == Some(Str(p.evidenceMode)) && Find(ms, "spans") == Some(p.spans)
      && Find(ms, "text_hash") == Some(OptStr(p.textHash))
  {
    var ms := Subset(FieldValues(c)).members;
    FieldsAreDistinct();
    forall i | 0 <= i < 21 ensures Find(ms, CHAIN_FIELDS[i]) == Some(FieldValues(c)[i]) {
      FindAt(ms, i);
    }
    NamesInOrder();
  }

  lemma NamesInOrder()
    ensures CHAIN_FIELDS[0] == "event_id" && CHAIN_FIELDS[1] == "ts" && CHAIN_FIELDS[2] == "tenant"
    ensures CHAIN_FIELDS[3] == "app" && CHAIN_FIELDS[4] == "env" && CHAIN_FIELDS[5] == "chain_seq"
    ensures CHAIN_FIELDS[6] == "request_id" && CHAIN_FIELDS[7] == "policy" && CHAIN_FIELDS[8] == "bundle_seq"
    ensures CHAIN_FIELDS[9] == "guard_id" && CHAIN_FIELDS[10] == "scenario" && CHAIN_FIELDS[11] == "detector"
    ensures CHAIN_FIELDS[12] == "direction" && CHAIN_FIELDS[13] == "verdict" && CHAIN_FIELDS[14] == "score"
    ensures CHAIN_FIELDS[15] == "action_taken" && CHAIN_FIELDS[16] == "latency_ms"
    ensures CHAIN_FIELDS[17] == "evidence_mode" && CHAIN_FIELDS[18] == "spans"
    ensures CHAIN_FIELDS[19] == "text_hash" && CHAIN_FIELDS[20] == "prev_event_hash"
  {
  }

  /** What the source's types and its canonical encoder demand of a payload. */
  predicate Encodable(p: Payload) {
    && (p.score.Some? ==> WellFormed(Num(p.score.value)) && Finite(Num(p.score.value)))
    && WellFormed(p.spans) && Finite(p.spans)
  }

  lemma FieldsAreDistinct()
    ensures forall i, j :: 0 <= i < j < 21 ==> CHAIN_FIELDS[i] != CHAIN_FIELDS[j]
  {
  }

  /** The bytes an event's hash is taken over; None when a number is NaN or infinite. */
  function EventBytes(c: Covered): Option<Bytes> {
    CanonicalJson(Subset(FieldValues(c)))
  }

  /** compute_event_hash. */
  function EventHash(w: World, c: Covered): Option<string> {
    var b := EventBytes(c);
    if b.None? then None else Some(w.digest(b.value))
  }

  /** Equal up to the order of members inside spans and the writing of integral floats. */
  ghost predicate SamePayload(p: Payload, q: Payload) {
    && p.(score := None, spans := Null) == q.(score := None, spans := Null)
    && Same(OptNum(p.score), OptNum(q.score))
    && Same(p.spans, q.spans)
  }

  ghost predicate SameCovered(c: Covered, d: Covered) {
    c.(payload := d.payload) == d && SamePayload(c.payload, d.payload)
  }

  lemma FieldsAreFine(c: Covered)
    requires Encodable(c.payload)
    ensures WellFormed(Subset(FieldValues(c)))
    ensures Finite(Subset(FieldValues(c)))
  {
    var vs := FieldValues(c);
    FieldsAreDistinct();
    forall i | 0 <= i < 21 ensures WellFormed(vs[i]) && Finite(vs[i]) {
    }
  }

  lemma SameAt(vs: seq<Json>, ws: seq<Json>, i: nat)
    requires |vs| == 21 && |ws| == 21 && i < 21 && Same(Subset(vs), Subset(ws))
    ensures Same(vs[i], ws[i])
  {
    FieldsAreDistinct();
    FindAt(Subset(ws).members, i);
    assert Subset(vs).members[i] == Member(CHAIN_FIELDS[i], vs[i]);
    assert Subset(ws).members[i] == Member(CHAIN_FIELDS[i], ws[i]);
  }

  ghost predicate FieldsSame(c: Covered, d: Covered) {
    forall i :: 0 <= i < 21 ==> Same(FieldValues(c)[i], FieldValues(d)[i])
  }

  /** The bytes are equal exactly when every field is. */
  lemma BytesDecideFields(c: Covered, d: Covered)
    requires Encodable(c.payload) && Encodable(d.payload)
    ensures EventBytes(c) == EventBytes(d) <==> FieldsSame(c, d)
  {
    var vs, ws := FieldValues(c), FieldValues(d);
    FieldsAreFine(c);
    FieldsAreFine(d);
    BytesDecide(Subset(vs), Subset(ws));
    if Same(Subset(vs), Subset(ws)) {
      forall i | 0 <= i < 21 ensures Same(vs[i], ws[i]) {
        SameAt(vs, ws, i);
      }
    }
    if FieldsSame(c, d) {
      SubsetsSame(vs, ws);
    }
  }

  lemma SubsetsSame(vs: seq<Json>, ws: seq<Json>)
    requires |vs| == 21 && |ws| == 21 && forall i :: 0 <= i < 21 ==> Same(vs[i], ws[i])
    ensures Same(Subset(vs), Subset(ws))
  {
    var ms, ns := Subset(vs).members, Subset(ws).members;
    FieldsAreDistinct();
    forall i | 0 <= i < |ms| ensures Find(ns, ms[i].key) == Some(ws[i]) && Find(ms, ns[i].key) == Some(vs[i]) {
      FindAt(ms, i);
      FindAt(ns, i);
    }
  }

  lemma EnvelopeFixed(c: Covered, d: Covered)
    requires FieldsSame(c, d)
    ensures c.(payload := d.payload) == d
  {
    var vs, ws := FieldValues(c), FieldValues(d);
    assert Same(vs[1], ws[1]) && Same(vs[2], ws[2]) && Same(vs[3], ws[3]) && Same(vs[5], ws[5]) && Same(vs[20], ws[20]);
  }

  lemma NamesFixed(c: Covered, d: Covered)
    requires FieldsSame(c, d)
    ensures var p, q := c.payload, d.payload;
      && p.eventId == q.eventId && p.env == q.env && p.requestId == q.requestId && p.policy == q.policy
      && p.bundleSeq == q.bundleSeq && p.verdict == q.verdict && p.evidenceMode == q.evidenceMode
  {
    var vs, ws := FieldValues(c), FieldValues(d);
    assert Same(vs[0], ws[0]) && Same(vs[4], ws[4]) && Same(vs[6], ws[6]) && Same(vs[7], ws[7]);
    assert Same(vs[8], ws[8]) && Same(vs[13], ws[13]) && Same(vs[17], ws[17]);
  }

  lemma OptionsFixed(c: Covered, d: Covered)
    requires FieldsSame(c, d)
    ensures var p, q := c.payload, d.payload;
      && p.guardId == q.guardId && p.scenario == q.scenario && p.detector == q.detector
      && p.direction == q.direction && p.actionTaken == q.actionTaken
      && p.latencyMs == q.latencyMs && p.textHash == q.textHash
      && Same(OptNum(p.score), OptNum(q.score)) && Same(p.spans, q.spans)
  {
    var vs, ws := FieldValues(c), FieldValues(d);
    assert Same(vs[9], ws[9]) && Same(vs[10], ws[10]) && Same(vs[11], ws[11]) && Same(vs[12], ws[12]);
    assert Same(vs[14], ws[14]) && Same(vs[15], ws[15]) && Same(vs[16], ws[16]);
    assert Same(vs[18], ws[18]) && Same(vs[19], ws[19]);
  }

  lemma FieldsFromCovered(c: Covered, d: Covered)
    requires SameCovered(c, d)
    ensures FieldsSame(c, d)
  {
    var vs, ws := FieldValues(c), FieldValues(d);
    forall i | 0 <= i < 21 ensures Same(vs[i], ws[i]) {
      assert i == 14 || i == 18 || (vs[i] == ws[i] && !vs[i].Arr? && !vs[i].Obj?);
    }
  }

  /** Two events hash the same bytes exactly when all 21 fields are equal. */
  lemma BytesFixFields(c: Covered, d: Covered)
    requires Encodable(c.payload) && Encodable(d.payload)
    ensures EventBytes(c) == EventBytes(d) <==> SameCovered(c, d)
  {
    BytesDecideFields(c, d);
    if FieldsSame(c, d) {
      EnvelopeFixed(c, d);
      NamesFixed(c, d);
      OptionsFixed(c, d);
    }
    if SameCovered(c, d) {
      FieldsFromCovered(c, d);
    }
  }

  lemma SameCoveredSymmetric(c: Covered, d: Covered)
    requires Encodable(c.payload) && Encodable(d.payload) && SameCovered(c, d)
    ensures SameCovered(d, c)
  {
    BytesFixFields(c, d);
    BytesFixFields(d, c);
  }

  // ---- hashes ----

  /** Two byte strings with one digest. */
  ghost predicate Collision(w: World, x: Bytes, y: Bytes) {
    x != y && w.digest(x) == w.digest(y)
  }

  /** h is the hash of these fields. What that means is seen only by proofs that mention Unfold(c). */
  ghost predicate HashIs(w: World, c: Covered, h: string) {
    forall d {:trigger Unfold(d)} :: d == c && Unfold(d) ==> EventHash(w, d) == Some(h)
  }

  lemma HashIsEventHash(w: World, c: Covered, h: string)
    ensures HashIs(w, c, h) <==> EventHash(w, c) == Some(h)
  {
    assert Unfold(c);
  }

  /** Equal fields have equal hashes; fields that differ and have equal hashes are a collision. */
  lemma SameHash(w: World, c: Covered, d: Covered, h: string) returns (x: Bytes, y: Bytes)
    requires Encodable(c.payload) && Encodable(d.payload) && HashIs(w, c, h)
    ensures SameCovered(c, d) ==> HashIs(w, d, h)
    ensures HashIs(w, d, h) ==> SameCovered(c, d) || Collision(w, x, y)
  {
    HashIsEventHash(w, c, h);
    HashIsEventHash(w, d, h);
    BytesFixFields(c, d);
    x, y := EventBytes(c).value, if EventBytes(d).Some? then EventBytes(d).value else [];
  }
}
