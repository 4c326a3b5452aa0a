/** The per-(tenant, app) hash chain: what a genuine chain is, what verification accepts, and what an
    anchor pins down. */
module Chain {
  import opened Ascii
  import opened Utf8
  import opened Json
  import opened Evidence

  /** minimize_event: spans are dropped in mode "none". */
  function Minimized(p: Payload): Payload {
    if p.evidenceMode == "none" then p.(spans := Null) else p
  }

  function Prev(rows: seq<Row>, i: nat): Option<string>
    requires i <= |rows|
  {
    if i == 0 then None else Some(rows[i - 1].eventHash)
  }

  /** The fields a verifier hashes: the timestamp is rendered from the stored instant. */
  function RowFields(w: World, r: Row): Covered {
    Covered(r.key, r.chainSeq, w.render(r.ts), r.prev, r.payload)
  }

  /** The fields ingestion hashed: the timestamp is the incoming string. */
  function EventFields(e: EventIn, chainSeq: int, prev: Option<string>): Covered {
    Covered(e.key, chainSeq, e.ts, prev, Minimized(e.payload))
  }

  /** Row r is what ingestion stores for event e at position i of its chain. */
  ghost predicate IsRow(w: World, e: EventIn, i: nat, prev: Option<string>, r: Row) {
    && r.key == e.key && r.chainSeq == i + 1 && r.prev == prev && r.isShadow == e.isShadow
    && w.parse(e.ts) == Some(r.ts) && r.payload == Minimized(e.payload)
    && HashIs(w, EventFields(e, i + 1, prev), r.eventHash)
    && Encodable(r.payload)
  }

  ghost predicate IsRowAt(w: World, es: seq<EventIn>, rows: seq<Row>, i: nat)
    requires i < |es| && i < |rows|
  {
    IsRow(w, es[i], i, Prev(rows, i), rows[i])
  }

  /** These rows are the genuine chain of these events. */
  ghost predicate Chained(w: World, es: seq<EventIn>, rows: seq<Row>) {
    |rows| == |es| && forall i {:trigger IsRowAt(w, es, rows, i)} :: 0 <= i < |es| ==> IsRowAt(w, es, rows, i)
  }

  /** Position i of a stored log passes the three checks of verification. */
  ghost predicate GoodAt(w: World, rows: seq<Row>, i: nat)
    requires i < |rows|
  {
    && rows[i].chainSeq == i + 1
    && rows[i].prev == Prev(rows, i)
    && HashIs(w, RowFields(w, rows[i]), rows[i].eventHash)
  }

  ghost predicate GoodTo(w: World, rows: seq<Row>, n: nat) {
    n <= |rows| && forall i {:trigger GoodAt(w, rows, i)} :: 0 <= i < n ==> GoodAt(w, rows, i)
  }

  /** The incoming string is how the stored instant is rendered again. */
  predicate Fixed(w: World, e: EventIn) {
    w.parse(e.ts).Some? && w.render(w.parse(e.ts).value) == e.ts
  }

  /** The events determine the chain. */
  lemma {:induction false} ChainIsDetermined(w: World, es: seq<EventIn>, a: seq<Row>, b: seq<Row>, n: nat)
    requires Chained(w, es, a) && Chained(w, es, b) && n <= |es|
    ensures a[..n] == b[..n]
  {
    if n > 0 {
      ChainIsDetermined(w, es, a, b, n - 1);
      assert IsRowAt(w, es, a, n - 1) && IsRowAt(w, es, b, n - 1);
      var c := EventFields(es[n - 1], n, Prev(a, n - 1));
      HashIsEventHash(w, c, a[n - 1].eventHash);
      HashIsEventHash(w, c, b[n - 1].eventHash);
      assert n > 1 ==> a[n - 2] == a[..n - 1][n - 2] && b[n - 2] == b[..n - 1][n - 2];
      assert a[..n] == a[..n - 1] + [a[n - 1]] && b[..n] == b[..n - 1] + [b[n - 1]];
    }
  }

  /** A genuine chain of an initial part of the events is the initial part of the chain. */
  lemma ChainPrefix(w: World, es: seq<EventIn>, rows: seq<Row>, n: nat)
    requires Chained(w, es, rows) && n <= |es|
    ensures Chained(w, es[..n], rows[..n])
  {
    forall i | 0 <= i < n ensures IsRowAt(w, es[..n], rows[..n], i) {
      assert IsRowAt(w, es, rows, i);
    }
  }

  lemma ChainExtends(w: World, es: seq<EventIn>, rows: seq<Row>, e: EventIn, r: Row)
    requires Chained(w, es, rows) && IsRow(w, e, |rows|, Prev(rows, |rows|), r)
    ensures Chained(w, es + [e], rows + [r])
  {
    var fs, ss := es + [e], rows + [r];
    forall i | 0 <= i < |fs| ensures IsRowAt(w, fs, ss, i) {
      if i < |es| {
        assert IsRowAt(w, es, rows, i);
      }
    }
  }

  /** A genuine chain passes at a position whenever the event's timestamp string is what its instant
      renders to. When it passes and the string is another, the digest has a collision. */
  lemma GenuineAt(w: World, es: seq<EventIn>, rows: seq<Row>, i: nat) returns (x: Bytes, y: Bytes)
    requires Chained(w, es, rows) && i < |es|
    ensures Fixed(w, es[i]) ==> GoodAt(w, rows, i)
    ensures GoodAt(w, rows, i) ==> Fixed(w, es[i]) || Collision(w, x, y)
  {
    assert IsRowAt(w, es, rows, i);
    x, y := SameHash(w, EventFields(es[i], i + 1, Prev(rows, i)), RowFields(w, rows[i]), rows[i].eventHash);
  }

  ghost predicate CollisionFree(w: World) {
    forall x, y :: w.digest(x) == w.digest(y) ==> x == y
  }

  /** A genuine chain verifies when every timestamp string is what its own instant renders to, and,
      under a digest without collisions, only then. */
  lemma GenuineChainVerifies(w: World, es: seq<EventIn>, rows: seq<Row>)
    requires Chained(w, es, rows)
    ensures (forall i :: 0 <= i < |es| ==> Fixed(w, es[i])) ==> GoodTo(w, rows, |rows|)
    ensures CollisionFree(w) && GoodTo(w, rows, |rows|) ==> forall i :: 0 <= i < |es| ==> Fixed(w, es[i])
  {
    forall i | 0 <= i < |es|
      ensures Fixed(w, es[i]) ==> GoodAt(w, rows, i)
      ensures CollisionFree(w) && GoodAt(w, rows, i) ==> Fixed(w, es[i])
    {
      var x, y := GenuineAt(w, es, rows, i);
    }
    if GoodTo(w, rows, |rows|) && CollisionFree(w) {
      forall i | 0 <= i < |es| ensures Fixed(w, es[i]) {
        assert GoodAt(w, rows, i);
      }
    }
  }

  // ---- what an anchor pins down ----

  /** The row presented at position i carries the fields of the genuine event there. */
  ghost predicate Agrees(w: World, es: seq<EventIn>, rows: seq<Row>, log: seq<Row>, i: nat)
    requires i < |es| && i < |rows| && i < |log|
  {
    && log[i].eventHash == rows[i].eventHash
    && SameCovered(RowFields(w, log[i]), EventFields(es[i], i + 1, Prev(rows, i)))
  }

  /** Tamper evidence. A log is presented that passes verification up to an anchored position and
      carries the anchored hash there. Then its rows up to that position are the genuine rows in all
      21 fields, or else two byte strings with one digest are at hand. */
  lemma {:induction false} AnchoredPrefixIsGenuine(w: World, es: seq<EventIn>, rows: seq<Row>, log: seq<Row>, end: nat)
    returns (x: Bytes, y: Bytes)
    requires Chained(w, es, rows) && 0 < end <= |rows|
    requires GoodTo(w, log, end) && forall i :: 0 <= i < |log| ==> Encodable(log[i].payload)
    requires log[end - 1].eventHash == rows[end - 1].eventHash
    ensures Collision(w, x, y) || forall i :: 0 <= i < end ==> Agrees(w, es, rows, log, i)
  {
    var i := end - 1;
    assert IsRowAt(w, es, rows, i) && GoodAt(w, log, i);
    x, y := SameHash(w, RowFields(w, log[i]), EventFields(es[i], end, Prev(rows, i)), rows[i].eventHash);
    if !Collision(w, x, y) && i > 0 {
      assert log[i].prev == Prev(rows, i);
      x, y := AnchoredPrefixIsGenuine(w, es, rows, log, i);
    }
  }

  // ---- what verification does not notice ----

  /** Rows with the same hash and the same 21 fields. */
  ghost predicate SameSeen(w: World, a: Row, b: Row) {
    && Encodable(a.payload) && Encodable(b.payload)
    && a.eventHash == b.eventHash
    && SameCovered(RowFields(w, a), RowFields(w, b))
  }

  lemma SamePass(w: World, a: seq<Row>, b: seq<Row>, i: nat)
    requires |a| == |b| && forall i :: 0 <= i < |a| ==> SameSeen(w, a[i], b[i])
    requires i < |a|
    ensures GoodAt(w, a, i) <==> GoodAt(w, b, i)
  {
    var c, d := RowFields(w, a[i]), RowFields(w, b[i]);
    assert SameSeen(w, a[i], b[i]) && (i > 0 ==> SameSeen(w, a[i - 1], b[i - 1]));
    SameCoveredSymmetric(c, d);
    if HashIs(w, c, a[i].eventHash) {
      var x, y := SameHash(w, c, d, a[i].eventHash);
    }
    if HashIs(w, d, a[i].eventHash) {
      var x, y := SameHash(w, d, c, a[i].eventHash);
    }
  }

  /** Verification sees a row only through its hash and the 21 fields: any other change, and
      is_shadow is one, leaves the verdict as it is. */
  lemma UncoveredEditsPass(w: World, a: seq<Row>, b: seq<Row>, n: nat)
    requires |a| == |b| && forall i :: 0 <= i < |a| ==> SameSeen(w, a[i], b[i])
    ensures GoodTo(w, a, n) <==> GoodTo(w, b, n)
  {
    forall i | 0 <= i < |a| ensures GoodAt(w, a, i) <==> GoodAt(w, b, i) {
      SamePass(w, a, b, i);
    }
    if GoodTo(w, a, n) {
      forall i | 0 <= i < n ensures GoodAt(w, b, i) {
        assert GoodAt(w, a, i);
      }
    }
    if GoodTo(w, b, n) {
      forall i | 0 <= i < n ensures GoodAt(w, a, i) {
        assert GoodAt(w, b, i);
      }
    }
  }

  /** In particular the shadow flag of every row can be flipped, though the flag differs. */
  lemma ShadowFlagIsNotCovered(w: World, rows: seq<Row>, k: nat) returns (edited: seq<Row>)
    requires GoodTo(w, rows, |rows|) && k < |rows|
    ensures edited != rows && |edited| == |rows| && edited[k] == rows[k].(isShadow := !rows[k].isShadow)
    ensures forall i :: 0 <= i < |rows| && i != k ==> edited[i] == rows[i]
    ensures GoodTo(w, edited, |edited|)
  {
    edited := rows[k := rows[k].(isShadow := !rows[k].isShadow)];
    forall i | 0 <= i < |rows| ensures GoodAt(w, edited, i) {
      assert GoodAt(w, rows, i);
    }
    assert edited[k].isShadow != rows[k].isShadow;
  }

  /** Rows after the last anchor can be cut off and replaced: whatever genuine-looking events follow,
      the log verifies and still carries every anchored hash. */
  lemma SuffixIsReplaceable(w: World, es: seq<EventIn>, rows: seq<Row>, other: seq<EventIn>, forged: seq<Row>, end: nat)
    requires Chained(w, es, rows) && end <= |es|
    requires Chained(w, es[..end] + other, forged)
    requires forall i :: 0 <= i < end ==> Fixed(w, es[i])
    requires forall i :: 0 <= i < |other| ==> Fixed(w, other[i])
    ensures GoodTo(w, forged, |forged|) && forged[..end] == rows[..end]
  {
    var fs := es[..end] + other;
    assert fs[..end] == es[..end];
    forall i | 0 <= i < |fs| ensures GoodAt(w, forged, i) {
      assert fs[i] == if i < end then es[i] else other[i - end];
      var x, y := GenuineAt(w, fs, forged, i);
    }
    ChainPrefix(w, es, rows, end);
    ChainPrefix(w, fs, forged, end);
    ChainIsDetermined(w, es[..end], rows[..end], forged[..end], end);
    assert rows[..end][..end] == rows[..end] && forged[..end][..end] == forged[..end];
  }
}
