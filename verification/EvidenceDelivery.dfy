/** The server that the gateway's emitter sees is the evidence store: the two tests of a batch are one,
    and what the server holds grows by a batch exactly when the store takes it. */
module EvidenceDelivery {
  import opened Evidence
  import opened Json
  import opened Utf8
  import opened Chain
  import opened EvidenceStore
  import Emitter

  /** An event as the emitter knows it. */
  function Sent(w: World, e: EventIn): Emitter.Event {
    Emitter.Event(e.payload.eventId, Storable(w, e))
  }

  function SentAll(w: World, batch: seq<EventIn>): (r: seq<Emitter.Event>)
    ensures |r| == |batch| && forall i :: 0 <= i < |batch| ==> r[i] == Sent(w, batch[i])
  {
    seq(|batch|, i requires 0 <= i < |batch| => Sent(w, batch[i]))
  }

  /** The event ids in the table. */
  function Held(rows: seq<Row>): set<string> {
    set i | 0 <= i < |rows| :: rows[i].payload.eventId
  }

  function IdsIn(es: seq<EventIn>): set<string> {
    set i | 0 <= i < |es| :: es[i].payload.eventId
  }

  /** The emitter's server accepts a batch exactly when the store does. */
  lemma SameAcceptance(w: World, rows: seq<Row>, batch: seq<EventIn>)
    ensures Emitter.Acceptable(Held(rows), SentAll(w, batch)) <==> Acceptable(w, rows, batch)
  {
    var sent := SentAll(w, batch);
    if Acceptable(w, rows, batch) {
      forall i | 0 <= i < |sent| ensures sent[i].storable && sent[i].id !in Held(rows) {
        assert sent[i] == Sent(w, batch[i]);
      }
    }
    if Emitter.Acceptable(Held(rows), sent) {
      forall i | 0 <= i < |batch| ensures Storable(w, batch[i]) {
        assert sent[i] == Sent(w, batch[i]);
      }
      forall i, j | 0 <= i < |batch| && 0 <= j < |rows| ensures batch[i].payload.eventId != rows[j].payload.eventId {
        assert sent[i] == Sent(w, batch[i]) && rows[j].payload.eventId in Held(rows);
      }
      forall i, j | 0 <= i < j < |batch| ensures batch[i].payload.eventId != batch[j].payload.eventId {
        assert sent[i] == Sent(w, batch[i]) && sent[j] == Sent(w, batch[j]);
      }
    }
  }

  // ---- the ids in a table, chain by chain ----

  lemma {:induction false} OfHolds<T>(s: seq<T>, keyOf: T -> Key, x: T)
    ensures x in s <==> x in Of(s, keyOf, keyOf(x))
  {
    if s != [] {
      var front, last := s[..|s| - 1], s[|s| - 1];
      OfHolds(front, keyOf, x);
      assert s == front + [last];
    }
  }

  lemma {:induction false} OfIsPart<T>(s: seq<T>, keyOf: T -> Key, key: Key, i: nat)
    requires i < |Of(s, keyOf, key)|
    ensures Of(s, keyOf, key)[i] in s && keyOf(Of(s, keyOf, key)[i]) == key
  {
    var front, last := s[..|s| - 1], s[|s| - 1];
    assert s == front + [last];
    if i < |Of(front, keyOf, key)| {
      OfIsPart(front, keyOf, key, i);
    }
  }

  ghost predicate AllChainsOk(w: World, es: seq<EventIn>, rows: seq<Row>, heads: map<Key, Head>) {
    forall key {:trigger ChainOk(w, es, rows, heads, key)} :: ChainOk(w, es, rows, heads, key)
  }

  /** Rows and accepted events have the same ids. */
  lemma HeldIsAccepted(w: World, es: seq<EventIn>, rows: seq<Row>, heads: map<Key, Head>)
    requires AllChainsOk(w, es, rows, heads)
    ensures Held(rows) == IdsIn(es)
  {
    forall id | id in Held(rows) ensures id in IdsIn(es) {
      var j :| 0 <= j < |rows| && rows[j].payload.eventId == id;
      var key := RowKey(rows[j]);
      OfHolds(rows, RowKey, rows[j]);
      var i :| 0 <= i < |Of(rows, RowKey, key)| && Of(rows, RowKey, key)[i] == rows[j];
      assert ChainOk(w, es, rows, heads, key) && IsRowAt(w, Of(es, EventKey, key), Of(rows, RowKey, key), i);
      OfIsPart(es, EventKey, key, i);
    }
    forall id | id in IdsIn(es) ensures id in Held(rows) {
      var j :| 0 <= j < |es| && es[j].payload.eventId == id;
      var key := EventKey(es[j]);
      OfHolds(es, EventKey, es[j]);
      var i :| 0 <= i < |Of(es, EventKey, key)| && Of(es, EventKey, key)[i] == es[j];
      assert ChainOk(w, es, rows, heads, key) && IsRowAt(w, Of(es, EventKey, key), Of(rows, RowKey, key), i);
      OfIsPart(rows, RowKey, key, i);
    }
  }

  /** An event was accepted before or is in the batch. */
  lemma AcceptedGrows(w: World, before: seq<EventIn>, batch: seq<EventIn>, after: seq<EventIn>)
    requires forall key ::
      Of(after, EventKey, key) == Of(before, EventKey, key) + SortByTime(w, Of(batch, EventKey, key))
    ensures IdsIn(after) == IdsIn(before) + IdsIn(batch)
  {
    forall e: EventIn ensures e in after <==> e in before || e in batch {
      var key := EventKey(e);
      OfHolds(after, EventKey, e);
      OfHolds(before, EventKey, e);
      OfHolds(batch, EventKey, e);
      SortByTimeSorts(w, Of(batch, EventKey, key), 0);
      assert Of(after, EventKey, key) == Of(before, EventKey, key) + SortByTime(w, Of(batch, EventKey, key));
      assert e in SortByTime(w, Of(batch, EventKey, key)) <==> e in multiset(SortByTime(w, Of(batch, EventKey, key)));
      assert e in Of(batch, EventKey, key) <==> e in multiset(Of(batch, EventKey, key));
    }
    SameIds(after, before + batch);
    assert IdsIn(before + batch) == IdsIn(before) + IdsIn(batch) by {
      IdsOfConcat(before, batch);
    }
  }

  lemma SameIds(a: seq<EventIn>, b: seq<EventIn>)
    requires forall e :: e in a <==> e in b
    ensures IdsIn(a) == IdsIn(b)
  {
    forall id | id in IdsIn(a) ensures id in IdsIn(b) {
      var i :| 0 <= i < |a| && a[i].payload.eventId == id;
      assert a[i] in b;
    }
    forall id | id in IdsIn(b) ensures id in IdsIn(a) {
      var i :| 0 <= i < |b| && b[i].payload.eventId == id;
      assert b[i] in a;
    }
  }

  lemma IdsOfConcat(a: seq<EventIn>, b: seq<EventIn>)
    ensures IdsIn(a + b) == IdsIn(a) + IdsIn(b)
  {
    forall id | id in IdsIn(a) + IdsIn(b) ensures id in IdsIn(a + b) {
      if i :| 0 <= i < |a| && a[i].payload.eventId == id {
        assert (a + b)[i] == a[i];
      } else {
        var j :| 0 <= j < |b| && b[j].payload.eventId == id;
        assert (a + b)[|a| + j] == b[j];
      }
    }
  }

  // ---- what the store keeps of an event ----

  /** A row in mode "none" has no spans, and otherwise every row has the payload of an accepted event. */
  lemma StoredPayload(w: World, es: seq<EventIn>, rows: seq<Row>, heads: map<Key, Head>, j: nat) returns (i: nat)
    requires AllChainsOk(w, es, rows, heads) && j < |rows|
    ensures i < |es| && es[i].key == rows[j].key
    ensures rows[j].payload.(spans := Null) == es[i].payload.(spans := Null)
    ensures rows[j].payload.spans == if rows[j].payload.evidenceMode == "none" then Null else es[i].payload.spans
    ensures rows[j].isShadow == es[i].isShadow && w.parse(es[i].ts) == Some(rows[j].ts)
  {
    var key := RowKey(rows[j]);
    OfHolds(rows, RowKey, rows[j]);
    var k :| 0 <= k < |Of(rows, RowKey, key)| && Of(rows, RowKey, key)[k] == rows[j];
    assert ChainOk(w, es, rows, heads, key) && IsRowAt(w, Of(es, EventKey, key), Of(rows, RowKey, key), k);
    OfIsPart(es, EventKey, key, k);
    i :| 0 <= i < |es| && es[i] == Of(es, EventKey, key)[k];
  }

  /** A post as the store serves it is the server's step in the emitter's model. */
  method Deliver(store: Store, batch: seq<EventIn>) returns (ok: bool)
    requires store.Valid() && forall i :: 0 <= i < |batch| ==> Typed(batch[i])
    modifies store
    ensures store.Valid()
    ensures ok == Emitter.Acceptable(Held(old(store.rows)), SentAll(store.w, batch))
    ensures Held(store.rows) == Held(old(store.rows)) + if ok then Emitter.Ids(SentAll(store.w, batch)) else {}
  {
    ghost var before, was := store.accepted, store.rows;
    SameAcceptance(store.w, store.rows, batch);
    HeldIsAccepted(store.w, store.accepted, store.rows, store.heads);
    ok := store.Ingest(batch);
    if ok {
      HeldIsAccepted(store.w, store.accepted, store.rows, store.heads);
      AcceptedGrows(store.w, before, batch, store.accepted);
      assert Emitter.Ids(SentAll(store.w, batch)) == IdsIn(batch);
    }
  }
}
