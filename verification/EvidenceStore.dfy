/** Ingestion of event batches, the anchoring of chain heads, and the two chain verifiers. */
module EvidenceStore {
  import opened Ascii
  import opened Utf8
  import opened Json
  import opened Evidence
  import opened Chain

  datatype Head = Head(chainSeq: int, eventHash: Option<string>)

  datatype Anchor = Anchor(key: Key, start: int, end: int, headHash: string)

  datatype AnchorResult = Signed(anchor: Anchor) | NoEvents | NotAdvanced

  datatype Reason = SeqGap | PrevMismatch | HashMismatch

  /** Raised stands for the ValueError on a number that is NaN or infinite. */
  datatype Report = Report(checked: nat, ok: bool, firstBad: Option<(int, Reason)>) | Raised

  // ---- per-chain views of a table ----

  function EventKey(e: EventIn): Key { e.key }

  function RowKey(r: Row): Key { r.key }

  function AnchorKey(a: Anchor): Key { a.key }

  /** The entries of one chain, in table order. */
  function Of<T>(s: seq<T>, keyOf: T -> Key, key: Key): seq<T> {
    if s == [] then [] else
      var x := s[|s| - 1];
      Of(s[..|s| - 1], keyOf, key) + if keyOf(x) == key then [x] else []
  }

  lemma OfSnoc<T>(s: seq<T>, x: T, keyOf: T -> Key, key: Key)
    ensures Of(s + [x], keyOf, key) == Of(s, keyOf, key) + if keyOf(x) == key then [x] else []
  {
    assert (s + [x])[..|s|] == s;
  }

  lemma {:induction false} OfConcat<T>(s: seq<T>, t: seq<T>, keyOf: T -> Key, key: Key)
    ensures Of(s + t, keyOf, key) == Of(s, keyOf, key) + Of(t, keyOf, key)
  {
    if t == [] {
      assert s + t == s;
    } else {
      var u := t[..|t| - 1];
      assert s + t == (s + u) + [t[|t| - 1]];
      OfConcat(s, u, keyOf, key);
      OfSnoc(s + u, t[|t| - 1], keyOf, key);
    }
  }

  lemma {:induction false} OfUniform<T>(s: seq<T>, keyOf: T -> Key, key: Key, own: Key)
    requires forall i :: 0 <= i < |s| ==> keyOf(s[i]) == own
    ensures Of(s, keyOf, key) == if key == own then s else []
  {
    if s != [] {
      OfUniform(s[..|s| - 1], keyOf, key, own);
      assert s == s[..|s| - 1] + [s[|s| - 1]];
    }
  }

  lemma {:induction false} OfHasKey<T>(s: seq<T>, keyOf: T -> Key, key: Key)
    ensures forall x :: x in Of(s, keyOf, key) <==> x in s && keyOf(x) == key
  {
    if s != [] {
      OfHasKey(s[..|s| - 1], keyOf, key);
      assert s == s[..|s| - 1] + [s[|s| - 1]];
    }
  }

  // ---- sorting one bucket by time ----

  function Instant(w: World, e: EventIn): int {
    if w.parse(e.ts).Some? then w.parse(e.ts).value else 0
  }

  /** Stable: an event goes after those that are not later. */
  function InsertByTime(w: World, s: seq<EventIn>, e: EventIn): seq<EventIn> {
    if s == [] || Instant(w, s[|s| - 1]) <= Instant(w, e) then s + [e]
    else InsertByTime(w, s[..|s| - 1], e) + [s[|s| - 1]]
  }

  function SortByTime(w: World, s: seq<EventIn>): seq<EventIn> {
    if s == [] then [] else InsertByTime(w, SortByTime(w, s[..|s| - 1]), s[|s| - 1])
  }

  predicate InOrder(w: World, s: seq<EventIn>) {
    forall i, j :: 0 <= i < j < |s| ==> Instant(w, s[i]) <= Instant(w, s[j])
  }

  /** The events of one instant, in order. */
  function At(w: World, s: seq<EventIn>, t: int): seq<EventIn> {
    if s == [] then [] else
      At(w, s[..|s| - 1], t) + if Instant(w, s[|s| - 1]) == t then [s[|s| - 1]] else []
  }

  lemma AtSnoc(w: World, s: seq<EventIn>, e: EventIn, t: int)
    ensures At(w, s + [e], t) == At(w, s, t) + if Instant(w, e) == t then [e] else []
  {
    assert (s + [e])[..|s|] == s;
  }

  lemma {:induction false} InsertByTimePermutes(w: World, s: seq<EventIn>, e: EventIn)
    ensures multiset(InsertByTime(w, s, e)) == multiset(s) + multiset{e}
  {
    if s != [] {
      InsertByTimePermutes(w, s[..|s| - 1], e);
      assert s == s[..|s| - 1] + [s[|s| - 1]];
    }
  }

  lemma {:induction false} InsertByTimeInOrder(w: World, s: seq<EventIn>, e: EventIn)
    requires InOrder(w, s)
    ensures InOrder(w, InsertByTime(w, s, e))
    ensures forall i :: 0 <= i < |InsertByTime(w, s, e)| ==>
      InsertByTime(w, s, e)[i] in s || InsertByTime(w, s, e)[i] == e
  {
    if s != [] && Instant(w, s[|s| - 1]) > Instant(w, e) {
      InsertByTimeInOrder(w, s[..|s| - 1], e);
    }
  }

  lemma {:induction false} InsertByTimeIsStable(w: World, s: seq<EventIn>, e: EventIn, t: int)
    ensures At(w, InsertByTime(w, s, e), t) == At(w, s, t) + if Instant(w, e) == t then [e] else []
  {
    if s == [] || Instant(w, s[|s| - 1]) <= Instant(w, e) {
      AtSnoc(w, s, e, t);
    } else {
      InsertByTimeIsStable(w, s[..|s| - 1], e, t);
      AtSnoc(w, InsertByTime(w, s[..|s| - 1], e), s[|s| - 1], t);
    }
  }

  /** Earlier events come first. */
  lemma EarlierFirst(w: World, s: seq<EventIn>, i: nat, j: nat)
    requires i < j < |SortByTime(w, s)|
    requires w.parse(SortByTime(w, s)[i].ts).Some? && w.parse(SortByTime(w, s)[j].ts).Some?
    ensures w.parse(SortByTime(w, s)[i].ts).value <= w.parse(SortByTime(w, s)[j].ts).value
  {
    SortByTimeSorts(w, s, 0);
  }

  /** The sort is a permutation into time order that keeps the order of events of one instant. */
  lemma {:induction false} SortByTimeSorts(w: World, s: seq<EventIn>, t: int)
    ensures InOrder(w, SortByTime(w, s))
    ensures multiset(SortByTime(w, s)) == multiset(s)
    ensures At(w, SortByTime(w, s), t) == At(w, s, t)
  {
    if s != [] {
      var front, last := s[..|s| - 1], s[|s| - 1];
      SortByTimeSorts(w, front, t);
      InsertByTimePermutes(w, SortByTime(w, front), last);
      InsertByTimeInOrder(w, SortByTime(w, front), last);
      InsertByTimeIsStable(w, SortByTime(w, front), last, t);
      assert multiset(s) == multiset(front) + multiset{last} by {
        assert s == front + [last];
      }
    }
  }

  // ---- what a batch must satisfy ----

  /** What the request schema already guarantees of an event. */
  predicate Typed(e: EventIn) {
    WellFormed(e.payload.spans) && (e.payload.score.Some? ==> WellFormed(Num(e.payload.score.value)))
  }

  /** The timestamp parses, the mode passes the table's check, the hashed numbers are finite. */
  predicate Storable(w: World, e: EventIn) {
    && w.parse(e.ts).Some?
    && e.payload.evidenceMode in ["none", "spans", "full_text"]
    && Encodable(Minimized(e.payload))
  }

  /** Of what the schema lets through, an event is stored when its timestamp parses, its mode is one of
      three, and its score and, unless the mode drops them, its spans are finite. */
  lemma WhoIsStorable(w: World, e: EventIn)
    requires Typed(e)
    ensures Storable(w, e) <==>
      (w.parse(e.ts) != None
        && (e.payload.evidenceMode == "none" || e.payload.evidenceMode == "spans"
          || e.payload.evidenceMode == "full_text")
        && e.payload.score != Some(NonFinite)
        && (e.payload.evidenceMode == "none" || Finite(e.payload.spans)))
  {
  }

  /** Event ids are the primary key. */
  predicate FreshIds(rows: seq<Row>, batch: seq<EventIn>) {
    && (forall i, j :: 0 <= i < j < |batch| ==> batch[i].payload.eventId != batch[j].payload.eventId)
    && forall i, j :: 0 <= i < |batch| && 0 <= j < |rows| ==> batch[i].payload.eventId != rows[j].payload.eventId
  }

  predicate Acceptable(w: World, rows: seq<Row>, batch: seq<EventIn>) {
    && 1 <= |batch| <= 500
    && (forall i :: 0 <= i < |batch| ==> Storable(w, batch[i]))
    && FreshIds(rows, batch)
  }

  // ---- one chain ----

  function HeadOf(rows: seq<Row>): Head {
    Head(|rows|, Prev(rows, |rows|))
  }

  ghost predicate ChainOk(w: World, es: seq<EventIn>, rows: seq<Row>, heads: map<Key, Head>, key: Key) {
    var mine := Of(rows, RowKey, key);
    && Chained(w, Of(es, EventKey, key), mine)
    && (key in heads <==> mine != [])
    && (key in heads ==> heads[key] == HeadOf(mine))
  }

  /** A row for event e on top of a head. */
  function NewRow(w: World, head: Head, e: EventIn): Row
    requires Storable(w, e)
  {
    var c := EventFields(e, head.chainSeq + 1, head.eventHash);
    assert EventHash(w, c).Some? by { FieldsAreFine(c); }
    Row(e.key, head.chainSeq + 1, w.parse(e.ts).value, head.eventHash, EventHash(w, c).value, e.isShadow,
      Minimized(e.payload))
  }

  lemma NewRowIsRow(w: World, rows: seq<Row>, e: EventIn)
    requires Storable(w, e)
    ensures IsRow(w, e, |rows|, Prev(rows, |rows|), NewRow(w, HeadOf(rows), e))
  {
    var c, r := EventFields(e, |rows| + 1, Prev(rows, |rows|)), NewRow(w, HeadOf(rows), e);
    assert EventHash(w, c) == Some(r.eventHash) by { FieldsAreFine(c); }
    HashIsEventHash(w, c, r.eventHash);
  }

  /** One more row for one chain. */
  lemma RowAppended(w: World, table: seq<Row>, key: Key, es: seq<EventIn>, e: EventIn, row: Row)
    requires Storable(w, e) && e.key == key && Chained(w, es, Of(table, RowKey, key))
    requires row == NewRow(w, HeadOf(Of(table, RowKey, key)), e)
    ensures Chained(w, es + [e], Of(table + [row], RowKey, key))
    ensures Head(row.chainSeq, Some(row.eventHash)) == HeadOf(Of(table + [row], RowKey, key))
    ensures forall other :: other != key ==> Of(table + [row], RowKey, other) == Of(table, RowKey, other)
  {
    NewRowIsRow(w, Of(table, RowKey, key), e);
    ChainExtends(w, es, Of(table, RowKey, key), e, row);
    forall k ensures Of(table + [row], RowKey, k) == Of(table, RowKey, k) + if row.key == k then [row] else [] {
      OfSnoc(table, row, RowKey, k);
    }
  }

  /** The inner loop of ingestion: one bucket's events onto one chain. */
  method AppendBucket(w: World, table: seq<Row>, key: Key, start: Head, events: seq<EventIn>, ghost es: seq<EventIn>)
    returns (table': seq<Row>, head: Head)
    requires forall i :: 0 <= i < |events| ==> Storable(w, events[i]) && events[i].key == key
    requires Chained(w, es, Of(table, RowKey, key)) && start == HeadOf(Of(table, RowKey, key))
    ensures Chained(w, es + events, Of(table', RowKey, key)) && head == HeadOf(Of(table', RowKey, key))
    ensures forall other :: other != key ==> Of(table', RowKey, other) == Of(table, RowKey, other)
  {
    table', head := table, start;
    assert es + events[..0] == es;
    for i := 0 to |events|
      invariant Chained(w, es + events[..i], Of(table', RowKey, key)) && head == HeadOf(Of(table', RowKey, key))
      invariant forall other :: other != key ==> Of(table', RowKey, other) == Of(table, RowKey, other)
    {
      var row := NewRow(w, head, events[i]);
      RowAppended(w, table', key, es + events[..i], events[i], row);
      table' := table' + [row];
      head := Head(row.chainSeq, Some(row.eventHash));
      assert (es + events[..i]) + [events[i]] == es + events[..i + 1];
    }
    assert events[..|events|] == events;
  }

  lemma SortByTimeKeys(w: World, s: seq<EventIn>, key: Key)
    requires forall i :: 0 <= i < |s| ==> Storable(w, s[i]) && s[i].key == key
    ensures |SortByTime(w, s)| == |s|
    ensures forall i :: 0 <= i < |s| ==> Storable(w, SortByTime(w, s)[i]) && SortByTime(w, s)[i].key == key
  {
    SortByTimeSorts(w, s, 0);
    assert |multiset(s)| == |s| && |multiset(SortByTime(w, s))| == |SortByTime(w, s)|;
    forall i | 0 <= i < |s| ensures SortByTime(w, s)[i] in s {
      assert SortByTime(w, s)[i] in multiset(SortByTime(w, s));
    }
  }

  // ---- the whole batch ----

  /** Buckets by (tenant, app), in order of first appearance. */
  method Group(batch: seq<EventIn>) returns (keys: seq<Key>, groups: map<Key, seq<EventIn>>)
    ensures forall i, j :: 0 <= i < j < |keys| ==> keys[i] != keys[j]
    ensures forall key :: key in keys <==> Of(batch, EventKey, key) != []
    ensures forall i :: 0 <= i < |keys| ==> keys[i] in groups && groups[keys[i]] == Of(batch, EventKey, keys[i])
  {
    keys, groups := [], map[];
    assert batch[..0] == [];
    for i := 0 to |batch|
      invariant forall i, j :: 0 <= i < j < |keys| ==> keys[i] != keys[j]
      invariant forall key :: key in keys <==> key in groups
      invariant forall key :: key in groups <==> Of(batch[..i], EventKey, key) != []
      invariant forall key :: key in groups ==> groups[key] == Of(batch[..i], EventKey, key)
    {
      var e := batch[i];
      assert batch[..i + 1] == batch[..i] + [e];
      forall key ensures Of(batch[..i + 1], EventKey, key)
        == Of(batch[..i], EventKey, key) + if e.key == key then [e] else []
      {
        OfSnoc(batch[..i], e, EventKey, key);
      }
      if e.key in groups {
        groups := groups[e.key := groups[e.key] + [e]];
      } else {
        keys, groups := keys + [e.key], groups[e.key := [e]];
      }
    }
    assert batch[..|batch|] == batch;
  }

  // ---- anchors ----

  /** The anchors of one chain cover 1, 2, … without gap or overlap, and each carries the hash of the
      row it ends at. */
  ghost predicate Tiled(anchors: seq<Anchor>, rows: seq<Row>) {
    forall i {:trigger TileAt(anchors, rows, i)} :: 0 <= i < |anchors| ==> TileAt(anchors, rows, i)
  }

  ghost predicate TileAt(anchors: seq<Anchor>, rows: seq<Row>, i: nat)
    requires i < |anchors|
  {
    && anchors[i].start == (if i == 0 then 1 else anchors[i - 1].end + 1)
    && 1 <= anchors[i].start <= anchors[i].end <= |rows|
    && anchors[i].headHash == rows[anchors[i].end - 1].eventHash
  }

  /** The largest end_seq of an anchor, 0 without anchors. */
  function LastEnd(anchors: seq<Anchor>): int {
    if anchors == [] then 0 else
      var m, e := LastEnd(anchors[..|anchors| - 1]), anchors[|anchors| - 1].end;
      if e > m then e else m
  }

  lemma TiledFront(anchors: seq<Anchor>, rows: seq<Row>)
    requires Tiled(anchors, rows) && anchors != []
    ensures Tiled(anchors[..|anchors| - 1], rows)
  {
    var front := anchors[..|anchors| - 1];
    forall i | 0 <= i < |front| ensures TileAt(front, rows, i) {
      assert TileAt(anchors, rows, i);
    }
  }

  lemma {:induction false} LastEndIsLast(anchors: seq<Anchor>, rows: seq<Row>)
    requires Tiled(anchors, rows)
    ensures 0 <= LastEnd(anchors) <= |rows|
    ensures LastEnd(anchors) == if anchors == [] then 0 else anchors[|anchors| - 1].end
  {
    if anchors != [] {
      TiledFront(anchors, rows);
      LastEndIsLast(anchors[..|anchors| - 1], rows);
      assert TileAt(anchors, rows, |anchors| - 1);
    }
  }

  lemma TiledSnoc(anchors: seq<Anchor>, a: Anchor, rows: seq<Row>)
    requires Tiled(anchors, rows) && a.start == LastEnd(anchors) + 1 && 1 <= a.start <= a.end <= |rows|
    requires a.headHash == rows[a.end - 1].eventHash
    ensures Tiled(anchors + [a], rows)
  {
    LastEndIsLast(anchors, rows);
    var longer := anchors + [a];
    forall i | 0 <= i < |longer| ensures TileAt(longer, rows, i) {
      if i < |anchors| {
        assert TileAt(anchors, rows, i);
      }
    }
  }

  /** One more anchor for one chain. */
  lemma TilesWith(anchors: seq<Anchor>, a: Anchor, rows: seq<Row>, key: Key)
    requires a.key == key && forall k :: Tiled(Of(anchors, AnchorKey, k), Of(rows, RowKey, k))
    requires a.start == LastEnd(Of(anchors, AnchorKey, key)) + 1 && 1 <= a.start <= a.end <= |Of(rows, RowKey, key)|
    requires a.headHash == Of(rows, RowKey, key)[a.end - 1].eventHash
    ensures forall k :: Tiled(Of(anchors + [a], AnchorKey, k), Of(rows, RowKey, k))
  {
    TiledSnoc(Of(anchors, AnchorKey, key), a, Of(rows, RowKey, key));
    forall k ensures Tiled(Of(anchors + [a], AnchorKey, k), Of(rows, RowKey, k)) {
      OfSnoc(anchors, a, AnchorKey, k);
      assert k != key ==> Of(anchors + [a], AnchorKey, k) == Of(anchors, AnchorKey, k);
    }
  }

  lemma TiledGrows(anchors: seq<Anchor>, rows: seq<Row>, longer: seq<Row>)
    requires Tiled(anchors, rows) && |rows| <= |longer| && longer[..|rows|] == rows
    ensures Tiled(anchors, longer)
  {
    forall i | 0 <= i < |anchors| ensures TileAt(anchors, longer, i) {
      assert TileAt(anchors, rows, i);
      assert longer[..|rows|][anchors[i].end - 1] == rows[anchors[i].end - 1];
    }
  }

  /** Every position up to the last anchored one lies in the window of exactly one anchor. */
  lemma {:induction false} AnchorsTile(anchors: seq<Anchor>, rows: seq<Row>, n: int) returns (k: nat)
    requires Tiled(anchors, rows) && 1 <= n <= LastEnd(anchors)
    ensures k < |anchors| && anchors[k].start <= n <= anchors[k].end
    ensures forall i :: 0 <= i < |anchors| && i != k ==> !(anchors[i].start <= n <= anchors[i].end)
    decreases |anchors|
  {
    var front := anchors[..|anchors| - 1];
    TiledFront(anchors, rows);
    LastEndIsLast(anchors, rows);
    LastEndIsLast(front, rows);
    AnchorsEndBy(front, rows);
    assert TileAt(anchors, rows, |anchors| - 1);
    if anchors[|anchors| - 1].start <= n {
      k := |anchors| - 1;
      assert forall i :: 0 <= i < |front| ==> front[i] == anchors[i];
    } else {
      k := AnchorsTile(front, rows, n);
    }
  }

  lemma {:induction false} AnchorsEndBy(anchors: seq<Anchor>, rows: seq<Row>)
    requires Tiled(anchors, rows)
    ensures forall i :: 0 <= i < |anchors| ==> anchors[i].end <= LastEnd(anchors)
    decreases |anchors|
  {
    if anchors != [] {
      TiledFront(anchors, rows);
      AnchorsEndBy(anchors[..|anchors| - 1], rows);
    }
  }

  predicate Extends<T(==)>(s: seq<T>, t: seq<T>) {
    |s| <= |t| && t[..|s|] == s
  }

  ghost function Onto(w: World, batch: seq<EventIn>, done: seq<Key>, before: seq<EventIn>, key: Key): seq<EventIn> {
    Of(before, EventKey, key) + if key in done then SortByTime(w, Of(batch, EventKey, key)) else []
  }

  method IngestBucket(w: World, ghost batch: seq<EventIn>, key: Key, bucket: seq<EventIn>, table: seq<Row>,
      tops: map<Key, Head>, ghost es: seq<EventIn>)
    returns (table': seq<Row>, tops': map<Key, Head>, ghost es': seq<EventIn>)
    requires forall i :: 0 <= i < |batch| ==> Storable(w, batch[i])
    requires bucket == Of(batch, EventKey, key) && bucket != []
    requires forall k {:trigger ChainOk(w, es, table, tops, k)} :: ChainOk(w, es, table, tops, k)
    ensures forall k {:trigger ChainOk(w, es', table', tops', k)} :: ChainOk(w, es', table', tops', k)
    ensures forall k :: Of(es', EventKey, k) == Of(es, EventKey, k) + if k == key then SortByTime(w, bucket) else []
  {
    OfHasKey(batch, EventKey, key);
    forall i | 0 <= i < |bucket| ensures Storable(w, bucket[i]) && bucket[i].key == key {
      assert bucket[i] in batch;
    }
    SortByTimeKeys(w, bucket, key);
    var events := SortByTime(w, bucket);
    var head := if key in tops then tops[key] else Head(0, None);
    assert ChainOk(w, es, table, tops, key);
    table', head := AppendBucket(w, table, key, head, events, Of(es, EventKey, key));
    tops' := tops[key := head];
    es' := es + events;
    forall k ensures Of(es', EventKey, k) == Of(es, EventKey, k) + if k == key then events else [] {
      OfConcat(es, events, EventKey, k);
      OfUniform(events, EventKey, k, key);
    }
    forall k ensures ChainOk(w, es', table', tops', k) {
      assert ChainOk(w, es, table, tops, k);
      assert k != key ==> Of(es', EventKey, k) == Of(es, EventKey, k);
    }
  }

  /** The loop over the buckets. */
  method StoreBatch(w: World, batch: seq<EventIn>, rows: seq<Row>, heads: map<Key, Head>, ghost before: seq<EventIn>)
    returns (table: seq<Row>, tops: map<Key, Head>, ghost es: seq<EventIn>)
    requires forall i :: 0 <= i < |batch| ==> Storable(w, batch[i])
    requires forall key {:trigger ChainOk(w, before, rows, heads, key)} :: ChainOk(w, before, rows, heads, key)
    ensures forall key {:trigger ChainOk(w, es, table, tops, key)} :: ChainOk(w, es, table, tops, key)
    ensures forall key ::
      Of(es, EventKey, key) == Of(before, EventKey, key) + SortByTime(w, Of(batch, EventKey, key))
  {
    var keys, groups := Group(batch);
    table, tops, es := rows, heads, before;
    for j := 0 to |keys|
      invariant forall key {:trigger ChainOk(w, es, table, tops, key)} :: ChainOk(w, es, table, tops, key)
      invariant forall key :: Of(es, EventKey, key) == Onto(w, batch, keys[..j], before, key)
    {
      table, tops, es := IngestBucket(w, batch, keys[j], groups[keys[j]], table, tops, es);
    }
    assert keys[..|keys|] == keys;
  }

  lemma TilesStay(w: World, before: seq<EventIn>, rows: seq<Row>, heads: map<Key, Head>,
                  after: seq<EventIn>, table: seq<Row>, tops: map<Key, Head>, mine: seq<Anchor>, key: Key)
    requires ChainOk(w, before, rows, heads, key) && ChainOk(w, after, table, tops, key)
    requires Extends(Of(before, EventKey, key), Of(after, EventKey, key))
    requires Tiled(mine, Of(rows, RowKey, key))
    ensures Tiled(mine, Of(table, RowKey, key))
  {
    var was, now := Of(rows, RowKey, key), Of(table, RowKey, key);
    ChainPrefix(w, Of(after, EventKey, key), now, |was|);
    ChainIsDetermined(w, Of(before, EventKey, key), was, now[..|was|], |was|);
    assert was[..|was|] == was && now[..|was|][..|was|] == now[..|was|];
    TiledGrows(mine, was, now);
  }

  /** What a request for an anchor gives on a chain anchored up to end. */
  ghost function Outcome(key: Key, chain: seq<Row>, end: int): AnchorResult {
    if chain == [] then NoEvents
    else if |chain| == end then NotAdvanced
    else Signed(Anchor(key, end + 1, |chain|, chain[|chain| - 1].eventHash))
  }

  method NextAnchor(w: World, key: Key, head: Option<Head>, mine: seq<Anchor>, ghost chain: seq<Row>)
    returns (r: AnchorResult)
    requires Tiled(mine, chain)
    requires head == if chain == [] then None else Some(HeadOf(chain))
    ensures r == Outcome(key, chain, LastEnd(mine))
    ensures r.Signed? ==> r.anchor.key == key && 1 <= r.anchor.start <= r.anchor.end <= |chain|
  {
    LastEndIsLast(mine, chain);
    if head.None? || head.value.chainSeq == 0 {
      return NoEvents;
    }
    var start := LastEnd(mine) + 1;
    if head.value.chainSeq < start {
      return NotAdvanced;
    }
    return Signed(Anchor(key, start, head.value.chainSeq, head.value.eventHash.value));
  }

  // ---- the store ----

  class Store {
    const w: World
    var rows: seq<Row>
    var heads: map<Key, Head>
    var anchors: seq<Anchor>
    ghost var accepted: seq<EventIn>   // every event of every accepted batch, in the order stored

    ghost predicate Valid()
      reads this
    {
      && (forall key {:trigger ChainOk(w, accepted, rows, heads, key)} :: ChainOk(w, accepted, rows, heads, key))
      && forall key :: Tiled(Of(anchors, AnchorKey, key), Of(rows, RowKey, key))
    }

    constructor (world: World)
      ensures Valid() && w == world && accepted == [] && anchors == []
    {
      w := world;
      rows, heads, anchors, accepted := [], map[], [], [];
    }

    /** One transaction: an unacceptable batch leaves everything as it was. */
    method Ingest(batch: seq<EventIn>) returns (ok: bool)
      requires Valid() && forall i :: 0 <= i < |batch| ==> Typed(batch[i])
      modifies this
      ensures Valid() && anchors == old(anchors)
      ensures ok == Acceptable(w, old(rows), batch)
      ensures ok ==> 1 <= |batch| <= 500
      ensures !ok && 1 <= |batch| <= 500 ==>
        (exists i :: 0 <= i < |batch| && !Storable(w, batch[i])) || !FreshIds(old(rows), batch)
      ensures !ok ==> rows == old(rows) && heads == old(heads) && accepted == old(accepted)
      ensures ok ==> forall key ::
        Of(accepted, EventKey, key) == Of(old(accepted), EventKey, key) + SortByTime(w, Of(batch, EventKey, key))
    {
      ok := Acceptable(w, rows, batch);
      if !ok {
        return;
      }
      var table, tops;
      ghost var es;
      table, tops, es := StoreBatch(w, batch, rows, heads, accepted);
      forall key ensures Tiled(Of(anchors, AnchorKey, key), Of(table, RowKey, key)) {
        assert ChainOk(w, accepted, rows, heads, key) && ChainOk(w, es, table, tops, key);
        assert Extends(Of(accepted, EventKey, key), Of(es, EventKey, key));
        TilesStay(w, accepted, rows, heads, es, table, tops, Of(anchors, AnchorKey, key), key);
      }
      rows, heads, accepted := table, tops, es;
    }

    /** Anchors the rows since the last anchor, up to the head. */
    method SignAnchor(key: Key) returns (r: AnchorResult)
      requires Valid()
      modifies this`anchors
      ensures Valid()
      ensures r == Outcome(key, Of(rows, RowKey, key), LastEnd(Of(old(anchors), AnchorKey, key)))
      ensures anchors == old(anchors) + if r.Signed? then [r.anchor] else []
    {
      assert ChainOk(w, accepted, rows, heads, key);
      var mine := Of(anchors, AnchorKey, key);
      r := NextAnchor(w, key, if key in heads then Some(heads[key]) else None, mine, Of(rows, RowKey, key));
      if r.Signed? {
        TilesWith(anchors, r.anchor, rows, key);
        anchors := anchors + [r.anchor];
      }
    }

    /** Verification of a chain of the store: with a digest free of collisions it succeeds on all rows
        exactly when every accepted timestamp string is what its instant renders to. */
    method Verify(key: Key) returns (r: Report)
      requires Valid()
      ensures r.Report? && r.checked <= |Of(rows, RowKey, key)|
      ensures (forall e :: e in Of(accepted, EventKey, key) ==> Fixed(w, e)) ==>
        r == Report(|Of(accepted, EventKey, key)|, true, None)
      ensures CollisionFree(w) && r.ok ==> forall e :: e in Of(accepted, EventKey, key) ==> Fixed(w, e)
    {
      var mine := Of(rows, RowKey, key);
      ghost var es := Of(accepted, EventKey, key);
      assert ChainOk(w, accepted, rows, heads, key);
      GenuineChainVerifies(w, es, mine);
      forall i | 0 <= i < |mine| ensures EventHash(w, RowFields(w, mine[i])).Some? {
        assert IsRowAt(w, es, mine, i);
        FieldsAreFine(RowFields(w, mine[i]));
      }
      r := VerifyChain(w, mine);
    }

    /** Whatever happened since an anchor was signed: a log that verifies up to its end and carries its
        hash there shows the events that were accepted, in all 21 fields, or exhibits a collision. */
    lemma AnchorsPinTheLog(key: Key, a: Anchor, log: seq<Row>) returns (x: Bytes, y: Bytes)
      requires Valid() && a in Of(anchors, AnchorKey, key)
      requires 0 < a.end <= |log| && GoodTo(w, log, a.end) && log[a.end - 1].eventHash == a.headHash
      requires forall i :: 0 <= i < |log| ==> Encodable(log[i].payload)
      ensures a.end <= |Of(accepted, EventKey, key)| && a.end <= |Of(rows, RowKey, key)|
      ensures Collision(w, x, y)
        || forall i :: 0 <= i < a.end ==> Agrees(w, Of(accepted, EventKey, key), Of(rows, RowKey, key), log, i)
    {
      var mine := Of(anchors, AnchorKey, key);
      var k :| 0 <= k < |mine| && mine[k] == a;
      assert TileAt(mine, Of(rows, RowKey, key), k);
      assert ChainOk(w, accepted, rows, heads, key);
      x, y := AnchoredPrefixIsGenuine(w, Of(accepted, EventKey, key), Of(rows, RowKey, key), log, a.end);
    }
  }

  // ---- the verifiers ----

  /** The first check that position i fails. */
  ghost function FirstFailure(w: World, log: seq<Row>, i: nat): Reason
    requires i < |log| && !GoodAt(w, log, i)
  {
    if log[i].chainSeq != i + 1 then SeqGap else if log[i].prev != Prev(log, i) then PrevMismatch else HashMismatch
  }

  datatype Verdict = Pass | Fail(reason: Reason) | Raises

  /** The three checks on one row, in order. */
  method CheckRow(w: World, ghost log: seq<Row>, ghost i: nat, r: Row, expected: int, prev: Option<string>)
    returns (v: Verdict)
    requires i < |log| && r == log[i] && expected == i + 1 && prev == Prev(log, i)
    ensures v.Pass? ==> GoodAt(w, log, i)
    ensures v.Fail? ==> !GoodAt(w, log, i) && v.reason == FirstFailure(w, log, i)
    ensures v.Raises? ==> EventHash(w, RowFields(w, log[i])).None?
  {
    if r.chainSeq != expected {
      return Fail(SeqGap);
    }
    if r.prev != prev {
      return Fail(PrevMismatch);
    }
    var h := EventHash(w, RowFields(w, r));
    if h.None? {
      return Raises;
    }
    HashIsEventHash(w, RowFields(w, r), r.eventHash);
    return if h.value == r.eventHash then Pass else Fail(HashMismatch);
  }

  /** _verify_chain_impl: reports the longest part from the start that passes. */
  method VerifyChain(w: World, log: seq<Row>) returns (r: Report)
    ensures r.Report? ==> r.checked <= |log| && GoodTo(w, log, r.checked)
    ensures r.Report? ==> (r.ok <==> r.checked == |log|) && (r.ok <==> r.firstBad == None)
    ensures r.Report? && !r.ok ==> !GoodAt(w, log, r.checked)
    ensures r.Report? && !r.ok ==> r.firstBad == Some((log[r.checked].chainSeq, FirstFailure(w, log, r.checked)))
    ensures r.Raised? ==> exists i :: 0 <= i < |log| && GoodTo(w, log, i) && EventHash(w, RowFields(w, log[i])).None?
  {
    var prev: Option<string> := None;
    for i := 0 to |log|
      invariant GoodTo(w, log, i) && prev == Prev(log, i)
    {
      var v := CheckRow(w, log, i, log[i], i + 1, prev);
      if v.Raises? {
        return Raised;
      }
      if v.Fail? {
        return Report(i, false, Some((log[i].chainSeq, v.reason)));
      }
      prev := Some(log[i].eventHash);
    }
    return Report(|log|, true, None);
  }
}
