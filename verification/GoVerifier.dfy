/** The stand-alone verifier written in Go, against the control plane's. */
module GoVerifier {
  import opened Ascii
  import opened Utf8
  import opened Json
  import opened CanonicalText
  import opened CanonicalRoundTrip
  import opened GoCanonical
  import opened GoWriter
  import opened Evidence
  import opened Chain

  /** The verifier keeps a missing hash as the empty string. */
  function OrEmpty(o: Option<string>): string {
    if o.None? then "" else o.value
  }

  /** nullableEqual. */
  predicate NullableEqual(a: string, b: string) {
    (a == "" && b == "") || a == b
  }

  /** Its own computeHash: the digest of what its encoder writes. */
  function GoHash(w: World, c: Covered): string {
    w.digest(Encode(GoPutValue(Canon(Subset(FieldValues(c))), "")))
  }

  /** What reaches it: numbers within the limit, since JSON numbers are read as floats. */
  ghost predicate Readable(c: Covered) {
    Encodable(c.payload) && Portable(Subset(FieldValues(c)))
  }

  predicate PlainEvent(c: Covered) {
    PlainJson(Subset(FieldValues(c)))
  }

  ghost predicate GoGoodAt(w: World, rows: seq<Row>, i: nat)
    requires i < |rows|
  {
    && rows[i].chainSeq == i + 1
    && NullableEqual(OrEmpty(rows[i].prev), OrEmpty(Prev(rows, i)))
    && GoHash(w, RowFields(w, rows[i])) == rows[i].eventHash
  }

  ghost predicate GoGoodTo(w: World, rows: seq<Row>, n: nat) {
    n <= |rows| && forall i {:trigger GoGoodAt(w, rows, i)} :: 0 <= i < n ==> GoGoodAt(w, rows, i)
  }

  ghost predicate ReadableAt(w: World, rows: seq<Row>, i: nat)
    requires i < |rows|
  {
    Readable(RowFields(w, rows[i]))
  }

  ghost predicate PlainAt(w: World, rows: seq<Row>, i: nat)
    requires i < |rows|
  {
    Readable(RowFields(w, rows[i])) && PlainEvent(RowFields(w, rows[i]))
  }

  /** Position i is the first to fail, and seq_ is its number. */
  ghost predicate BreaksAt(w: World, rows: seq<Row>, i: nat, seq_: int)
    requires i < |rows|
  {
    GoGoodTo(w, rows, i) && !GoGoodAt(w, rows, i) && seq_ == rows[i].chainSeq
  }

  /** The hashes agree when the event is plain, and without collisions only then. */
  lemma HashesAgree(w: World, c: Covered)
    requires Readable(c)
    ensures PlainEvent(c) ==> EventHash(w, c) == Some(GoHash(w, c))
    ensures CollisionFree(w) && EventHash(w, c) == Some(GoHash(w, c)) ==> PlainEvent(c)
  {
    LanguagesAgree(Subset(FieldValues(c)));
    FieldsAreFine(c);
  }

  /** The main loop of the verifier; None is its success. */
  method GoVerify(w: World, events: seq<Row>) returns (brokenAt: Option<int>)
    requires forall i {:trigger ReadableAt(w, events, i)} :: 0 <= i < |events| ==> ReadableAt(w, events, i)
    ensures brokenAt == None <==> GoGoodTo(w, events, |events|)
    ensures brokenAt.Some? ==> exists i :: 0 <= i < |events| && BreaksAt(w, events, i, brokenAt.value)
  {
    var prevHash := "";
    for i := 0 to |events|
      invariant GoGoodTo(w, events, i) && prevHash == OrEmpty(Prev(events, i))
    {
      var e := events[i];
      if e.chainSeq != i + 1 {
        assert BreaksAt(w, events, i, e.chainSeq);
        return Some(e.chainSeq);
      }
      if !NullableEqual(OrEmpty(e.prev), prevHash) {
        assert BreaksAt(w, events, i, e.chainSeq);
        return Some(e.chainSeq);
      }
      var want := GoHash(w, RowFields(w, e));
      if want != e.eventHash {
        assert BreaksAt(w, events, i, e.chainSeq);
        return Some(e.chainSeq);
      }
      prevHash := e.eventHash;
    }
    return None;
  }

  /** On plain logs the two verifiers accept the same parts of a log, apart from a first row whose
      previous hash is the empty string: the Go verifier takes it for a missing one. */
  lemma VerifiersAgree(w: World, rows: seq<Row>, n: nat)
    requires n <= |rows| && forall b :: w.digest(b) != ""
    requires forall i {:trigger PlainAt(w, rows, i)} :: 0 <= i < |rows| ==> PlainAt(w, rows, i)
    ensures GoodTo(w, rows, n) <==> GoGoodTo(w, rows, n) && (n == 0 || rows[0].prev != Some(""))
    decreases n
  {
    if n > 0 {
      var i := n - 1;
      VerifiersAgree(w, rows, i);
      RowsAgree(w, rows, i);
      assert GoodTo(w, rows, n) <==> GoodTo(w, rows, i) && GoodAt(w, rows, i);
      assert GoGoodTo(w, rows, n) <==> GoGoodTo(w, rows, i) && GoGoodAt(w, rows, i);
      if i > 0 && GoGoodTo(w, rows, i) {
        assert GoGoodAt(w, rows, i - 1);
      }
    }
  }

  lemma RowsAgree(w: World, rows: seq<Row>, i: nat)
    requires i < |rows| && PlainAt(w, rows, i)
    ensures i == 0 ==> (GoodAt(w, rows, i) <==> GoGoodAt(w, rows, i) && rows[0].prev != Some(""))
    ensures i > 0 && rows[i - 1].eventHash != "" ==> (GoodAt(w, rows, i) <==> GoGoodAt(w, rows, i))
  {
    HashesAgree(w, RowFields(w, rows[i]));
    HashIsEventHash(w, RowFields(w, rows[i]), rows[i].eventHash);
  }

  /** A row that the control plane accepts and that holds one of the characters Go escapes is rejected
      by the Go verifier, under a digest without collisions. */
  lemma SpecialCharactersAreRejected(w: World, rows: seq<Row>, i: nat)
    requires i < |rows| && Readable(RowFields(w, rows[i])) && CollisionFree(w)
    requires GoodAt(w, rows, i) && !PlainEvent(RowFields(w, rows[i]))
    ensures !GoGoodAt(w, rows, i)
  {
    HashesAgree(w, RowFields(w, rows[i]));
    HashIsEventHash(w, RowFields(w, rows[i]), rows[i].eventHash);
  }
}
