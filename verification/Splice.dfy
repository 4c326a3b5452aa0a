/** Replacing disjoint stretches of a text, left to right, and where every byte ends up. */
module Splice {

  datatype Patch = Patch(start: int, end: int, filler: string)

  ghost predicate InRange(ps: seq<Patch>, text: string) {
    forall i :: 0 <= i < |ps| ==> 0 <= ps[i].start <= ps[i].end <= |text|
  }

  /** Left to right and disjoint. */
  ghost predicate Disjoint(ps: seq<Patch>) {
    forall i, j :: 0 <= i < j < |ps| ==> ps[i].end <= ps[j].start
  }

  /** Where the n-th patch ends; the text starts at 0. */
  function EndAt(ps: seq<Patch>, n: nat): int
    requires n <= |ps|
  {
    if n == 0 then 0 else ps[n - 1].end
  }

  /** Where the gap before the n-th patch (or after the last) ends. */
  function GapEnd(text: string, ps: seq<Patch>, n: nat): int
    requires n <= |ps|
  {
    if n < |ps| then ps[n].start else |text|
  }

  /** What has been written once n patches are applied, up to the end of the n-th. */
  function Written(text: string, ps: seq<Patch>, n: nat): string
    requires n <= |ps| && InRange(ps, text) && Disjoint(ps)
  {
    if n == 0 then ""
    else Written(text, ps, n - 1) + text[EndAt(ps, n - 1)..ps[n - 1].start] + ps[n - 1].filler
  }

  function Spliced(text: string, ps: seq<Patch>): string
    requires InRange(ps, text) && Disjoint(ps)
  {
    Written(text, ps, |ps|) + text[EndAt(ps, |ps|)..]
  }

  /** How far the first n patches move the bytes after them. */
  function Shift(ps: seq<Patch>, n: nat): int
    requires n <= |ps|
  {
    if n == 0 then 0 else Shift(ps, n - 1) + |ps[n - 1].filler| - (ps[n - 1].end - ps[n - 1].start)
  }

  lemma {:induction false} WrittenLength(text: string, ps: seq<Patch>, n: nat)
    requires n <= |ps| && InRange(ps, text) && Disjoint(ps)
    ensures |Written(text, ps, n)| == EndAt(ps, n) + Shift(ps, n)
  {
    if n > 0 {
      WrittenLength(text, ps, n - 1);
    }
  }

  /** Later patches only append: what has been written at an index stays there. */
  lemma {:induction false} WrittenStays(text: string, ps: seq<Patch>, n: nat, m: nat, k: nat)
    requires n <= m <= |ps| && InRange(ps, text) && Disjoint(ps)
    requires k < |Written(text, ps, n)|
    ensures k < |Written(text, ps, m)| && Written(text, ps, m)[k] == Written(text, ps, n)[k]
    decreases m
  {
    if n < m {
      WrittenStays(text, ps, n, m - 1, k);
    }
  }

  /** What is written depends only on the patches applied so far. */
  lemma {:induction false} WrittenAgrees(text: string, ps: seq<Patch>, qs: seq<Patch>, n: nat)
    requires n <= |ps| && n <= |qs| && forall i :: 0 <= i < n ==> ps[i] == qs[i]
    requires InRange(ps, text) && Disjoint(ps) && InRange(qs, text) && Disjoint(qs)
    ensures Written(text, ps, n) == Written(text, qs, n)
  {
    if n > 0 {
      WrittenAgrees(text, ps, qs, n - 1);
    }
  }

  lemma WrittenNext(text: string, ps: seq<Patch>, qs: seq<Patch>)
    requires |qs| == |ps| + 1 && forall i :: 0 <= i < |ps| ==> ps[i] == qs[i]
    requires InRange(ps, text) && Disjoint(ps) && InRange(qs, text) && Disjoint(qs)
    requires 0 <= EndAt(ps, |ps|) <= qs[|ps|].start
    ensures Written(text, qs, |qs|)
         == Written(text, ps, |ps|) + text[EndAt(ps, |ps|)..qs[|ps|].start] + qs[|ps|].filler
  {
    WrittenAgrees(text, ps, qs, |ps|);
  }

  /** Every byte outside the patches is kept, in order, moved by the patches before it. */
  lemma KeepsOtherBytes(text: string, ps: seq<Patch>, n: nat, i: nat)
    requires n <= |ps| && InRange(ps, text) && Disjoint(ps)
    requires EndAt(ps, n) <= i < GapEnd(text, ps, n)
    ensures 0 <= i + Shift(ps, n) < |Spliced(text, ps)|
    ensures Spliced(text, ps)[i + Shift(ps, n)] == text[i]
  {
    KeepsByteAt(text, ps, n, i, i + Shift(ps, n));
  }

  /** The byte at k of a text is c. */
  predicate ByteAt(out: string, k: int, c: char) {
    0 <= k < |out| && out[k] == c
  }

  lemma KeepsByteAt(text: string, ps: seq<Patch>, n: nat, i: nat, k: int)
    requires n <= |ps| && InRange(ps, text) && Disjoint(ps)
    requires EndAt(ps, n) <= i < GapEnd(text, ps, n) && k == i + Shift(ps, n)
    ensures ByteAt(Spliced(text, ps), k, text[i])
  {
    if n < |ps| {
      BeforePatch(text, ps, n, i, k);
    } else {
      AfterPatches(text, ps, i);
    }
  }

  lemma Piece(a: string, b: string, c: string, k: int)
    requires |a| <= k < |a| + |b|
    ensures (a + b + c)[k] == b[k - |a|]
  {
  }

  lemma LastPiece(a: string, b: string, c: string, k: int)
    requires |a| + |b| <= k < |a| + |b| + |c|
    ensures (a + b + c)[k] == c[k - |a| - |b|]
  {
  }

  lemma SplicedStays(text: string, ps: seq<Patch>, n: nat, k: nat)
    requires n <= |ps| && InRange(ps, text) && Disjoint(ps) && k < |Written(text, ps, n)|
    ensures k < |Spliced(text, ps)| && Spliced(text, ps)[k] == Written(text, ps, n)[k]
  {
    WrittenStays(text, ps, n, |ps|, k);
  }

  lemma AfterPatches(text: string, ps: seq<Patch>, i: nat)
    requires InRange(ps, text) && Disjoint(ps) && EndAt(ps, |ps|) <= i < |text|
    ensures 0 <= i + Shift(ps, |ps|) < |Spliced(text, ps)|
    ensures Spliced(text, ps)[i + Shift(ps, |ps|)] == text[i]
  {
    WrittenLength(text, ps, |ps|);
    Piece(Written(text, ps, |ps|), text[EndAt(ps, |ps|)..], "", i + Shift(ps, |ps|));
  }

  lemma BeforePatch(text: string, ps: seq<Patch>, n: nat, i: nat, k: int)
    requires n < |ps| && InRange(ps, text) && Disjoint(ps) && EndAt(ps, n) <= i < ps[n].start
    requires k == i + Shift(ps, n)
    ensures ByteAt(Spliced(text, ps), k, text[i])
  {
    WrittenBefore(text, ps, n, i, k);
    SplicedStays(text, ps, n + 1, k);
  }

  lemma WrittenBefore(text: string, ps: seq<Patch>, n: nat, i: nat, k: int)
    requires n < |ps| && InRange(ps, text) && Disjoint(ps) && EndAt(ps, n) <= i < ps[n].start
    requires k == i + Shift(ps, n)
    ensures ByteAt(Written(text, ps, n + 1), k, text[i])
  {
    WrittenLength(text, ps, n);
    Piece(Written(text, ps, n), text[EndAt(ps, n)..ps[n].start], ps[n].filler, k);
  }

  /** Every patch puts its replacement, byte for byte, where its stretch began. */
  lemma WritesPatches(text: string, ps: seq<Patch>, n: nat, i: nat)
    requires n < |ps| && InRange(ps, text) && Disjoint(ps) && i < |ps[n].filler|
    ensures 0 <= ps[n].start + Shift(ps, n) + i < |Spliced(text, ps)|
    ensures Spliced(text, ps)[ps[n].start + Shift(ps, n) + i] == ps[n].filler[i]
  {
    WritesByteAt(text, ps, n, i, ps[n].start + Shift(ps, n) + i);
  }

  lemma WritesByteAt(text: string, ps: seq<Patch>, n: nat, i: nat, k: int)
    requires n < |ps| && InRange(ps, text) && Disjoint(ps) && i < |ps[n].filler| && k == ps[n].start + Shift(ps, n) + i
    ensures ByteAt(Spliced(text, ps), k, ps[n].filler[i])
  {
    FillerWritten(text, ps, n, i, k);
    SplicedStays(text, ps, n + 1, k);
  }

  lemma FillerWritten(text: string, ps: seq<Patch>, n: nat, i: nat, k: int)
    requires n < |ps| && InRange(ps, text) && Disjoint(ps) && i < |ps[n].filler| && k == ps[n].start + Shift(ps, n) + i
    ensures ByteAt(Written(text, ps, n + 1), k, ps[n].filler[i])
  {
    WrittenLength(text, ps, n);
    LastPiece(Written(text, ps, n), text[EndAt(ps, n)..ps[n].start], ps[n].filler, k);
  }

  /** r stands in a text from k on. */
  predicate WrittenAt(out: string, k: int, r: string) {
    0 <= k && k + |r| <= |out| && out[k..k + |r|] == r
  }

  lemma SliceIs(out: string, k: int, r: string)
    requires r != "" && forall i :: 0 <= i < |r| ==> ByteAt(out, k + i, r[i])
    ensures WrittenAt(out, k, r)
  {
    assert ByteAt(out, k + 0, r[0]) && ByteAt(out, k + (|r| - 1), r[|r| - 1]);
    forall i | 0 <= i < |r| ensures out[k..k + |r|][i] == r[i] {
      assert ByteAt(out, k + i, r[i]);
    }
  }

  /** The whole of one replacement, where its stretch has moved to. */
  lemma WritesFiller(text: string, ps: seq<Patch>, n: nat, k: int)
    requires n < |ps| && InRange(ps, text) && Disjoint(ps) && ps[n].filler != "" && k == ps[n].start + Shift(ps, n)
    ensures WrittenAt(Spliced(text, ps), k, ps[n].filler)
  {
    var out, r := Spliced(text, ps), ps[n].filler;
    forall i | 0 <= i < |r| ensures ByteAt(out, k + i, r[i]) {
      WritesByteAt(text, ps, n, i, k + i);
    }
    SliceIs(out, k, r);
  }

  /** Nothing else is written: the output is as long as the kept bytes and the replacements. */
  lemma SplicedLength(text: string, ps: seq<Patch>)
    requires InRange(ps, text) && Disjoint(ps)
    ensures |Spliced(text, ps)| == |text| + Shift(ps, |ps|)
  {
    WrittenLength(text, ps, |ps|);
  }

  lemma {:induction false} EqualLengthsShiftNothing(ps: seq<Patch>, n: nat)
    requires n <= |ps| && forall i :: 0 <= i < |ps| ==> |ps[i].filler| == ps[i].end - ps[i].start
    ensures Shift(ps, n) == 0
  {
    if n > 0 {
      EqualLengthsShiftNothing(ps, n - 1);
    }
  }

  // ---- two texts ----

  /** Texts that differ at most inside the patches give one output. */
  lemma {:induction false} WrittenIgnores(text: string, other: string, ps: seq<Patch>, n: nat)
    requires n <= |ps| && |other| == |text| && InRange(ps, text) && Disjoint(ps)
    requires forall m, i :: 0 <= m <= |ps| && EndAt(ps, m) <= i < GapEnd(text, ps, m) ==> text[i] == other[i]
    ensures Written(text, ps, n) == Written(other, ps, n)
  {
    if n > 0 {
      WrittenIgnores(text, other, ps, n - 1);
      var from, to := EndAt(ps, n - 1), ps[n - 1].start;
      assert GapEnd(text, ps, n - 1) == to;
      assert text[from..to] == other[from..to];
    }
  }

  lemma SplicedIgnores(text: string, other: string, ps: seq<Patch>)
    requires |other| == |text| && InRange(ps, text) && Disjoint(ps)
    requires forall m, i :: 0 <= m <= |ps| && EndAt(ps, m) <= i < GapEnd(text, ps, m) ==> text[i] == other[i]
    ensures Spliced(text, ps) == Spliced(other, ps)
  {
    WrittenIgnores(text, other, ps, |ps|);
    assert text[EndAt(ps, |ps|)..] == other[EndAt(ps, |ps|)..];
  }

  /** The shift depends only on where the patches are and how long their fillers are. */
  lemma {:induction false} ShiftAgrees(ps: seq<Patch>, qs: seq<Patch>, n: nat)
    requires n <= |ps| && |ps| == |qs|
    requires forall i :: 0 <= i < |ps| ==> ps[i].(filler := qs[i].filler) == qs[i] && |ps[i].filler| == |qs[i].filler|
    ensures Shift(ps, n) == Shift(qs, n)
  {
    if n > 0 {
      ShiftAgrees(ps, qs, n - 1);
    }
  }
}
