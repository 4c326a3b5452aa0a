/** Composing any number of layers: which layer the trace says a value came from, and which it came from. */
module InheritanceLayers {
  import opened Utf8
  import opened Json
  import opened Inheritance
  import opened InheritanceLaws
  import opened InheritanceTrace
  import opened InheritanceIds
  import opened InheritanceMarkers

  // ---- a merged document is regular again ----

  lemma {:induction false} NewMembersRegular(ps: seq<Member>, cs: seq<Member>, spec: bool)
    requires DistinctKeys(cs) && forall i :: 0 <= i < |cs| ==> RegularField(cs[i], spec)
    ensures var n := NewMembers(ps, cs);
      DistinctKeys(n) && forall i :: 0 <= i < |n| ==> RegularField(n[i], spec) && Find(ps, n[i].key).None? && n[i] in cs
  {
    if cs != [] {
      NewMembersRegular(ps, cs[1..], spec);
      assert cs == [cs[0]] + cs[1..];
      var rest := NewMembers(ps, cs[1..]);
      forall i | 0 <= i < |rest| ensures rest[i].key != cs[0].key {
        var j :| 0 <= j < |cs[1..]| && cs[1..][j] == rest[i];
        assert cs[j + 1].key != cs[0].key;
      }
    }
  }

  lemma {:induction false} MergedIsRegular(p: Json, c: Json, spec: bool)
    requires p.Obj? && c.Obj? && Regular(p, spec) && Regular(c, spec) && Mergeable(p, c, spec)
    ensures Regular(Merged(p, c, spec), spec)
    decreases p, 1
  {
    var ms, cs := p.members, c.members;
    NewMembersRegular(ms, cs, spec);
    var o, n := Overlaid(ms, cs, spec), NewMembers(ms, cs);
    forall i | 0 <= i < |ms| ensures RegularField(o[i], spec) {
      assert RegularField(ms[i], spec) && FieldMergeable(ms[i], cs, spec);
      MergedFieldIsRegular(ms[i], cs, spec);
    }
    forall i, j | 0 <= i < |o| && 0 <= j < |n| ensures o[i].key != n[j].key {
      FindSome(ms, i);
    }
  }

  lemma {:induction false} MergedFieldIsRegular(m: Member, cs: seq<Member>, spec: bool)
    requires RegularField(m, spec) && FieldMergeable(m, cs, spec)
    requires forall i :: 0 <= i < |cs| ==> RegularField(cs[i], spec)
    ensures RegularField(Member(m.key, MergedField(m, cs, spec)), spec)
    decreases m, 0
  {
    if Find(cs, m.key).Some? {
      var j := FindIndex(cs, m.key);
      assert RegularField(cs[j], spec);
      if ByIds(m.key, spec, m.value, cs[j].value) {
        MergedGuardsAreRegular(m.value.items, cs[j].value.items);
      } else if m.value.Obj? && cs[j].value.Obj? {
        MergedIsRegular(m.value, cs[j].value, EndsWith(m.key, "spec"));
      }
    }
  }

  lemma RegularIds(gs: seq<Json>)
    requires RegularGuards(gs)
    ensures Distinct(Ids(gs))
  {
  }

  lemma {:induction false} MergedGuardsAreRegular(ps: seq<Json>, cs: seq<Json>)
    requires RegularGuards(ps) && RegularGuards(cs) && GuardsMergeable(ps, cs)
    ensures RegularGuards(MergedGuards(ps, cs))
    decreases ps, 1
  {
    RegularIds(ps);
    RegularIds(cs);
    IdsStayDistinct(ps, cs);
    var r := MergedGuards(ps, cs);
    forall i, j | 0 <= i < j < |r| ensures GuardKey(r[i]) != GuardKey(r[j]) {
      assert Ids(r)[i] != Ids(r)[j];
    }
    KeptAreRegular(ps, cs);
    AddedAreRegular(ps, cs);
  }

  lemma {:induction false} KeptAreRegular(ps: seq<Json>, cs: seq<Json>)
    requires RegularGuards(cs) && GuardsOk(cs) && EachMergeable(ps, cs)
    requires forall i :: 0 <= i < |ps| ==> ps[i].Obj? && Regular(ps[i], false)
    ensures forall i :: 0 <= i < |Kept(ps, cs)| ==> Regular(Kept(ps, cs)[i], false)
    decreases ps, 0
  {
    if ps != [] {
      assert EachMergeable(ps[1..], cs);
      KeptAreRegular(ps[1..], cs);
      if Has(cs, GuardKey(ps[0])) {
        var i := LastByIdIsIn(cs, GuardKey(ps[0]));
        assert GuardMergeable(ps[0], cs);
        if !Marked(cs[i]) {
          MergedIsRegular(ps[0], cs[i], false);
        }
      }
    }
  }

  lemma {:induction false} AddedAreRegular(ps: seq<Json>, cs: seq<Json>)
    requires forall i :: 0 <= i < |cs| ==> Regular(cs[i], false)
    ensures forall i :: 0 <= i < |Added(ps, cs)| ==> Regular(Added(ps, cs)[i], false)
  {
    if cs != [] {
      AddedAreRegular(ps, cs[1..]);
    }
  }

  // ---- what is recorded comes from the child ----

  /** Where q is at or below a recorded change, the merged document has what the child says there, and
      nothing when the change is a removal. */
  ghost predicate FromChild(e: Change, child: Option<Json>, now: Option<Json>) {
    now == if e.kind.Removal? then None else child
  }

  lemma {:induction false} ChildSupplies(p: Json, c: Json, spec: bool, e: Change, q: seq<Step>)
    requires p.Obj? && c.Obj? && Mergeable(p, c, spec) && Regular(p, spec) && Regular(c, spec)
    requires e in Trace(p, c, spec) && Leads(e.at, q)
    ensures FromChild(e, Get(c, spec, q), Get(Merged(p, c, spec), spec, q))
    ensures e.at != [] && e.at[0].Field?
    decreases p, 2
  {
    if e in FieldsTrace(p.members, c.members, spec) {
      var i := FieldsTraceFrom(p.members, c.members, spec, e);
      var m := p.members[i];
      FindAt(p.members, i);
      FindMerged(p, c, spec, m.key);
      var j := FindIndex(c.members, m.key);
      assert FieldMergeable(m, c.members, spec) && RegularField(m, spec) && RegularField(c.members[j], spec);
      var f := UnderFrom(Field(m.key), ValueTrace(m.key, m.value, c.members[j].value, spec), e);
      ChildSuppliesBelow(m.key, m.value, c.members[j].value, spec, f, q[1..]);
    } else {
      var j := NewTraceFrom(p.members, c.members, e);
      FindMerged(p, c, spec, c.members[j].key);
    }
  }

  lemma {:induction false} ChildSuppliesBelow(key: string, p: Json, c: Json, spec: bool, e: Change, q: seq<Step>)
    requires ValueMergeable(key, p, c, spec) && RegularField(Member(key, p), spec) && RegularField(Member(key, c), spec)
    requires e in ValueTrace(key, p, c, spec) && Leads(e.at, q)
    ensures FromChild(e, GetValue(key, c, spec, q), GetValue(key, MergedValue(key, p, c, spec), spec, q))
    decreases p, 3
  {
    if ByIds(key, spec, p, c) {
      ChildSuppliesInGuards(p.items, c.items, e, q);
    } else if p.Obj? && c.Obj? {
      ChildSupplies(p, c, EndsWith(key, "spec"), e, q);
    }
  }

  lemma {:induction false} ChildSuppliesInGuards(ps: seq<Json>, cs: seq<Json>, e: Change, q: seq<Step>)
    requires GuardsMergeable(ps, cs) && RegularGuards(ps) && RegularGuards(cs)
    requires e in KeptTrace(ps, cs) + AddedTrace(ps, cs) && Leads(e.at, q)
    ensures FromChild(e, GetValue("guards", Arr(cs), true, q), GetValue("guards", Arr(MergedGuards(ps, cs)), true, q))
    decreases ps, 0
  {
    RegularIds(cs);
    if e in KeptTrace(ps, cs) {
      var i := KeptTraceFrom(ps, cs, e);
      var g, key := ps[i], GuardKey(ps[i]);
      LastByIdOfUnique(ps, i);
      LastByIdConcat(Kept(ps, cs), Added(ps, cs), key);
      LastByIdKept(ps, cs, key);
      NotAdded(ps, cs, key);
      var j := LastByIdIsIn(cs, key);
      if !Marked(cs[j]) {
        assert GuardMergeable(g, cs) && Regular(cs[j], false);
        var f := UnderFrom(Guard(IdOf(g)), Trace(g, cs[j], false), e);
        ChildSupplies(g, cs[j], false, f, q[1..]);
      }
    } else {
      var j := AddedTraceFrom(ps, cs, e);
      var key := GuardKey(cs[j]);
      LastByIdConcat(Kept(ps, cs), Added(ps, cs), key);
      LastByIdAddedMarked(ps, cs, key);
    }
  }

  // ---- any number of layers ----

  /** The document after the first n layers on top of the base; layer 0 is the base. */
  function Composed(base: Json, layers: seq<Json>, n: nat): Json
    requires n <= |layers|
  {
    if n == 0 then base else Merged(Composed(base, layers, n - 1), layers[n - 1], false)
  }

  /** One line of the trace: replaced is the layer composed just before. */
  datatype Line = Line(change: Change, layer: nat, replaced: Option<nat>)

  predicate Replaces(kind: Kind) {
    kind.Override? || kind.Removal? || kind.Root?
  }

  function LinesOf(t: seq<Change>, n: nat): (r: seq<Line>)
    requires n > 0
    ensures |r| == |t|
    ensures forall i :: 0 <= i < |t| ==> r[i] == Line(t[i], n, if Replaces(t[i].kind) then Some(n - 1) else None)
  {
    seq(|t|, i requires 0 <= i < |t| => Line(t[i], n, if Replaces(t[i].kind) then Some(n - 1) else None))
  }

  function TraceOf(base: Json, layers: seq<Json>, n: nat): seq<Change>
    requires 0 < n <= |layers|
  {
    Trace(Composed(base, layers, n - 1), layers[n - 1], false)
  }

  function Entries(base: Json, layers: seq<Json>, n: nat): (r: seq<Line>)
    requires n <= |layers|
    ensures forall i :: 0 <= i < |r| ==> 0 < r[i].layer <= n
  {
    if n == 0 then [] else Entries(base, layers, n - 1) + LinesOf(TraceOf(base, layers, n), n)
  }

  /** The last entry at or above a path. */
  function LastAt(es: seq<Line>, q: seq<Step>): Option<Line> {
    if es == [] then None
    else if Leads(es[|es| - 1].change.at, q) then Some(es[|es| - 1])
    else LastAt(es[..|es| - 1], q)
  }

  /** The layer the trace names for a path: that of the last entry at or above it, else the base. */
  function Origin(es: seq<Line>, q: seq<Step>): nat {
    if LastAt(es, q).Some? then LastAt(es, q).value.layer else 0
  }

  /** A dict with distinct keys and guard ids. */
  ghost predicate Layer(v: Json) {
    v.Obj? && Regular(v, false)
  }

  ghost predicate Fits(base: Json, layers: seq<Json>, i: nat)
    requires i < |layers|
  {
    Layer(layers[i]) && Mergeable(Composed(base, layers, i), layers[i], false)
  }

  /** Layers on which no merge raises an error. */
  ghost predicate Composable(base: Json, layers: seq<Json>) {
    Layer(base) && forall i {:trigger Fits(base, layers, i)} :: 0 <= i < |layers| ==> Fits(base, layers, i)
  }

  lemma MergedIsLayer(p: Json, c: Json)
    requires Layer(p) && Layer(c) && Mergeable(p, c, false)
    ensures Layer(Merged(p, c, false))
  {
    MergedIsRegular(p, c, false);
  }

  lemma {:induction false} ComposedIsLayer(base: Json, layers: seq<Json>, n: nat)
    requires Composable(base, layers) && n <= |layers|
    ensures Layer(Composed(base, layers, n))
  {
    if n > 0 {
      ComposedIsLayer(base, layers, n - 1);
      assert Fits(base, layers, n - 1);
      MergedIsLayer(Composed(base, layers, n - 1), layers[n - 1]);
    }
  }

  lemma {:induction false} LastAtConcat(a: seq<Line>, b: seq<Line>, q: seq<Step>)
    ensures LastAt(a + b, q) == if LastAt(b, q).Some? then LastAt(b, q) else LastAt(a, q)
  {
    if b == [] {
      assert a + b == a;
    } else {
      assert (a + b)[..|a + b| - 1] == a + b[..|b| - 1];
      LastAtConcat(a, b[..|b| - 1], q);
    }
  }

  lemma {:induction false} LastAtIsIn(es: seq<Line>, q: seq<Step>)
    ensures LastAt(es, q).Some? ==> LastAt(es, q).value in es && Leads(LastAt(es, q).value.change.at, q)
    ensures LastAt(es, q).None? ==> forall e :: e in es ==> !Leads(e.change.at, q)
  {
    if es != [] {
      LastAtIsIn(es[..|es| - 1], q);
      assert es == es[..|es| - 1] + [es[|es| - 1]];
    }
  }

  /** No later layer recorded a change at or below q. */
  ghost predicate QuietAfter(es: seq<Line>, k: nat, q: seq<Step>) {
    forall e :: e in es && e.layer > k ==> !Leads(q, e.change.at)
  }

  /** What entries promise of the value now at a path, by the last of them at or above it: nothing is
      there when it is a removal, and otherwise it agrees with the layer named. */
  ghost predicate Told(es: seq<Line>, base: Json, layers: seq<Json>, q: seq<Step>, now: Option<Json>) {
    var l := LastAt(es, q);
    if l.None? then Agree(Get(base, false, q), now, QuietAfter(es, 0, q))
    else if l.value.change.kind.Removal? then now.None?
    else (0 < l.value.layer <= |layers|
      && Agree(Get(layers[l.value.layer - 1], false, q), now, QuietAfter(es, l.value.layer, q)))
  }

  lemma LinesAreTheTrace(t: seq<Change>, n: nat, q: seq<Step>)
    requires n > 0
    ensures LastAt(LinesOf(t, n), q).Some? ==>
      LastAt(LinesOf(t, n), q).value.layer == n && LastAt(LinesOf(t, n), q).value.change in t
      && Leads(LastAt(LinesOf(t, n), q).value.change.at, q)
    ensures LastAt(LinesOf(t, n), q).None? ==> Untouched(t, q)
  {
    var es := LinesOf(t, n);
    LastAtIsIn(es, q);
    if LastAt(es, q).Some? {
      var i :| 0 <= i < |es| && es[i] == LastAt(es, q).value;
    } else {
      forall e | e in t ensures !Leads(e.at, q) {
        var i :| 0 <= i < |t| && t[i] == e;
        assert es[i] in es;
      }
    }
  }

  lemma QuietSplits(es: seq<Line>, t: seq<Change>, n: nat, k: nat, q: seq<Step>)
    requires k < n && QuietAfter(es + LinesOf(t, n), k, q)
    ensures QuietAfter(es, k, q) && Quiet(t, q)
  {
    forall e | e in t ensures !Leads(q, e.at) {
      var i :| 0 <= i < |t| && t[i] == e;
      assert LinesOf(t, n)[i] in es + LinesOf(t, n);
    }
  }

  lemma SameAgrees(x: Option<Json>, quiet: bool)
    ensures Agree(x, x, quiet)
  {
  }

  lemma AgreeChains(x: Option<Json>, y: Option<Json>, z: Option<Json>, a: bool, b: bool)
    requires Agree(x, y, a) && Agree(y, z, b)
    ensures Agree(x, z, a && b)
  {
  }

  /** A layer that records a change at or above q supplies what is there. */
  lemma NewSource(es: seq<Line>, t: seq<Change>, n: nat, base: Json, layers: seq<Json>, q: seq<Step>, now: Option<Json>)
    requires 0 < n <= |layers| && LastAt(LinesOf(t, n), q).Some?
    requires FromChild(LastAt(LinesOf(t, n), q).value.change, Get(layers[n - 1], false, q), now)
    ensures Told(es + LinesOf(t, n), base, layers, q, now)
  {
    LastAtConcat(es, LinesOf(t, n), q);
    LinesAreTheTrace(t, n, q);
    SameAgrees(now, QuietAfter(es + LinesOf(t, n), n, q));
  }

  /** Any other layer leaves the source as it was. */
  lemma OldSource(es: seq<Line>, t: seq<Change>, n: nat, base: Json, layers: seq<Json>, q: seq<Step>,
      before: Option<Json>, now: Option<Json>)
    requires n > 0 && LastAt(LinesOf(t, n), q).None? && Origin(es, q) < n
    requires Told(es, base, layers, q, before) && Agree(before, now, Quiet(t, q))
    ensures Told(es + LinesOf(t, n), base, layers, q, now)
  {
    var k, l := Origin(es, q), LastAt(es, q);
    LastAtConcat(es, LinesOf(t, n), q);
    if QuietAfter(es + LinesOf(t, n), k, q) {
      QuietSplits(es, t, n, k, q);
    }
    if l.None? {
      AgreeChains(Get(base, false, q), before, now, QuietAfter(es, 0, q), Quiet(t, q));
    } else if !l.value.change.kind.Removal? {
      AgreeChains(Get(layers[k - 1], false, q), before, now, QuietAfter(es, k, q), Quiet(t, q));
    }
  }

  /** What one merge does to the value at q: with a change recorded at or above q it comes from the
      child, and otherwise it agrees with what was there. */
  lemma MergeTells(p: Json, c: Json, n: nat, q: seq<Step>)
    requires Layer(p) && Layer(c) && Mergeable(p, c, false) && n > 0
    ensures var l, now := LastAt(LinesOf(Trace(p, c, false), n), q), Get(Merged(p, c, false), false, q);
      if l.Some? then FromChild(l.value.change, Get(c, false, q), now)
      else Agree(Get(p, false, q), now, Quiet(Trace(p, c, false), q))
  {
    var t := Trace(p, c, false);
    LinesAreTheTrace(t, n, q);
    var l := LastAt(LinesOf(t, n), q);
    if l.Some? {
      ChildSupplies(p, c, false, l.value.change, q);
    } else {
      TraceIsComplete(p, c, false, q);
    }
  }

  /** One more layer, with es the lines and p the document before it. */
  lemma LayerTells(es: seq<Line>, p: Json, n: nat, base: Json, layers: seq<Json>, q: seq<Step>,
      more: seq<Line>, merged: Json)
    requires 0 < n <= |layers| && Layer(layers[n - 1]) && Layer(p) && Mergeable(p, layers[n - 1], false)
    requires Told(es, base, layers, q, Get(p, false, q)) && Origin(es, q) < n
    requires more == es + LinesOf(Trace(p, layers[n - 1], false), n) && merged == Merged(p, layers[n - 1], false)
    ensures Told(more, base, layers, q, Get(merged, false, q))
  {
    var t, now := Trace(p, layers[n - 1], false), Get(merged, false, q);
    MergeTells(p, layers[n - 1], n, q);
    if LastAt(LinesOf(t, n), q).Some? {
      NewSource(es, t, n, base, layers, q, now);
    } else {
      OldSource(es, t, n, base, layers, q, Get(p, false, q), now);
    }
  }

  /** Over any number of layers the last entry at or above a path names the layer that supplied what the
      final document has there: the base when there is none, and nothing is left when it is a removal.
      The two agree, and are equal when no later layer changed anything below. */
  lemma {:induction false} LastEntryNamesTheSource(base: Json, layers: seq<Json>, n: nat, q: seq<Step>)
    requires Composable(base, layers) && n <= |layers|
    ensures Told(Entries(base, layers, n), base, layers, q, Get(Composed(base, layers, n), false, q))
  {
    if n == 0 {
      SameAgrees(Get(base, false, q), QuietAfter([], 0, q));
    } else {
      LastEntryNamesTheSource(base, layers, n - 1, q);
      LayerFits(base, layers, n);
      OriginIsLastIff(base, layers, n - 1, q);
      OneMore(base, layers, n);
      LayerTells(Entries(base, layers, n - 1), Composed(base, layers, n - 1), n, base, layers, q,
        Entries(base, layers, n), Composed(base, layers, n));
    }
  }

  lemma LayerFits(base: Json, layers: seq<Json>, n: nat)
    requires Composable(base, layers) && 0 < n <= |layers|
    ensures Layer(Composed(base, layers, n - 1)) && Layer(layers[n - 1])
    ensures Mergeable(Composed(base, layers, n - 1), layers[n - 1], false)
  {
    ComposedIsLayer(base, layers, n - 1);
    assert Fits(base, layers, n - 1);
  }

  lemma OneMore(base: Json, layers: seq<Json>, n: nat)
    requires 0 < n <= |layers|
    ensures Composed(base, layers, n) == Merged(Composed(base, layers, n - 1), layers[n - 1], false)
    ensures Entries(base, layers, n)
      == Entries(base, layers, n - 1) + LinesOf(Trace(Composed(base, layers, n - 1), layers[n - 1], false), n)
  {
  }

  lemma OriginOfMore(es: seq<Line>, t: seq<Change>, n: nat, q: seq<Step>, more: seq<Line>)
    requires n > 0 && Origin(es, q) < n && more == es + LinesOf(t, n)
    ensures Origin(more, q) == if Untouched(t, q) then Origin(es, q) else n
  {
    LastAtConcat(es, LinesOf(t, n), q);
    LinesAreTheTrace(t, n, q);
  }

  lemma OriginIsBounded(es: seq<Line>, n: nat, q: seq<Step>)
    requires forall i :: 0 <= i < |es| ==> es[i].layer <= n
    ensures Origin(es, q) <= n
  {
    LastAtIsIn(es, q);
  }

  /** The trace names the last layer composed exactly when that layer recorded a change at or above q. */
  lemma OriginIsLastIff(base: Json, layers: seq<Json>, n: nat, q: seq<Step>)
    requires n <= |layers|
    ensures Origin(Entries(base, layers, n), q) <= n
    ensures Origin(Entries(base, layers, n), q) == n <==> n == 0 || !Untouched(TraceOf(base, layers, n), q)
  {
    OriginIsBounded(Entries(base, layers, n), n, q);
    if n > 0 {
      OriginIsBounded(Entries(base, layers, n - 1), n - 1, q);
      OriginOfMore(Entries(base, layers, n - 1), TraceOf(base, layers, n), n, q, Entries(base, layers, n));
    }
  }

  /** An entry's replaced names the layer composed just before. That layer is the one the old value came
      from exactly when it is the base or itself recorded a change at or above the path. */
  lemma ReplacedIsTheSourceIff(base: Json, layers: seq<Json>, n: nat, i: nat)
    requires 0 < n <= |layers| && i < |TraceOf(base, layers, n)|
    requires var e := LinesOf(TraceOf(base, layers, n), n)[i]; e.replaced.Some?
    ensures var e := LinesOf(TraceOf(base, layers, n), n)[i];
      e.replaced.value == Origin(Entries(base, layers, n - 1), e.change.at)
      <==> n == 1 || !Untouched(TraceOf(base, layers, n - 1), e.change.at)
  {
    OriginIsLastIff(base, layers, n - 1, TraceOf(base, layers, n)[i].at);
  }

  /** A value of the base replaced by the second layer, the first having nothing to say: replaced names
      the first layer, the value came from the base. */
  lemma ReplacedMayMissTheSource()
    ensures var base, layers := K(1), [Obj([]), K(2)];
      && TraceOf(base, layers, 2) == [Change([Field("k")], Override)]
      && LinesOf(TraceOf(base, layers, 2), 2)[0].replaced == Some(1)
      && Origin(Entries(base, layers, 1), [Field("k")]) == 0
  {
    var base, layers := K(1), [Obj([]), K(2)];
    EmptyChildTrace(base, false);
    assert Composed(base, layers, 0) == base && Composed(base, layers, 1) == base;
    assert TraceOf(base, layers, 1) == [];
    OriginIsLastIff(base, layers, 1, [Field("k")]);
    OverrideOfK();
  }

  function K(i: int): Json {
    Obj([Member("k", Num(Int(i)))])
  }

  lemma OverrideOfK()
    ensures Trace(K(1), K(2), false) == [Change([Field("k")], Override)]
  {
    var p, c := K(1).members, K(2).members;
    assert !PyEq(Num(Int(1)), Num(Int(2)));
    assert ValueTrace("k", p[0].value, c[0].value, false) == [Change([], Override)];
    assert Cons(Field("k"), []) == [Field("k")];
    assert Under(Field("k"), [Change([], Override)]) == [Change([Field("k")], Override)];
    assert FieldTrace(p[0], c, false) == [Change([Field("k")], Override)];
    assert FieldsTrace(p[1..], c, false) == [] && NewTrace(p, c[1..]) == [];
  }
}
