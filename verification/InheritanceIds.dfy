/** Merging a layer with itself, and which ids a merged guard list holds. */
module InheritanceIds {
  import opened Utf8
  import opened Json
  import opened Inheritance
  import opened InheritanceLaws
  import opened InheritanceTrace

  // ---- a layer merged with itself ----

  /** No guard of a list merged by id carries a removal marker. */
  predicate MarkerFree(v: Json, spec: bool)
    decreases v, 0
  {
    v.Obj? ==> forall i :: 0 <= i < |v.members| ==> MarkerFreeField(v.members[i], spec)
  }

  predicate MarkerFreeField(m: Member, spec: bool)
    decreases m, 1
  {
    if m.key == "guards" && spec && m.value.Arr? then MarkerFreeGuards(m.value.items)
    else MarkerFree(m.value, EndsWith(m.key, "spec"))
  }

  predicate MarkerFreeGuards(gs: seq<Json>)
    decreases gs, 1
  {
    forall i :: 0 <= i < |gs| ==> !Marked(gs[i]) && MarkerFree(gs[i], false)
  }

  /** Merging a layer with itself returns it with an empty trace exactly when it is free of removal
      markers. */
  lemma {:induction false} SelfMerge(p: Json, spec: bool)
    requires p.Obj? && Regular(p, spec) && Mergeable(p, p, spec)
    ensures Trace(p, p, spec) == [] <==> MarkerFree(p, spec)
    ensures MarkerFree(p, spec) ==> Merged(p, p, spec) == p
    decreases p, 2
  {
    var ms := p.members;
    SelfMergeFields(ms, ms, spec);
    NothingNew(ms, ms);
    assert Trace(p, p, spec) == FieldsTrace(ms, ms, spec) + [];
    assert Merged(p, p, spec) == Obj(Overlaid(ms, ms, spec) + []);
    if MarkerFree(p, spec) {
      SameMembers(Overlaid(ms, ms, spec), ms);
    }
  }

  lemma SameMembers(a: seq<Member>, b: seq<Member>)
    requires |a| == |b| && forall i :: 0 <= i < |a| ==> a[i] == b[i]
    ensures a + [] == b
  {
  }

  lemma {:induction false} NothingNew(ps: seq<Member>, cs: seq<Member>)
    requires forall x :: x in cs ==> x in ps
    ensures NewMembers(ps, cs) == [] && NewTrace(ps, cs) == []
  {
    if cs != [] {
      assert cs[0] in cs;
      var i :| 0 <= i < |ps| && ps[i] == cs[0];
      FindSome(ps, i);
      NothingNew(ps, cs[1..]);
    }
  }

  lemma {:induction false} FindSome(ps: seq<Member>, i: nat)
    requires i < |ps|
    ensures Find(ps, ps[i].key).Some?
  {
    if i > 0 {
      FindSome(ps[1..], i - 1);
    }
  }

  /** ps is the part of the members ms still to be looked at. */
  lemma {:induction false} SelfMergeFields(ps: seq<Member>, ms: seq<Member>, spec: bool)
    requires DistinctKeys(ms) && |ps| <= |ms| && ms[|ms| - |ps|..] == ps
    requires forall i :: 0 <= i < |ps| ==> RegularField(ps[i], spec) && FieldMergeable(ps[i], ms, spec)
    ensures FieldsTrace(ps, ms, spec) == [] <==> forall i :: 0 <= i < |ps| ==> MarkerFreeField(ps[i], spec)
    ensures FieldsTrace(ps, ms, spec) == [] ==>
      forall i :: 0 <= i < |ps| ==> MergedField(ps[i], ms, spec) == ps[i].value
    decreases ps, 3
  {
    if ps != [] {
      var k := |ms| - |ps|;
      assert ms[k] == ps[0] && ms[k + 1..] == ps[1..];
      FindAt(ms, k);
      SelfMergeField(ps[0], ms, spec);
      SelfMergeFields(ps[1..], ms, spec);
      assert FieldsTrace(ps, ms, spec) == [] <==>
        FieldTrace(ps[0], ms, spec) == [] && FieldsTrace(ps[1..], ms, spec) == [];
      assert forall i :: 0 < i < |ps| ==> ps[i] == ps[1..][i - 1];
    }
  }

  lemma {:induction false} SelfMergeField(m: Member, ms: seq<Member>, spec: bool)
    requires Find(ms, m.key) == Some(m.value) && RegularField(m, spec) && FieldMergeable(m, ms, spec)
    ensures FieldTrace(m, ms, spec) == [] <==> MarkerFreeField(m, spec)
    ensures FieldTrace(m, ms, spec) == [] ==> MergedField(m, ms, spec) == m.value
    decreases m, 2
  {
    SelfMergeValue(m.key, m.value, spec);
    var part := ValueTrace(m.key, m.value, m.value, spec);
    assert FieldTrace(m, ms, spec) == Under(Field(m.key), part);
    assert |FieldTrace(m, ms, spec)| == |part|;
  }

  lemma {:induction false} SelfMergeValue(key: string, p: Json, spec: bool)
    requires RegularField(Member(key, p), spec) && ValueMergeable(key, p, p, spec)
    ensures ValueTrace(key, p, p, spec) == [] <==> MarkerFreeField(Member(key, p), spec)
    ensures ValueTrace(key, p, p, spec) == [] ==> MergedValue(key, p, p, spec) == p
    decreases p, 4
  {
    if ByIds(key, spec, p, p) {
      SelfMergeGuards(p.items, p.items);
      NothingAdded(p.items, p.items);
    } else if p.Obj? {
      SelfMerge(p, EndsWith(key, "spec"));
      if Trace(p, p, EndsWith(key, "spec")) == [] {
        SelfMergeFields(p.members, p.members, EndsWith(key, "spec"));
      }
    }
  }

  lemma {:induction false} NothingAdded(ps: seq<Json>, cs: seq<Json>)
    requires GuardsOk(ps) && forall i :: 0 <= i < |cs| ==> cs[i] in ps
    ensures Added(ps, cs) == [] && AddedTrace(ps, cs) == []
  {
    if cs != [] {
      var i :| 0 <= i < |ps| && ps[i] == cs[0];
      LastByIdFinds(ps, i);
      NothingAdded(ps, cs[1..]);
    }
  }

  lemma {:induction false} SelfMergeGuard(g: Json, gs: seq<Json>)
    requires Regular(g, false) && GuardOk(g) && GuardMergeable(g, gs) && LastById(gs, GuardKey(g)) == Some(g)
    ensures GuardTrace(g, gs) == [] <==> !Marked(g) && MarkerFree(g, false)
    ensures GuardTrace(g, gs) == [] ==> Merged(g, g, false) == g
    decreases g, 5
  {
    if !Marked(g) {
      SelfMerge(g, false);
      SelfMergeFields(g.members, g.members, false);
      var part := Trace(g, g, false);
      assert GuardTrace(g, gs) == Under(Guard(IdOf(g)), part);
      assert |GuardTrace(g, gs)| == |part|;
    }
  }

  lemma {:induction false} SelfMergeGuards(ps: seq<Json>, gs: seq<Json>)
    requires RegularGuards(gs) && GuardsOk(gs) && |ps| <= |gs| && gs[|gs| - |ps|..] == ps
    requires EachMergeable(ps, gs)
    ensures KeptTrace(ps, gs) == [] <==> MarkerFreeGuards(ps)
    ensures KeptTrace(ps, gs) == [] ==> Kept(ps, gs) == ps
    decreases ps, 3
  {
    if ps != [] {
      var k := |gs| - |ps|;
      assert gs[k] == ps[0] && gs[k + 1..] == ps[1..];
      LastByIdOfUnique(gs, k);
      assert EachMergeable(ps[1..], gs);
      SelfMergeGuards(ps[1..], gs);
      assert GuardMergeable(ps[0], gs);
      SelfMergeGuard(ps[0], gs);
      MarkerFreeSplits(ps);
      assert ps == Cons(ps[0], ps[1..]);
    }
  }

  lemma MarkerFreeSplits(gs: seq<Json>)
    requires gs != []
    ensures MarkerFreeGuards(gs) <==> !Marked(gs[0]) && MarkerFree(gs[0], false) && MarkerFreeGuards(gs[1..])
  {
    assert gs == [gs[0]] + gs[1..];
  }

  /** With a repeated id it can change the layer: the last of the guards is merged into each of them. */
  lemma RepeatedIdsAreNotIdempotent()
    ensures var g, h := Obj([Member("id", Str("x")), Member("n", Num(Int(1)))]), X;
      Merged(Guards([h, g]), Guards([h, g]), false) == Guards([g, g])
  {
    var g, h := Obj([Member("id", Str("x")), Member("n", Num(Int(1)))]), X;
    assert h.members[1..] == [] && g.members[1..] == [Member("n", Num(Int(1)))];
    assert IdOf(g) == Str("x") && IdOf(h) == Str("x") && !Marked(g) && !Marked(h);
    assert LastById([h, g], Str("x")) == Some(g);
    MergeAll(g, h);
    assert [h, g][1..] == [g] && [g][1..] == [];
    assert Kept([g], [h, g]) == [g];
    assert Kept([h, g], [h, g]) == Cons(Merged(h, g, false), Kept([g], [h, g]));
    NothingAdded([h, g], [h, g]);
    assert MergedGuards([h, g], [h, g]) == [g, g];
    MergedGuardDocs([h, g], [h, g]);
  }

  lemma MergeAll(g: Json, h: Json)
    requires g == Obj([Member("id", Str("x")), Member("n", Num(Int(1)))]) && h == X
    ensures Merged(h, g, false) == g && Merged(g, g, false) == g
  {
    assert h.members[1..] == [] && g.members[1..] == [Member("n", Num(Int(1)))] && g.members[1..][1..] == [];
    assert NewMembers(h.members, g.members[1..]) == g.members[1..];
    assert NewMembers(h.members, g.members) == g.members[1..];
    assert Overlaid(h.members, g.members, false) == h.members;
    assert NewMembers(g.members, g.members) == [] by {
      assert NewMembers(g.members, g.members[1..]) == [];
    }
    assert Overlaid(g.members, g.members, false) == g.members;
  }

  // ---- the ids of a merged guard list ----

  function Ids(gs: seq<Json>): (ids: seq<Json>)
    ensures |ids| == |gs| && forall i :: 0 <= i < |gs| ==> ids[i] == GuardKey(gs[i])
  {
    seq(|gs|, i requires 0 <= i < |gs| => GuardKey(gs[i]))
  }

  /** What is left of a list without the members of a set. */
  ghost function Without(ids: seq<Json>, out: iset<Json>): seq<Json> {
    if ids == [] then []
    else if ids[0] in out then Without(ids[1..], out)
    else Cons(ids[0], Without(ids[1..], out))
  }

  /** The ids that the child list removes. */
  ghost function RemovedBy(cs: seq<Json>): iset<Json> {
    iset id | LastById(cs, id).Some? && Marked(LastById(cs, id).value)
  }

  /** The ids a child's guard may not have to count as new. */
  ghost function NotNew(ps: seq<Json>, cs: seq<Json>): iset<Json> {
    iset id | LastById(ps, id).Some? || id in RemovedBy(cs)
  }

  predicate Distinct(ids: seq<Json>) {
    forall i, j :: 0 <= i < j < |ids| ==> ids[i] != ids[j]
  }

  /** The parent's ids in order without the removed ones, then the child's new ids in order. */
  lemma IdsOfMerged(ps: seq<Json>, cs: seq<Json>)
    requires GuardsOk(ps) && GuardsOk(cs) && Distinct(Ids(cs))
    ensures Ids(MergedGuards(ps, cs)) == Without(Ids(ps), RemovedBy(cs)) + Without(Ids(cs), NotNew(ps, cs))
  {
    IdsOfKept(ps, cs);
    IdsOfAdded(ps, cs, cs);
    IdsConcat(Kept(ps, cs), Added(ps, cs));
  }

  lemma IdsConcat(a: seq<Json>, b: seq<Json>)
    ensures Ids(a + b) == Ids(a) + Ids(b)
  {
  }

  /** They are distinct again. */
  lemma IdsStayDistinct(ps: seq<Json>, cs: seq<Json>)
    requires GuardsOk(ps) && GuardsOk(cs) && Distinct(Ids(ps)) && Distinct(Ids(cs))
    ensures Distinct(Ids(MergedGuards(ps, cs)))
  {
    IdsOfMerged(ps, cs);
    WithoutKeepsDistinct(Ids(ps), RemovedBy(cs));
    WithoutKeepsDistinct(Ids(cs), NotNew(ps, cs));
    forall id | id in Ids(ps) ensures id in NotNew(ps, cs) {
      var k :| 0 <= k < |ps| && Ids(ps)[k] == id;
      LastByIdFinds(ps, k);
    }
    DistinctConcat(Without(Ids(ps), RemovedBy(cs)), Without(Ids(cs), NotNew(ps, cs)), NotNew(ps, cs));
  }

  lemma DistinctConcat(a: seq<Json>, b: seq<Json>, s: iset<Json>)
    requires Distinct(a) && Distinct(b)
    requires forall id :: id in a ==> id in s
    requires forall id :: id in b ==> id !in s
    ensures Distinct(a + b)
  {
    forall i, j | 0 <= i < |a| && 0 <= j < |b| ensures a[i] != b[j] {
      assert a[i] in a && b[j] in b;
    }
  }

  lemma {:induction false} WithoutKeepsDistinct(ids: seq<Json>, out: iset<Json>)
    requires Distinct(ids)
    ensures Distinct(Without(ids, out))
    ensures forall id :: id in Without(ids, out) ==> id in ids && id !in out
  {
    if ids != [] {
      WithoutKeepsDistinct(ids[1..], out);
      var rest := Without(ids[1..], out);
      forall i | 0 <= i < |rest| ensures rest[i] != ids[0] {
        assert rest[i] in rest;
      }
    }
  }

  lemma {:induction false} IdsOfKept(ps: seq<Json>, cs: seq<Json>)
    requires GuardsOk(ps) && GuardsOk(cs)
    ensures Ids(Kept(ps, cs)) == Without(Ids(ps), RemovedBy(cs))
  {
    if ps != [] {
      IdsOfKept(ps[1..], cs);
      assert Ids(ps)[1..] == Ids(ps[1..]);
      var c := LastById(cs, GuardKey(ps[0]));
      if c.Some? && !Marked(c.value) {
        var i := LastByIdIsIn(cs, GuardKey(ps[0]));
        MergedGuardKeepsId(ps[0], c.value);
        assert Ids(Kept(ps, cs)) == Cons(GuardKey(ps[0]), Ids(Kept(ps[1..], cs)));
      } else if c.None? {
        assert Ids(Kept(ps, cs)) == Cons(GuardKey(ps[0]), Ids(Kept(ps[1..], cs)));
      }
    }
  }

  /** cs is what is left to look at of the child list gs. */
  lemma {:induction false} IdsOfAdded(ps: seq<Json>, cs: seq<Json>, gs: seq<Json>)
    requires GuardsOk(gs) && Distinct(Ids(gs)) && |cs| <= |gs| && gs[|gs| - |cs|..] == cs
    ensures Ids(Added(ps, cs)) == Without(Ids(cs), NotNew(ps, gs))
  {
    if cs != [] {
      var k := |gs| - |cs|;
      assert gs[k] == cs[0] && gs[k + 1..] == cs[1..];
      IdsOfAdded(ps, cs[1..], gs);
      assert Ids(cs)[1..] == Ids(cs[1..]);
      LastByIdOfDistinct(gs, k);
      var isNew := GuardKey(cs[0]) !in NotNew(ps, gs);
      assert isNew <==> !(LastById(ps, GuardKey(cs[0])).Some? || Marked(cs[0]));
      if isNew {
        IdsConcat([cs[0]], Added(ps, cs[1..]));
        assert Ids([cs[0]]) == [GuardKey(cs[0])];
      }
    }
  }

  lemma {:induction false} LastByIdOfDistinct(gs: seq<Json>, i: nat)
    requires GuardsOk(gs) && Distinct(Ids(gs)) && i < |gs|
    ensures LastById(gs, GuardKey(gs[i])) == Some(gs[i])
  {
    if i < |gs| - 1 {
      var front := gs[..|gs| - 1];
      assert forall k :: 0 <= k < |front| ==> Ids(front)[k] == Ids(gs)[k];
      assert Ids(gs)[i] != Ids(gs)[|gs| - 1];
      LastByIdOfDistinct(front, i);
    }
  }

  // ---- the traces of the empty layer ----

  /** Onto the empty layer every key of the child is recorded: the trace is empty only for an empty child. */
  lemma EmptyParentTrace(c: Json, spec: bool)
    requires c.Obj?
    ensures |Trace(Obj([]), c, spec)| == |c.members|
    ensures forall i :: 0 <= i < |c.members| ==> Trace(Obj([]), c, spec)[i] == Change([Field(c.members[i].key)], NewKey)
  {
    AllNewTraced(c.members);
  }

  lemma {:induction false} AllNewTraced(cs: seq<Member>)
    ensures |NewTrace([], cs)| == |cs|
    ensures forall i :: 0 <= i < |cs| ==> NewTrace([], cs)[i] == Change([Field(cs[i].key)], NewKey)
  {
    if cs != [] {
      AllNewTraced(cs[1..]);
    }
  }

  /** The empty child is the other unit, and its trace is empty. */
  lemma EmptyChildTrace(p: Json, spec: bool)
    requires p.Obj?
    ensures Merged(p, Obj([]), spec) == p && Trace(p, Obj([]), spec) == []
  {
    EmptyChild(p, spec);
    NothingTraced(p.members, spec);
  }

  lemma {:induction false} NothingTraced(ps: seq<Member>, spec: bool)
    ensures FieldsTrace(ps, [], spec) == []
  {
    if ps != [] {
      NothingTraced(ps[1..], spec);
    }
  }
}
