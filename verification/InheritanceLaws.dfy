/** When the order of composing three layers does not matter, and merging a layer with itself. */
module InheritanceLaws {
  import opened Utf8
  import opened Json
  import opened Inheritance

  ghost predicate Unmarked(gs: seq<Json>) {
    forall i :: 0 <= i < |gs| ==> !Marked(gs[i])
  }

  // ---- the by-id index ----

  lemma {:induction false} LastByIdIsIn(gs: seq<Json>, key: Json) returns (i: nat)
    requires LastById(gs, key).Some?
    ensures i < |gs| && gs[i] == LastById(gs, key).value && gs[i].Obj? && GuardKey(gs[i]) == key
  {
    if gs[|gs| - 1].Obj? && GuardKey(gs[|gs| - 1]) == key {
      i := |gs| - 1;
    } else {
      i := LastByIdIsIn(gs[..|gs| - 1], key);
    }
  }

  lemma {:induction false} LastByIdConcat(a: seq<Json>, b: seq<Json>, key: Json)
    ensures LastById(a + b, key) == if LastById(b, key).Some? then LastById(b, key) else LastById(a, key)
  {
    if b == [] {
      assert a + b == a;
    } else {
      assert (a + b)[..|a + b| - 1] == a + b[..|b| - 1];
      LastByIdConcat(a, b[..|b| - 1], key);
    }
  }

  /** Found exactly when some guard has the id. */
  lemma {:induction false} LastByIdFinds(gs: seq<Json>, i: nat)
    requires i < |gs| && gs[i].Obj?
    ensures LastById(gs, GuardKey(gs[i])).Some?
  {
    if i < |gs| - 1 {
      LastByIdFinds(gs[..|gs| - 1], i);
    }
  }

  // ---- guards keep their id and stay unmarked ----

  predicate GuardOk(g: Json) {
    g.Obj? && !IdOf(g).Obj? && !IdOf(g).Arr?
  }

  /** What one parent guard becomes, when nothing is removed. */
  function With(g: Json, cs: seq<Json>): Json {
    var c := LastById(cs, GuardKey(g));
    if c.None? then g else Merged(g, c.value, false)
  }

  lemma MergedGuardKeepsId(g: Json, c: Json)
    requires GuardOk(g) && GuardOk(c) && GuardKey(g) == GuardKey(c)
    ensures GuardOk(Merged(g, c, false)) && GuardKey(Merged(g, c, false)) == GuardKey(g)
  {
    FindMerged(g, c, false, "id");
  }

  lemma MergedGuardStaysUnmarked(g: Json, c: Json)
    requires g.Obj? && c.Obj? && !Marked(g) && !Marked(c)
    ensures !Marked(Merged(g, c, false))
  {
    FindMerged(g, c, false, "__remove__");
    EmptyChild(Obj([]), false);
    EmptyChild(Obj([]), true);
  }

  lemma WithKeepsId(g: Json, cs: seq<Json>)
    requires GuardOk(g) && GuardsOk(cs)
    ensures GuardOk(With(g, cs)) && GuardKey(With(g, cs)) == GuardKey(g)
    ensures !Marked(g) && Unmarked(cs) ==> !Marked(With(g, cs))
  {
    if LastById(cs, GuardKey(g)).Some? {
      var i := LastByIdIsIn(cs, GuardKey(g));
      MergedGuardKeepsId(g, cs[i]);
      if !Marked(g) && Unmarked(cs) {
        MergedGuardStaysUnmarked(g, cs[i]);
      }
    }
  }

  // ---- kept and added guards when nothing is marked ----

  lemma {:induction false} KeptAll(ps: seq<Json>, cs: seq<Json>)
    requires Unmarked(cs)
    ensures |Kept(ps, cs)| == |ps|
    ensures forall i :: 0 <= i < |ps| ==> Kept(ps, cs)[i] == With(ps[i], cs)
  {
    if ps != [] {
      KeptAll(ps[1..], cs);
      var c := LastById(cs, GuardKey(ps[0]));
      if c.Some? {
        var i := LastByIdIsIn(cs, GuardKey(ps[0]));
      }
    }
  }

  lemma KeptConcat(a: seq<Json>, b: seq<Json>, cs: seq<Json>)
    requires Unmarked(cs)
    ensures Kept(a + b, cs) == Kept(a, cs) + Kept(b, cs)
  {
    KeptAll(a, cs);
    KeptAll(b, cs);
    KeptAll(a + b, cs);
  }

  lemma {:induction false} AddedConcat(ps: seq<Json>, a: seq<Json>, b: seq<Json>)
    ensures Added(ps, a + b) == Added(ps, a) + Added(ps, b)
  {
    if a == [] {
      assert a + b == b;
    } else {
      assert (a + b)[1..] == a[1..] + b;
      AddedConcat(ps, a[1..], b);
    }
  }

  /** The guard of an id among those kept: the parent's, merged or removed. */
  function KeptGuard(ps: seq<Json>, cs: seq<Json>, key: Json): Option<Json> {
    var g, c := LastById(ps, key), LastById(cs, key);
    if g.None? || c.None? then g
    else if Marked(c.value) then None
    else Some(Merged(g.value, c.value, false))
  }

  /** What the child leaves of one guard, as a list of none or one. */
  function LeftOf(g: Json, cs: seq<Json>): seq<Json> {
    var c := LastById(cs, GuardKey(g));
    if c.None? then [g] else if Marked(c.value) then [] else [Merged(g, c.value, false)]
  }

  lemma LastByIdHead(g: Json, cs: seq<Json>, key: Json)
    requires GuardOk(g) && GuardsOk(cs)
    ensures LastById(LeftOf(g, cs), key) == KeptGuard([g], cs, key)
  {
    var c := LastById(cs, GuardKey(g));
    assert [g][..0] == [];
    if c.Some? && !Marked(c.value) {
      var i := LastByIdIsIn(cs, GuardKey(g));
      MergedGuardKeepsId(g, c.value);
      assert [Merged(g, c.value, false)][..0] == [];
    }
  }

  lemma {:induction false} LastByIdKept(ps: seq<Json>, cs: seq<Json>, key: Json)
    requires GuardsOk(ps) && GuardsOk(cs)
    ensures LastById(Kept(ps, cs), key) == KeptGuard(ps, cs, key)
  {
    if ps != [] {
      LastByIdKept(ps[1..], cs, key);
      LastByIdConcat([ps[0]], ps[1..], key);
      assert ps == [ps[0]] + ps[1..];
      LastByIdHead(ps[0], cs, key);
      assert Kept(ps, cs) == LeftOf(ps[0], cs) + Kept(ps[1..], cs);
      LastByIdConcat(LeftOf(ps[0], cs), Kept(ps[1..], cs), key);
    }
  }

  lemma {:induction false} LastByIdAdded(ps: seq<Json>, cs: seq<Json>, key: Json)
    requires Unmarked(cs)
    ensures LastById(Added(ps, cs), key) == if LastById(ps, key).Some? then None else LastById(cs, key)
  {
    if cs != [] {
      LastByIdAdded(ps, cs[1..], key);
      assert cs == [cs[0]] + cs[1..];
      LastByIdConcat([cs[0]], cs[1..], key);
      LastByIdConcat([cs[0]], Added(ps, cs[1..]), key);
    }
  }

  lemma LastByIdMerged(ps: seq<Json>, cs: seq<Json>, key: Json)
    requires GuardsOk(ps) && GuardsOk(cs) && Unmarked(cs)
    ensures LastById(MergedGuards(ps, cs), key)
      == if LastById(ps, key).Some? then Some(With(LastById(ps, key).value, cs)) else LastById(cs, key)
  {
    LastByIdConcat(Kept(ps, cs), Added(ps, cs), key);
    LastByIdKept(ps, cs, key);
    LastByIdAdded(ps, cs, key);
    if LastById(ps, key).Some? {
      var i := LastByIdIsIn(ps, key);
      if LastById(cs, key).Some? {
        var j := LastByIdIsIn(cs, key);
      }
    }
  }

  // ---- three layers ----

  /** Layers that agree enough: wherever the outer two would be merged, the middle one can be merged
      with both, and no guard of the second or third layer carries a removal marker. */
  ghost predicate Aligned(a: Json, b: Json, c: Json, spec: bool)
    decreases a, 1
  {
    && a.Obj? && b.Obj? && c.Obj?
    && forall i :: 0 <= i < |a.members| ==> AlignedField(a.members[i], b.members, c.members, spec)
  }

  ghost predicate AlignedField(m: Member, bs: seq<Member>, cs: seq<Member>, spec: bool)
    decreases m, 0
  {
    var b, c := Find(bs, m.key), Find(cs, m.key);
    b.Some? && c.Some? ==> AlignedValue(m.key, m.value, b.value, c.value, spec)
  }

  ghost predicate AlignedValue(key: string, a: Json, b: Json, c: Json, spec: bool)
    decreases a, 2
  {
    if ByIds(key, spec, a, c) then b.Arr? && AlignedGuards(a.items, b.items, c.items)
    else a.Obj? && c.Obj? ==> Aligned(a, b, c, EndsWith(key, "spec"))
  }

  ghost predicate AlignedGuards(a: seq<Json>, b: seq<Json>, c: seq<Json>)
    decreases a, 1
  {
    && GuardsOk(a) && GuardsOk(b) && GuardsOk(c) && Unmarked(b) && Unmarked(c)
    && forall i :: 0 <= i < |a| ==> AlignedGuard(a[i], b, c)
  }

  ghost predicate AlignedGuard(g: Json, b: seq<Json>, c: seq<Json>)
    decreases g, 2
  {
    var h, k := LastById(b, GuardKey(g)), LastById(c, GuardKey(g));
    h.Some? && k.Some? ==> Aligned(g, h.value, k.value, false)
  }

  // ---- associativity: members ----

  lemma {:induction false} NewConcat(ps: seq<Member>, a: seq<Member>, b: seq<Member>)
    ensures NewMembers(ps, a + b) == NewMembers(ps, a) + NewMembers(ps, b)
  {
    if a == [] {
      assert a + b == b;
    } else {
      assert (a + b)[1..] == a[1..] + b;
      NewConcat(ps, a[1..], b);
    }
  }

  /** New members keep the child's order whether or not the child is itself overlaid. */
  lemma {:induction false} OverlaidNew(a: seq<Member>, b: seq<Member>, cs: seq<Member>, spec: bool)
    ensures Overlaid(NewMembers(a, b), cs, spec) == NewMembers(a, Overlaid(b, cs, spec))
  {
    if b != [] {
      OverlaidNew(a, b[1..], cs, spec);
      var o := Overlaid(b, cs, spec);
      assert o[1..] == Overlaid(b[1..], cs, spec);
      assert o[0] == Member(b[0].key, MergedField(b[0], cs, spec));
      if Find(a, b[0].key).None? {
        var n := NewMembers(a, b);
        assert n[0] == b[0] && n[1..] == NewMembers(a, b[1..]);
        assert Overlaid(n, cs, spec) == Cons(o[0], Overlaid(n[1..], cs, spec));
      }
    }
  }

  lemma {:induction false} NewNew(a: seq<Member>, b: seq<Member>, cs: seq<Member>, spec: bool)
    ensures NewMembers(Merged(Obj(a), Obj(b), spec).members, cs) == NewMembers(a, NewMembers(b, cs))
  {
    if cs != [] {
      NewNew(a, b, cs[1..], spec);
      FindMerged(Obj(a), Obj(b), spec, cs[0].key);
    }
  }

  /** Composing three aligned layers in either order gives one document, key order included. */
  lemma {:induction false} Associative(a: Json, b: Json, c: Json, spec: bool)
    requires Aligned(a, b, c, spec)
    ensures Merged(Merged(a, b, spec), c, spec) == Merged(a, Merged(b, c, spec), spec)
    decreases a, 1
  {
    var A, B, C := a.members, b.members, c.members;
    var bc := Merged(b, c, spec).members;
    forall i | 0 <= i < |A| ensures FieldsAssociate(A[i], B, C, spec) {
      AssociativeField(A[i], b, c, spec);
    }
    OverlaidTwice(A, B, C, spec);
    OverlaidConcat(Overlaid(A, B, spec), NewMembers(A, B), C, spec);
    OverlaidNew(A, B, C, spec);
    NewNew(A, B, C, spec);
    NewConcat(A, Overlaid(B, C, spec), NewMembers(B, C));
    assert bc == Overlaid(B, C, spec) + NewMembers(B, C);
  }

  lemma OverlaidConcat(a: seq<Member>, b: seq<Member>, cs: seq<Member>, spec: bool)
    ensures Overlaid(a + b, cs, spec) == Overlaid(a, cs, spec) + Overlaid(b, cs, spec)
  {
  }

  lemma OverlaidTwice(a: seq<Member>, b: seq<Member>, cs: seq<Member>, spec: bool)
    requires forall i :: 0 <= i < |a| ==> FieldsAssociate(a[i], b, cs, spec)
    ensures Overlaid(Overlaid(a, b, spec), cs, spec) == Overlaid(a, Merged(Obj(b), Obj(cs), spec).members, spec)
  {
    var x, y := Overlaid(Overlaid(a, b, spec), cs, spec), Overlaid(a, Merged(Obj(b), Obj(cs), spec).members, spec);
    forall i | 0 <= i < |a| ensures x[i] == y[i] {
      assert FieldsAssociate(a[i], b, cs, spec);
    }
  }

  ghost predicate FieldsAssociate(m: Member, bs: seq<Member>, cs: seq<Member>, spec: bool) {
    MergedField(Member(m.key, MergedField(m, bs, spec)), cs, spec)
      == MergedField(m, Merged(Obj(bs), Obj(cs), spec).members, spec)
  }

  lemma {:induction false} AssociativeField(m: Member, b: Json, c: Json, spec: bool)
    requires b.Obj? && c.Obj? && AlignedField(m, b.members, c.members, spec)
    ensures FieldsAssociate(m, b.members, c.members, spec)
    decreases m, 0
  {
    FindMerged(b, c, spec, m.key);
    var bv, cv := Find(b.members, m.key), Find(c.members, m.key);
    if bv.Some? && cv.Some? {
      AssociativeValue(m.key, m.value, bv.value, cv.value, spec);
    }
  }

  lemma {:induction false} AssociativeValue(key: string, a: Json, b: Json, c: Json, spec: bool)
    requires AlignedValue(key, a, b, c, spec)
    ensures MergedValue(key, MergedValue(key, a, b, spec), c, spec)
      == MergedValue(key, a, MergedValue(key, b, c, spec), spec)
    decreases a, 2
  {
    if ByIds(key, spec, a, c) {
      AssociativeGuards(a.items, b.items, c.items);
    } else if a.Obj? && c.Obj? {
      Associative(a, b, c, EndsWith(key, "spec"));
    }
  }

  // ---- associativity: guards ----

  lemma {:induction false} KeptAdded(a: seq<Json>, b: seq<Json>, cs: seq<Json>)
    requires GuardsOk(b) && GuardsOk(cs) && Unmarked(b) && Unmarked(cs)
    ensures Kept(Added(a, b), cs) == Added(a, Kept(b, cs))
  {
    if b != [] {
      KeptAdded(a, b[1..], cs);
      KeptAll(b, cs);
      KeptAll(b[1..], cs);
      assert Kept(b, cs) == Cons(With(b[0], cs), Kept(b[1..], cs));
      WithKeepsId(b[0], cs);
      if LastById(a, GuardKey(b[0])).None? {
        KeptAll(Added(a, b), cs);
        KeptAll(Added(a, b[1..]), cs);
        assert Kept(Added(a, b), cs) == Cons(With(b[0], cs), Kept(Added(a, b[1..]), cs));
      }
    }
  }

  lemma {:induction false} AddedAdded(a: seq<Json>, b: seq<Json>, cs: seq<Json>)
    requires GuardsOk(a) && GuardsOk(b) && Unmarked(b) && Unmarked(cs)
    ensures Added(MergedGuards(a, b), cs) == Added(a, Added(b, cs))
  {
    if cs != [] {
      AddedAdded(a, b, cs[1..]);
      LastByIdMerged(a, b, GuardKey(cs[0]));
    }
  }

  lemma AddedUnmarked(a: seq<Json>, b: seq<Json>)
    requires GuardsOk(b) && Unmarked(b)
    ensures GuardsOk(Added(a, b)) && Unmarked(Added(a, b))
  {
    if b != [] {
      AddedUnmarked(a, b[1..]);
    }
  }

  lemma MergedUnmarked(b: seq<Json>, c: seq<Json>)
    requires GuardsOk(b) && GuardsOk(c) && Unmarked(b) && Unmarked(c)
    ensures GuardsOk(MergedGuards(b, c)) && Unmarked(MergedGuards(b, c))
  {
    KeptAll(b, c);
    forall i | 0 <= i < |b| ensures GuardOk(With(b[i], c)) && !Marked(With(b[i], c)) {
      WithKeepsId(b[i], c);
    }
    AddedUnmarked(b, c);
  }

  lemma {:induction false} AssociativeGuards(a: seq<Json>, b: seq<Json>, c: seq<Json>)
    requires AlignedGuards(a, b, c)
    ensures MergedGuards(MergedGuards(a, b), c) == MergedGuards(a, MergedGuards(b, c))
    decreases a, 1
  {
    forall i | 0 <= i < |a| ensures With(With(a[i], b), c) == With(a[i], MergedGuards(b, c)) {
      AssociativeGuard(a[i], b, c);
    }
    KeptTwice(a, b, c);
    KeptConcat(Kept(a, b), Added(a, b), c);
    KeptAdded(a, b, c);
    AddedAdded(a, b, c);
    AddedConcat(a, Kept(b, c), Added(b, c));
  }

  lemma KeptTwice(a: seq<Json>, b: seq<Json>, c: seq<Json>)
    requires GuardsOk(b) && GuardsOk(c) && Unmarked(b) && Unmarked(c)
    requires forall i :: 0 <= i < |a| ==> With(With(a[i], b), c) == With(a[i], MergedGuards(b, c))
    ensures Kept(Kept(a, b), c) == Kept(a, MergedGuards(b, c))
  {
    MergedUnmarked(b, c);
    KeptAll(a, b);
    KeptAll(Kept(a, b), c);
    KeptAll(a, MergedGuards(b, c));
  }

  lemma {:induction false} AssociativeGuard(g: Json, b: seq<Json>, c: seq<Json>)
    requires GuardOk(g) && GuardsOk(b) && GuardsOk(c) && Unmarked(b) && Unmarked(c) && AlignedGuard(g, b, c)
    ensures With(With(g, b), c) == With(g, MergedGuards(b, c))
    decreases g, 2
  {
    WithKeepsId(g, b);
    LastByIdMerged(b, c, GuardKey(g));
    var h, k := LastById(b, GuardKey(g)), LastById(c, GuardKey(g));
    if h.Some? {
      var i := LastByIdIsIn(b, GuardKey(g));
      if k.Some? {
        Associative(g, h.value, k.value, false);
      }
    }
  }

  // ---- where it fails ----

  /** With an outer pair of dicts around anything else, the order matters unless the inner layer's
      dict adds nothing the outer merge would keep. */
  lemma MiddleNotMergeable(key: string, a: Json, b: Json, c: Json, spec: bool)
    requires a.Obj? && c.Obj? && !b.Obj?
    ensures MergedValue(key, MergedValue(key, a, b, spec), c, spec)
      == MergedValue(key, a, MergedValue(key, b, c, spec), spec)
      <==> Merged(a, c, EndsWith(key, "spec")) == c
  {
  }

  const X := Obj([Member("id", Str("x"))])
  const REMOVE_X := Obj([Member("id", Str("x")), Member("__remove__", Bool(true))])

  function Guards(gs: seq<Json>): Json {
    Obj([Member("spec", Obj([Member("guards", Arr(gs))]))])
  }

  lemma MergedGuardDocs(a: seq<Json>, b: seq<Json>)
    ensures Merged(Guards(a), Guards(b), false) == Guards(MergedGuards(a, b))
  {
    var p, c := Obj([Member("guards", Arr(a))]), Obj([Member("guards", Arr(b))]);
    assert EndsWith("spec", "spec");
    assert MergedField(p.members[0], c.members, true) == Arr(MergedGuards(a, b));
    assert Overlaid(p.members, c.members, true) == [Member("guards", Arr(MergedGuards(a, b)))];
    assert NewMembers(p.members, c.members) == [];
    assert Merged(p, c, true) == Obj([Member("guards", Arr(MergedGuards(a, b)))]);
    var q, d := Guards(a), Guards(b);
    assert MergedField(q.members[0], d.members, false) == Merged(p, c, true);
    assert Overlaid(q.members, d.members, false) == [Member("spec", Merged(p, c, true))];
    assert NewMembers(q.members, d.members) == [];
  }

  lemma KeptOne(g: Json, cs: seq<Json>)
    ensures var c := LastById(cs, GuardKey(g));
      Kept([g], cs) == if c.None? then [g] else if Marked(c.value) then [] else [Merged(g, c.value, false)]
  {
    assert [g][1..] == [];
  }

  /** A removal marker can break associativity: composed first with a layer that lists the same guard, the
      marker is spent on that layer and the framework's guard comes back. */
  lemma MarkersDoNotAssociate()
    ensures Merged(Merged(Guards([X]), Guards([X]), false), Guards([REMOVE_X]), false) == Guards([])
    ensures Merged(Guards([X]), Merged(Guards([X]), Guards([REMOVE_X]), false), false) == Guards([X])
  {
    assert IdOf(X) == Str("x");
    assert Find(REMOVE_X.members, "__remove__") == Some(Bool(true)) by {
      assert REMOVE_X.members[1..][0] == Member("__remove__", Bool(true));
    }
    assert Marked(REMOVE_X) && !Marked(X);
    assert Merged(X, X, false) == X by {
      assert Overlaid(X.members, X.members, false) == X.members;
      assert NewMembers(X.members, X.members) == [];
    }
    assert LastById([X], Str("x")) == Some(X) && LastById([REMOVE_X], Str("x")) == Some(REMOVE_X);
    KeptOne(X, [X]);
    KeptOne(X, [REMOVE_X]);
    KeptOne(X, []);
    assert [X][1..] == [] && [REMOVE_X][1..] == [];
    assert Added([X], [X]) == [] && Added([X], [REMOVE_X]) == [];
    assert MergedGuards([X], [X]) == [X];
    assert MergedGuards([X], [REMOVE_X]) == [];
    assert MergedGuards([X], []) == [X];
    MergedGuardDocs([X], [X]);
    MergedGuardDocs([X], [REMOVE_X]);
    MergedGuardDocs([X], []);
  }
}
