/** When merging a layer changes nothing, and when merging a layer with itself does not, guard ids
    repeated or not. */
module InheritanceNoChange {
  import opened Utf8
  import opened Json
  import opened Inheritance
  import opened InheritanceLaws
  import opened InheritanceTrace
  import opened InheritanceIds

  // ---- a child that says nothing new ----

  /** Every key of the child is in the parent, and every value it gives is the one already there;
      every guard it gives an id for is unmarked and says nothing new, and it only removes guards
      that are not there. */
  predicate Redundant(p: Json, c: Json, spec: bool)
    decreases p, 1
  {
    && p.Obj? && c.Obj?
    && (forall j :: 0 <= j < |c.members| ==> Find(p.members, c.members[j].key).Some?)
    && forall i :: 0 <= i < |p.members| ==> RedundantField(p.members[i], c.members, spec)
  }

  predicate RedundantField(m: Member, cs: seq<Member>, spec: bool)
    decreases m, 0
  {
    var c := Find(cs, m.key);
    c.Some? ==> RedundantValue(m.key, m.value, c.value, spec)
  }

  predicate RedundantValue(key: string, p: Json, c: Json, spec: bool)
    decreases p, 2
  {
    if ByIds(key, spec, p, c) then RedundantGuards(p.items, c.items)
    else if p.Obj? && c.Obj? then Redundant(p, c, EndsWith(key, "spec"))
    else p == c
  }

  predicate RedundantGuards(ps: seq<Json>, cs: seq<Json>)
    decreases ps, 1
  {
    && (forall j :: 0 <= j < |cs| ==> Marked(cs[j]) || LastById(ps, GuardKey(cs[j])).Some?)
    && forall i :: 0 <= i < |ps| ==> RedundantGuard(ps[i], cs)
  }

  predicate RedundantGuard(g: Json, cs: seq<Json>)
    decreases g, 2
  {
    var c := LastById(cs, GuardKey(g));
    c.Some? ==> !Marked(c.value) && Redundant(g, c.value, false)
  }

  // ---- merging it changes nothing ----

  lemma {:induction false} NoNewIff(ps: seq<Member>, cs: seq<Member>)
    ensures NewMembers(ps, cs) == [] <==> forall j :: 0 <= j < |cs| ==> Find(ps, cs[j].key).Some?
    ensures NewMembers(ps, cs) == [] ==> NewTrace(ps, cs) == []
  {
    if cs != [] {
      NoNewIff(ps, cs[1..]);
      assert forall j :: 0 < j < |cs| ==> cs[j] == cs[1..][j - 1];
      assert NewMembers(ps, cs) == [] <==> Find(ps, cs[0].key).Some? && NewMembers(ps, cs[1..]) == [];
    }
  }

  lemma {:induction false} NoAddedIff(ps: seq<Json>, cs: seq<Json>)
    ensures Added(ps, cs) == [] <==> forall j :: 0 <= j < |cs| ==> Marked(cs[j]) || LastById(ps, GuardKey(cs[j])).Some?
    ensures Added(ps, cs) == [] ==> AddedTrace(ps, cs) == []
  {
    if cs != [] {
      NoAddedIff(ps, cs[1..]);
      assert forall j :: 0 < j < |cs| ==> cs[j] == cs[1..][j - 1];
      assert Added(ps, cs) == [] <==>
        (Marked(cs[0]) || LastById(ps, GuardKey(cs[0])).Some?) && Added(ps, cs[1..]) == [];
    }
  }

  /** A merge gives back the parent exactly when the child says nothing new, and then records
      nothing. */
  lemma {:induction false} MergeChangesNothing(p: Json, c: Json, spec: bool)
    requires p.Obj? && c.Obj? && Mergeable(p, c, spec)
    ensures Merged(p, c, spec) == p <==> Redundant(p, c, spec)
    ensures Redundant(p, c, spec) ==> Trace(p, c, spec) == []
    decreases p, 1
  {
    var ms, cs := p.members, c.members;
    forall i | 0 <= i < |ms| ensures FieldUnchanged(ms[i], cs, spec) {
      assert FieldMergeable(ms[i], cs, spec);
      UnchangedField(ms[i], cs, spec);
    }
    NoNewIff(ms, cs);
    var o, n := Overlaid(ms, cs, spec), NewMembers(ms, cs);
    assert o + n == ms <==> n == [] && forall i :: 0 <= i < |ms| ==> o[i] == ms[i];
    if Redundant(p, c, spec) {
      QuietFields(ms, cs, spec);
    }
  }

  ghost predicate FieldUnchanged(m: Member, cs: seq<Member>, spec: bool) {
    && (MergedField(m, cs, spec) == m.value <==> RedundantField(m, cs, spec))
    && (RedundantField(m, cs, spec) ==> FieldTrace(m, cs, spec) == [])
  }

  lemma {:induction false} QuietFields(ps: seq<Member>, cs: seq<Member>, spec: bool)
    requires forall i :: 0 <= i < |ps| ==> FieldTrace(ps[i], cs, spec) == []
    ensures FieldsTrace(ps, cs, spec) == []
  {
    if ps != [] {
      QuietFields(ps[1..], cs, spec);
    }
  }

  lemma {:induction false} UnchangedField(m: Member, cs: seq<Member>, spec: bool)
    requires FieldMergeable(m, cs, spec)
    ensures FieldUnchanged(m, cs, spec)
    decreases m, 0
  {
    var c := Find(cs, m.key);
    if c.Some? {
      UnchangedValue(m.key, m.value, c.value, spec);
    }
  }

  lemma {:induction false} UnchangedValue(key: string, p: Json, c: Json, spec: bool)
    requires ValueMergeable(key, p, c, spec)
    ensures MergedValue(key, p, c, spec) == p <==> RedundantValue(key, p, c, spec)
    ensures RedundantValue(key, p, c, spec) ==> ValueTrace(key, p, c, spec) == []
    decreases p, 2
  {
    if ByIds(key, spec, p, c) {
      UnchangedGuards(p.items, c.items);
    } else if p.Obj? && c.Obj? {
      MergeChangesNothing(p, c, EndsWith(key, "spec"));
    }
  }

  lemma {:induction false} UnchangedGuards(ps: seq<Json>, cs: seq<Json>)
    requires GuardsMergeable(ps, cs)
    ensures MergedGuards(ps, cs) == ps <==> RedundantGuards(ps, cs)
    ensures RedundantGuards(ps, cs) ==> KeptTrace(ps, cs) == [] && AddedTrace(ps, cs) == []
    decreases ps, 1
  {
    NoAddedIff(ps, cs);
    UnchangedKept(ps, cs);
    if MergedGuards(ps, cs) == ps && Added(ps, cs) != [] {
      AddedIsForeign(ps, cs);
    }
    assert Added(ps, cs) == [] ==> MergedGuards(ps, cs) == Kept(ps, cs);
  }

  /** A guard that is added has an id the parent list does not have. */
  lemma AddedIsForeign(ps: seq<Json>, cs: seq<Json>)
    requires GuardsOk(ps) && GuardsOk(cs) && Added(ps, cs) != []
    ensures MergedGuards(ps, cs) != ps
  {
    var g := Added(ps, cs)[0];
    var j := AddedFrom(ps, cs);
    if MergedGuards(ps, cs) == ps {
      var i := |Kept(ps, cs)|;
      assert MergedGuards(ps, cs)[i] == g;
      LastByIdFinds(ps, i);
      assert false;
    }
  }

  lemma {:induction false} AddedFrom(ps: seq<Json>, cs: seq<Json>) returns (j: nat)
    requires Added(ps, cs) != []
    ensures j < |cs| && Added(ps, cs)[0] == cs[j] && LastById(ps, GuardKey(cs[j])).None?
  {
    if LastById(ps, GuardKey(cs[0])).Some? || Marked(cs[0]) {
      j := AddedFrom(ps, cs[1..]);
      j := j + 1;
    } else {
      j := 0;
    }
  }

  lemma {:induction false} UnchangedKept(ps: seq<Json>, cs: seq<Json>)
    requires EachMergeable(ps, cs) && GuardsOk(ps) && GuardsOk(cs)
    ensures |Kept(ps, cs)| <= |ps|
    ensures Kept(ps, cs) == ps <==> forall i :: 0 <= i < |ps| ==> RedundantGuard(ps[i], cs)
    ensures Kept(ps, cs) == ps ==> KeptTrace(ps, cs) == []
    decreases ps, 0
  {
    if ps != [] {
      assert EachMergeable(ps[1..], cs);
      UnchangedKept(ps[1..], cs);
      assert GuardMergeable(ps[0], cs);
      UnchangedGuard(ps[0], cs);
      assert forall i :: 0 < i < |ps| ==> ps[i] == ps[1..][i - 1];
      assert ps == Cons(ps[0], ps[1..]);
    }
  }

  lemma {:induction false} UnchangedGuard(g: Json, cs: seq<Json>)
    requires GuardMergeable(g, cs) && GuardOk(g) && GuardsOk(cs)
    ensures var c := LastById(cs, GuardKey(g));
      (c.None? || (!Marked(c.value) && Merged(g, c.value, false) == g)) <==> RedundantGuard(g, cs)
    ensures RedundantGuard(g, cs) ==> GuardTrace(g, cs) == []
    decreases g, 2
  {
    var c := LastById(cs, GuardKey(g));
    if c.Some? && !Marked(c.value) {
      var i := LastByIdIsIn(cs, GuardKey(g));
      MergeChangesNothing(g, c.value, false);
    }
  }

  // ---- a layer and itself ----

  /** In every guard list the last guard of each id is unmarked and says nothing that an earlier one
      of that id does not. */
  predicate Settled(p: Json, spec: bool)
    decreases p, 1
  {
    p.Obj? ==> forall i :: 0 <= i < |p.members| ==> SettledField(p.members[i], spec)
  }

  predicate SettledField(m: Member, spec: bool)
    decreases m, 0
  {
    if ByIds(m.key, spec, m.value, m.value) then SettledGuards(m.value.items)
    else Settled(m.value, EndsWith(m.key, "spec"))
  }

  predicate SettledGuards(gs: seq<Json>)
    decreases gs, 1
  {
    forall i :: 0 <= i < |gs| && LastById(gs, GuardKey(gs[i])).Some? ==>
      var last := LastById(gs, GuardKey(gs[i])).value;
      !Marked(last) && if gs[i] == last then Settled(gs[i], false) else Redundant(gs[i], last, false)
  }

  lemma {:induction false} SettledIsRedundant(p: Json, spec: bool)
    requires p.Obj? && WellFormed(p) && Mergeable(p, p, spec)
    ensures Redundant(p, p, spec) <==> Settled(p, spec)
    decreases p, 1
  {
    var ms := p.members;
    forall i | 0 <= i < |ms| ensures RedundantField(ms[i], ms, spec) <==> SettledField(ms[i], spec) {
      FindAt(ms, i);
      assert FieldMergeable(ms[i], ms, spec);
      SettledValue(ms[i], ms, spec);
    }
    forall j | 0 <= j < |ms| ensures Find(ms, ms[j].key).Some? {
      FindAt(ms, j);
    }
  }

  lemma {:induction false} SettledValue(m: Member, ms: seq<Member>, spec: bool)
    requires Find(ms, m.key) == Some(m.value) && WellFormed(m.value) && FieldMergeable(m, ms, spec)
    ensures RedundantField(m, ms, spec) <==> SettledField(m, spec)
    decreases m, 0
  {
    if ByIds(m.key, spec, m.value, m.value) {
      SettledList(m.value.items);
    } else if m.value.Obj? {
      SettledIsRedundant(m.value, EndsWith(m.key, "spec"));
    }
  }

  lemma {:induction false} SettledList(gs: seq<Json>)
    requires GuardsMergeable(gs, gs) && forall i :: 0 <= i < |gs| ==> WellFormed(gs[i])
    ensures RedundantGuards(gs, gs) <==> SettledGuards(gs)
    decreases gs, 1
  {
    forall i | 0 <= i < |gs| ensures LastById(gs, GuardKey(gs[i])).Some? {
      LastByIdFinds(gs, i);
    }
    forall i | 0 <= i < |gs| && LastById(gs, GuardKey(gs[i])) == Some(gs[i]) && !Marked(gs[i])
      ensures Redundant(gs[i], gs[i], false) <==> Settled(gs[i], false)
    {
      assert GuardMergeable(gs[i], gs);
      SettledIsRedundant(gs[i], false);
    }
  }

  /** Merging a layer with itself gives it back exactly when it is settled, and then records nothing. */
  lemma SelfMergeIff(p: Json, spec: bool)
    requires p.Obj? && WellFormed(p) && Mergeable(p, p, spec)
    ensures Merged(p, p, spec) == p <==> Settled(p, spec)
    ensures Settled(p, spec) ==> Trace(p, p, spec) == []
  {
    MergeChangesNothing(p, p, spec);
    SettledIsRedundant(p, spec);
  }
}
