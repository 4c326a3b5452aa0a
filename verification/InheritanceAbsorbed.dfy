/** When a merge gives back the child: the layer below leaves no mark. */
module InheritanceAbsorbed {
  import opened Utf8
  import opened Json
  import opened Inheritance
  import opened InheritanceLaws
  import opened InheritanceTrace
  import opened InheritanceIds
  import opened InheritanceNoChange

  /** The keys of a are the first keys of c in a's order, and the ids of a guard list of a the first ids
      of the list of c, which carries no removal marker; and so on inside dicts and guards. */
  ghost predicate Absorbed(a: Json, c: Json, spec: bool)
    decreases a, 1
  {
    && a.Obj? && c.Obj? && |a.members| <= |c.members|
    && forall i :: 0 <= i < |a.members| ==>
      && a.members[i].key == c.members[i].key
      && AbsorbedValue(a.members[i].key, a.members[i].value, c.members[i].value, spec)
  }

  ghost predicate AbsorbedValue(key: string, a: Json, c: Json, spec: bool)
    decreases a, 2
  {
    if ByIds(key, spec, a, c) then AbsorbedGuards(a.items, c.items)
    else a.Obj? && c.Obj? ==> Absorbed(a, c, EndsWith(key, "spec"))
  }

  ghost predicate AbsorbedGuards(a: seq<Json>, c: seq<Json>)
    decreases a, 1
  {
    && |a| <= |c| && Unmarked(c)
    && forall i :: 0 <= i < |a| ==> GuardKey(a[i]) == GuardKey(c[i]) && Absorbed(a[i], c[i], false)
  }

  // ---- keys ----

  lemma {:induction false} NewOfNone(ps: seq<Member>, cs: seq<Member>)
    requires forall j :: 0 <= j < |cs| ==> Find(ps, cs[j].key).None?
    ensures NewMembers(ps, cs) == cs
  {
    if cs != [] {
      NewOfNone(ps, cs[1..]);
    }
  }

  lemma {:induction false} NewConcatOf(ps: seq<Member>, a: seq<Member>, b: seq<Member>)
    requires (forall j :: 0 <= j < |a| ==> Find(ps, a[j].key).Some?)
    requires forall j :: 0 <= j < |b| ==> Find(ps, b[j].key).None?
    ensures NewMembers(ps, a + b) == b
  {
    NewConcat(ps, a, b);
    NoNewIff(ps, a);
    NewOfNone(ps, b);
  }

  lemma {:induction false} FindNone(ms: seq<Member>, key: string)
    ensures Find(ms, key).None? <==> forall i :: 0 <= i < |ms| ==> ms[i].key != key
  {
    if ms != [] {
      FindNone(ms[1..], key);
      assert forall i :: 0 < i < |ms| ==> ms[i] == ms[1..][i - 1];
    }
  }

  /** The keys of a are the first of c in order. */
  ghost predicate LeadKeys(a: seq<Member>, c: seq<Member>) {
    |a| <= |c| && forall i :: 0 <= i < |a| ==> a[i].key == c[i].key
  }

  /** With the keys of a leading, the new members are the others of c. */
  lemma NewOfLeading(a: seq<Member>, c: seq<Member>)
    requires DistinctKeys(c) && LeadKeys(a, c)
    ensures NewMembers(a, c) == c[|a|..]
  {
    var head, rest := c[..|a|], c[|a|..];
    assert c == head + rest;
    forall j | 0 <= j < |head| ensures Find(a, head[j].key).Some? {
      FindSome(a, j);
    }
    forall j | 0 <= j < |rest| ensures Find(a, rest[j].key).None? {
      FindNone(a, rest[j].key);
    }
    NewConcatOf(a, head, rest);
  }

  /** A merge of dicts gives back the child exactly when the parent's keys lead the child's and each value
      of the child comes back. */
  lemma MergedIsChildIff(a: seq<Member>, c: seq<Member>, spec: bool)
    requires DistinctKeys(c)
    ensures Merged(Obj(a), Obj(c), spec) == Obj(c)
      <==> (LeadKeys(a, c)
        && forall i :: 0 <= i < |a| ==> MergedValue(a[i].key, a[i].value, c[i].value, spec) == c[i].value)
  {
    var o, n := Overlaid(a, c, spec), NewMembers(a, c);
    if LeadKeys(a, c) {
      NewOfLeading(a, c);
      forall i | 0 <= i < |a| ensures o[i] == Member(c[i].key, MergedValue(a[i].key, a[i].value, c[i].value, spec)) {
        FindAt(c, i);
      }
      WithTheRest(o, c);
    } else if o + n == c {
      forall i | 0 <= i < |a| ensures a[i].key == c[i].key {
        assert (o + n)[i] == o[i];
      }
    }
  }

  // ---- guards ----

  lemma {:induction false} AddedAll(ps: seq<Json>, cs: seq<Json>)
    requires forall j :: 0 <= j < |cs| ==> !Marked(cs[j]) && LastById(ps, GuardKey(cs[j])).None?
    ensures Added(ps, cs) == cs
  {
    if cs != [] {
      AddedAll(ps, cs[1..]);
    }
  }

  lemma {:induction false} NoLast(gs: seq<Json>, key: Json)
    requires forall i :: 0 <= i < |gs| ==> GuardKey(gs[i]) != key
    ensures LastById(gs, key).None?
  {
    if gs != [] {
      NoLast(gs[..|gs| - 1], key);
    }
  }

  ghost predicate LeadsIds(a: seq<Json>, c: seq<Json>) {
    |a| <= |c| && forall i :: 0 <= i < |a| ==> GuardKey(a[i]) == GuardKey(c[i])
  }

  lemma AddedOfLeading(a: seq<Json>, c: seq<Json>)
    requires GuardsOk(a) && GuardsOk(c) && Distinct(Ids(c)) && Unmarked(c) && LeadsIds(a, c)
    ensures Added(a, c) == c[|a|..]
  {
    var head, rest := c[..|a|], c[|a|..];
    assert c == head + rest;
    AddedConcat(a, head, rest);
    forall j | 0 <= j < |head| ensures LastById(a, GuardKey(head[j])).Some? {
      LastByIdFinds(a, j);
    }
    NoAddedIff(a, head);
    forall j | 0 <= j < |rest| ensures LastById(a, GuardKey(rest[j])).None? {
      forall i | 0 <= i < |a| ensures GuardKey(a[i]) != GuardKey(rest[j]) {
        assert Ids(c)[i] != Ids(c)[|a| + j];
      }
      NoLast(a, GuardKey(rest[j]));
    }
    AddedAll(a, rest);
  }

  /** No guard of an id that the child removes is in the merged list. */
  lemma MarkedIsGone(a: seq<Json>, c: seq<Json>, j: nat)
    requires GuardsOk(a) && GuardsOk(c) && Distinct(Ids(c)) && j < |c| && Marked(c[j])
    ensures MergedGuards(a, c) != c
  {
    var key := GuardKey(c[j]);
    LastByIdOfDistinct(c, j);
    IdsOfMerged(a, c);
    WithoutHasNot(Ids(a), RemovedBy(c));
    WithoutHasNot(Ids(c), NotNew(a, c));
    assert key !in Ids(MergedGuards(a, c)) && Ids(c)[j] == key;
  }

  lemma {:induction false} WithoutHasNot(ids: seq<Json>, out: iset<Json>)
    ensures forall id :: id in Without(ids, out) ==> id in ids && id !in out
  {
    if ids != [] {
      WithoutHasNot(ids[1..], out);
    }
  }

  /** With the ids of a leading, guard by guard. */
  lemma LeadingGuards(a: seq<Json>, c: seq<Json>)
    requires GuardsOk(a) && GuardsOk(c) && Distinct(Ids(c)) && Unmarked(c) && LeadsIds(a, c)
    ensures MergedGuards(a, c) == c <==> forall i :: 0 <= i < |a| ==> Merged(a[i], c[i], false) == c[i]
  {
    KeptAll(a, c);
    AddedOfLeading(a, c);
    var k := Kept(a, c);
    forall i | 0 <= i < |a| ensures k[i] == Merged(a[i], c[i], false) {
      LastByIdOfDistinct(c, i);
    }
    WithTheRest(k, c);
  }

  lemma WithTheRest<T>(k: seq<T>, c: seq<T>)
    requires |k| <= |c|
    ensures k + c[|k|..] == c <==> forall i :: 0 <= i < |k| ==> k[i] == c[i]
  {
    assert c == c[..|k|] + c[|k|..];
  }

  lemma ChildLeads(a: seq<Json>, c: seq<Json>)
    requires GuardsOk(a) && GuardsOk(c) && Unmarked(c) && MergedGuards(a, c) == c
    ensures LeadsIds(a, c)
  {
    KeptAll(a, c);
    forall i | 0 <= i < |a| ensures GuardKey(a[i]) == GuardKey(c[i]) {
      assert MergedGuards(a, c)[i] == Kept(a, c)[i];
      WithKeepsId(a[i], c);
    }
  }

  lemma MergedGuardsAreChildIff(a: seq<Json>, c: seq<Json>)
    requires GuardsOk(a) && GuardsOk(c) && Distinct(Ids(c))
    ensures MergedGuards(a, c) == c
      <==> Unmarked(c) && LeadsIds(a, c) && forall i :: 0 <= i < |a| ==> Merged(a[i], c[i], false) == c[i]
  {
    if j :| 0 <= j < |c| && Marked(c[j]) {
      MarkedIsGone(a, c, j);
    } else if LeadsIds(a, c) {
      LeadingGuards(a, c);
    } else if MergedGuards(a, c) == c {
      ChildLeads(a, c);
    }
  }

  // ---- documents ----

  lemma {:induction false} AbsorbedIff(a: Json, c: Json, spec: bool)
    requires a.Obj? && c.Obj? && Regular(a, spec) && Regular(c, spec) && Mergeable(a, c, spec)
    ensures Merged(a, c, spec) == c <==> Absorbed(a, c, spec)
    decreases a, 1
  {
    var as', cs := a.members, c.members;
    MergedIsChildIff(as', cs, spec);
    if LeadKeys(as', cs) {
      forall i | 0 <= i < |as'|
        ensures MergedValue(as'[i].key, as'[i].value, cs[i].value, spec) == cs[i].value
          <==> AbsorbedValue(as'[i].key, as'[i].value, cs[i].value, spec)
      {
        FindAt(cs, i);
        assert FieldMergeable(as'[i], cs, spec) && RegularField(as'[i], spec) && RegularField(cs[i], spec);
        AbsorbedValueIff(as'[i].key, as'[i].value, cs[i].value, spec);
      }
    }
  }

  lemma {:induction false} AbsorbedValueIff(key: string, a: Json, c: Json, spec: bool)
    requires RegularField(Member(key, a), spec) && RegularField(Member(key, c), spec) && ValueMergeable(key, a, c, spec)
    ensures MergedValue(key, a, c, spec) == c <==> AbsorbedValue(key, a, c, spec)
    decreases a, 2
  {
    if ByIds(key, spec, a, c) {
      AbsorbedGuardsIff(a.items, c.items);
    } else if a.Obj? && c.Obj? {
      AbsorbedIff(a, c, EndsWith(key, "spec"));
    }
  }

  lemma {:induction false} AbsorbedGuardsIff(a: seq<Json>, c: seq<Json>)
    requires RegularGuards(a) && RegularGuards(c) && GuardsMergeable(a, c)
    ensures MergedGuards(a, c) == c <==> AbsorbedGuards(a, c)
    decreases a, 1
  {
    MergedGuardsAreChildIff(a, c);
    if LeadsIds(a, c) && Unmarked(c) {
      forall i | 0 <= i < |a| ensures Merged(a[i], c[i], false) == c[i] <==> Absorbed(a[i], c[i], false) {
        LastByIdOfUnique(c, i);
        assert GuardMergeable(a[i], c);
        AbsorbedIff(a[i], c[i], false);
      }
    }
  }

  /** With an outer pair of dicts around anything else the order of composition does not matter exactly
      when the last layer absorbs the first. */
  lemma MiddleIsImmaterialIff(key: string, a: Json, b: Json, c: Json, spec: bool)
    requires a.Obj? && c.Obj? && !b.Obj?
    requires Regular(a, EndsWith(key, "spec")) && Regular(c, EndsWith(key, "spec"))
    requires Mergeable(a, c, EndsWith(key, "spec"))
    ensures MergedValue(key, MergedValue(key, a, b, spec), c, spec)
        == MergedValue(key, a, MergedValue(key, b, c, spec), spec)
      <==> Absorbed(a, c, EndsWith(key, "spec"))
  {
    MiddleNotMergeable(key, a, b, c, spec);
    AbsorbedIff(a, c, EndsWith(key, "spec"));
  }
}
