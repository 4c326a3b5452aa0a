/** The override trace: what it records, and that it records exactly what the merge changed. */
module InheritanceTrace {
  import opened Utf8
  import opened Json
  import opened Inheritance
  import opened InheritanceLaws

  // ---- Python's equality of documents ----

  /** True is 1 and False is 0. */
  function Debool(v: Json): Json {
    match v
    case Bool(b) => Num(Int(if b then 1 else 0))
    case Arr(items) => Arr(seq(|items|, i requires 0 <= i < |items| => Debool(items[i])))
    case Obj(ms) => Obj(seq(|ms|, i requires 0 <= i < |ms| => Member(ms[i].key, Debool(ms[i].value))))
    case _ => v
  }

  /** v == w in Python: member order, the writing of integral floats and bool against int do not count. */
  predicate PyEq(v: Json, w: Json) {
    Canon(Debool(v)) == Canon(Debool(w))
  }

  // ---- what is recorded ----

  datatype Step = Field(key: string) | Guard(id: Json)

  datatype Kind = Root | NewKey | Override | Removal | Addition

  /** A recorded change; its path is relative to the merge that recorded it. */
  datatype Change = Change(at: seq<Step>, kind: Kind)

  function Under(s: Step, cs: seq<Change>): (r: seq<Change>)
    ensures |r| == |cs| && forall i :: 0 <= i < |cs| ==> r[i] == Change(Cons(s, cs[i].at), cs[i].kind)
  {
    seq(|cs|, i requires 0 <= i < |cs| => Change(Cons(s, cs[i].at), cs[i].kind))
  }

  function Trace(p: Json, c: Json, spec: bool): seq<Change>
    decreases p, 2
  {
    if !p.Obj? || !c.Obj? then [Change([], Root)]
    else FieldsTrace(p.members, c.members, spec) + NewTrace(p.members, c.members)
  }

  function FieldsTrace(ps: seq<Member>, cs: seq<Member>, spec: bool): seq<Change>
    decreases ps, 1
  {
    if ps == [] then [] else FieldTrace(ps[0], cs, spec) + FieldsTrace(ps[1..], cs, spec)
  }

  function FieldTrace(m: Member, cs: seq<Member>, spec: bool): seq<Change>
    decreases m, 0
  {
    var c := Find(cs, m.key);
    if c.None? then [] else Under(Field(m.key), ValueTrace(m.key, m.value, c.value, spec))
  }

  function ValueTrace(key: string, p: Json, c: Json, spec: bool): seq<Change>
    decreases p, 3
  {
    if ByIds(key, spec, p, c) then KeptTrace(p.items, c.items) + AddedTrace(p.items, c.items)
    else if p.Obj? && c.Obj? then Trace(p, c, EndsWith(key, "spec"))
    else if PyEq(p, c) then [] else [Change([], Override)]
  }

  function NewTrace(ps: seq<Member>, cs: seq<Member>): seq<Change> {
    if cs == [] then []
    else if Find(ps, cs[0].key).None? then Cons(Change([Field(cs[0].key)], NewKey), NewTrace(ps, cs[1..]))
    else NewTrace(ps, cs[1..])
  }

  function KeptTrace(ps: seq<Json>, cs: seq<Json>): seq<Change>
    decreases ps, 0
  {
    if ps == [] then [] else GuardTrace(ps[0], cs) + KeptTrace(ps[1..], cs)
  }

  function GuardTrace(g: Json, cs: seq<Json>): seq<Change>
    decreases g, 3
  {
    var c := LastById(cs, GuardKey(g));
    if c.None? then []
    else if Marked(c.value) then [Change([Guard(IdOf(g))], Removal)]
    else Under(Guard(IdOf(g)), Trace(g, c.value, false))
  }

  function AddedTrace(ps: seq<Json>, cs: seq<Json>): seq<Change> {
    if cs == [] then []
    else if LastById(ps, GuardKey(cs[0])).Some? || Marked(cs[0]) then AddedTrace(ps, cs[1..])
    else Cons(Change([Guard(IdOf(cs[0]))], Addition), AddedTrace(ps, cs[1..]))
  }

  // ---- paths into documents ----

  /** The value at a path below a document; spec as in Merged. */
  function Get(v: Json, spec: bool, q: seq<Step>): Option<Json>
    decreases |q|, 0
  {
    if q == [] then Some(v)
    else if q[0].Guard? || !v.Obj? then None
    else
      var x := Find(v.members, q[0].key);
      if x.None? then None else GetValue(q[0].key, x.value, spec, q[1..])
  }

  /** The same below the value of a key, where a guard list is entered by id. */
  function GetValue(key: string, v: Json, spec: bool, q: seq<Step>): Option<Json>
    decreases |q|, 1
  {
    if q == [] then Some(v)
    else if q[0].Field? then Get(v, EndsWith(key, "spec"), q)
    else if key != "guards" || !spec || !v.Arr? then None
    else
      var g := LastById(v.items, IdKey(q[0].id));
      if g.None? then None else Get(g.value, false, q[1..])
  }

  predicate SameStep(s: Step, t: Step) {
    if s.Field? then s == t else t.Guard? && IdKey(s.id) == IdKey(t.id)
  }

  /** a is q or leads to q. */
  predicate Leads(a: seq<Step>, q: seq<Step>) {
    a == [] || (q != [] && SameStep(a[0], q[0]) && Leads(a[1..], q[1..]))
  }

  /** No recorded change is at or above q. */
  ghost predicate Untouched(t: seq<Change>, q: seq<Step>) {
    forall e :: e in t ==> !Leads(e.at, q)
  }

  /** No recorded change is at or below q. */
  ghost predicate Quiet(t: seq<Change>, q: seq<Step>) {
    forall e :: e in t ==> !Leads(q, e.at)
  }

  /** The two documents at one path: both there or both missing, both dicts, both lists or both
      neither, and equal when nothing below was recorded. */
  ghost predicate Agree(x: Option<Json>, y: Option<Json>, quiet: bool) {
    && (x.Some? <==> y.Some?)
    && (x.Some? ==> (x.value.Obj? <==> y.value.Obj?) && (x.value.Arr? <==> y.value.Arr?))
    && (x.Some? && quiet ==> PyEq(x.value, y.value))
  }

  // ---- when the merge raises no error ----

  predicate Mergeable(p: Json, c: Json, spec: bool)
    decreases p, 1
  {
    p.Obj? && c.Obj? ==> forall i :: 0 <= i < |p.members| ==> FieldMergeable(p.members[i], c.members, spec)
  }

  predicate FieldMergeable(m: Member, cs: seq<Member>, spec: bool)
    decreases m, 0
  {
    var c := Find(cs, m.key);
    c.Some? ==> ValueMergeable(m.key, m.value, c.value, spec)
  }

  predicate ValueMergeable(key: string, p: Json, c: Json, spec: bool)
    decreases p, 3
  {
    if ByIds(key, spec, p, c) then GuardsMergeable(p.items, c.items)
    else p.Obj? && c.Obj? ==> Mergeable(p, c, EndsWith(key, "spec"))
  }

  predicate GuardsMergeable(ps: seq<Json>, cs: seq<Json>)
    decreases ps, 1
  {
    GuardsOk(ps) && GuardsOk(cs) && EachMergeable(ps, cs)
  }

  predicate EachMergeable(ps: seq<Json>, cs: seq<Json>)
    decreases ps, 0
  {
    forall i :: 0 <= i < |ps| ==> GuardMergeable(ps[i], cs)
  }

  predicate GuardMergeable(g: Json, cs: seq<Json>)
    decreases g, 2
  {
    var c := LastById(cs, GuardKey(g));
    c.Some? && !Marked(c.value) ==> Mergeable(g, c.value, false)
  }

  // ---- nothing recorded, nothing changed ----

  lemma EqualObjects(a: seq<Member>, b: seq<Member>)
    requires |a| == |b| && forall i :: 0 <= i < |a| ==> a[i].key == b[i].key && PyEq(a[i].value, b[i].value)
    ensures PyEq(Obj(a), Obj(b))
  {
    var x, y := Debool(Obj(a)).members, Debool(Obj(b)).members;
    forall i | 0 <= i < |a| ensures CanonMembers(x)[i] == CanonMembers(y)[i] {
      assert PyEq(a[i].value, b[i].value);
    }
    assert CanonMembers(x) == CanonMembers(y);
  }

  lemma {:induction false} NoNew(ps: seq<Member>, cs: seq<Member>)
    requires NewTrace(ps, cs) == []
    ensures NewMembers(ps, cs) == []
  {
    if cs != [] {
      NoNew(ps, cs[1..]);
    }
  }

  lemma {:induction false} NoAdded(ps: seq<Json>, cs: seq<Json>)
    requires AddedTrace(ps, cs) == []
    ensures Added(ps, cs) == []
  {
    if cs != [] {
      NoAdded(ps, cs[1..]);
    }
  }

  /** With an empty trace the merged document equals the parent. */
  lemma {:induction false} NothingRecorded(p: Json, c: Json, spec: bool)
    requires Trace(p, c, spec) == []
    ensures PyEq(Merged(p, c, spec), p)
    decreases p, 2
  {
    NoNew(p.members, c.members);
    NothingRecordedFields(p.members, c.members, spec);
    EqualObjects(Overlaid(p.members, c.members, spec), p.members);
    assert Overlaid(p.members, c.members, spec) + [] == Overlaid(p.members, c.members, spec);
  }

  lemma {:induction false} NothingRecordedFields(ps: seq<Member>, cs: seq<Member>, spec: bool)
    requires FieldsTrace(ps, cs, spec) == []
    ensures forall i :: 0 <= i < |ps| ==> PyEq(MergedField(ps[i], cs, spec), ps[i].value)
    decreases ps, 1
  {
    if ps != [] {
      NothingRecordedFields(ps[1..], cs, spec);
      var c := Find(cs, ps[0].key);
      if c.Some? {
        NothingRecordedValue(ps[0].key, ps[0].value, c.value, spec);
      }
      forall i | 0 <= i < |ps| ensures PyEq(MergedField(ps[i], cs, spec), ps[i].value) {
        assert i > 0 ==> ps[i] == ps[1..][i - 1];
      }
    }
  }

  lemma {:induction false} NothingRecordedValue(key: string, p: Json, c: Json, spec: bool)
    requires ValueTrace(key, p, c, spec) == []
    ensures PyEq(MergedValue(key, p, c, spec), p)
    decreases p, 3
  {
    if ByIds(key, spec, p, c) {
      NoAdded(p.items, c.items);
      NothingRecordedGuards(p.items, c.items);
      assert Kept(p.items, c.items) + [] == Kept(p.items, c.items);
    } else if p.Obj? && c.Obj? {
      NothingRecorded(p, c, EndsWith(key, "spec"));
    }
  }

  lemma {:induction false} NothingRecordedGuards(ps: seq<Json>, cs: seq<Json>)
    requires KeptTrace(ps, cs) == []
    ensures |Kept(ps, cs)| == |ps| && forall i :: 0 <= i < |ps| ==> PyEq(Kept(ps, cs)[i], ps[i])
    decreases ps, 0
  {
    if ps != [] {
      NothingRecordedGuards(ps[1..], cs);
      var c := LastById(cs, GuardKey(ps[0]));
      if c.Some? {
        NothingRecorded(ps[0], c.value, false);
      }
    }
  }

  // ---- the trace of a part ----

  lemma {:induction false} FieldsTraceHas(ps: seq<Member>, cs: seq<Member>, spec: bool, i: nat, e: Change)
    requires i < |ps| && e in FieldTrace(ps[i], cs, spec)
    ensures e in FieldsTrace(ps, cs, spec)
  {
    if i > 0 {
      FieldsTraceHas(ps[1..], cs, spec, i - 1, e);
    }
  }

  lemma {:induction false} NewTraceHas(ps: seq<Member>, cs: seq<Member>, i: nat)
    requires i < |cs| && Find(ps, cs[i].key).None?
    ensures Change([Field(cs[i].key)], NewKey) in NewTrace(ps, cs)
  {
    if i > 0 {
      NewTraceHas(ps, cs[1..], i - 1);
    }
  }

  lemma {:induction false} KeptTraceHas(ps: seq<Json>, cs: seq<Json>, i: nat, e: Change)
    requires i < |ps| && e in GuardTrace(ps[i], cs)
    ensures e in KeptTrace(ps, cs)
  {
    if i > 0 {
      KeptTraceHas(ps[1..], cs, i - 1, e);
    }
  }

  lemma {:induction false} AddedTraceHas(ps: seq<Json>, cs: seq<Json>, i: nat)
    requires i < |cs| && LastById(ps, GuardKey(cs[i])).None? && !Marked(cs[i])
    ensures Change([Guard(IdOf(cs[i]))], Addition) in AddedTrace(ps, cs)
  {
    if i > 0 {
      AddedTraceHas(ps, cs[1..], i - 1);
    }
  }

  // ---- completeness ----

  lemma {:induction false} AddedIsNew(ps: seq<Json>, cs: seq<Json>, key: Json) returns (i: nat)
    requires GuardsOk(cs) && LastById(Added(ps, cs), key).Some?
    ensures i < |cs| && GuardKey(cs[i]) == key && LastById(ps, key).None? && !Marked(cs[i])
  {
    if LastById(ps, GuardKey(cs[0])).Some? || Marked(cs[0]) {
      i := AddedIsNew(ps, cs[1..], key);
      i := i + 1;
    } else {
      LastByIdConcat([cs[0]], Added(ps, cs[1..]), key);
      if LastById(Added(ps, cs[1..]), key).Some? {
        i := AddedIsNew(ps, cs[1..], key);
        i := i + 1;
      } else {
        i := 0;
      }
    }
  }

  lemma QuietAtRoot(t: seq<Change>)
    ensures Quiet(t, []) <==> t == []
  {
    if t != [] {
      assert t[0] in t && Leads([], t[0].at);
    }
  }

  /** At every path that is neither at nor below a recorded change the merged document agrees with the
      parent, and it equals the parent there when no change below is recorded either. */
  lemma {:induction false} TraceIsComplete(p: Json, c: Json, spec: bool, q: seq<Step>)
    requires Mergeable(p, c, spec) && Untouched(Trace(p, c, spec), q)
    ensures Agree(Get(p, spec, q), Get(Merged(p, c, spec), spec, q), Quiet(Trace(p, c, spec), q))
    decreases p, 2
  {
    var t := Trace(p, c, spec);
    if !p.Obj? || !c.Obj? {
      assert t[0] in t && Leads(t[0].at, q);
      assert false;
    }
    if q == [] {
      if Quiet(t, q) {
        QuietAtRoot(t);
        NothingRecorded(p, c, spec);
      }
    } else if q[0].Field? {
      FindMerged(p, c, spec, q[0].key);
      TraceIsCompleteAtKey(p, c, spec, q[0].key, q[1..]);
      assert q == Cons(q[0], q[1..]);
    }
  }

  lemma {:induction false} TraceIsCompleteAtKey(p: Json, c: Json, spec: bool, key: string, r: seq<Step>)
    requires p.Obj? && c.Obj? && Mergeable(p, c, spec) && Untouched(Trace(p, c, spec), Cons(Field(key), r))
    ensures Agree(Get(p, spec, Cons(Field(key), r)), Get(Merged(p, c, spec), spec, Cons(Field(key), r)),
                  Quiet(Trace(p, c, spec), Cons(Field(key), r)))
    decreases p, 1
  {
    FindMerged(p, c, spec, key);
    var q := Cons(Field(key), r);
    assert q[1..] == r;
    var pv, cv := Find(p.members, key), Find(c.members, key);
    if pv.None? && cv.Some? {
      var j := FindIndex(c.members, key);
      NewTraceHas(p.members, c.members, j);
      assert Change([Field(key)], NewKey) in Trace(p, c, spec);
      assert Leads([Field(key)], q);
      assert false;
    }
    if pv.Some? && cv.Some? {
      var i := FindIndex(p.members, key);
      forall e | e in FieldTrace(p.members[i], c.members, spec) ensures e in Trace(p, c, spec) {
        FieldsTraceHas(p.members, c.members, spec, i, e);
      }
      var part := ValueTrace(key, pv.value, cv.value, spec);
      assert FieldMergeable(p.members[i], c.members, spec);
      assert p.members[i].value == pv.value;
      TraceIsCompleteBelow(key, p.members[i].value, cv.value, spec, r);
    }
  }

  lemma {:induction false} TraceIsCompleteBelow(key: string, p: Json, c: Json, spec: bool, r: seq<Step>)
    requires ValueMergeable(key, p, c, spec) && Untouched(ValueTrace(key, p, c, spec), r)
    ensures Agree(GetValue(key, p, spec, r), GetValue(key, MergedValue(key, p, c, spec), spec, r),
                  Quiet(ValueTrace(key, p, c, spec), r))
    decreases p, 3
  {
    var t := ValueTrace(key, p, c, spec);
    if ByIds(key, spec, p, c) {
      if r == [] {
        if Quiet(t, r) {
          QuietAtRoot(t);
          NothingRecordedValue(key, p, c, spec);
        }
      } else if r[0].Guard? {
        TraceIsCompleteAtGuard(p.items, c.items, r[0], r[1..]);
        assert r == Cons(r[0], r[1..]);
      }
    } else if p.Obj? && c.Obj? {
      TraceIsComplete(p, c, EndsWith(key, "spec"), r);
    } else {
      assert PyEq(p, c) by {
        if !PyEq(p, c) {
          assert t[0] in t && Leads(t[0].at, r);
        }
      }
    }
  }

  lemma {:induction false} TraceIsCompleteAtGuard(ps: seq<Json>, cs: seq<Json>, s: Step, r: seq<Step>)
    requires s.Guard? && GuardsMergeable(ps, cs) && Untouched(KeptTrace(ps, cs) + AddedTrace(ps, cs), Cons(s, r))
    ensures Agree(GetValue("guards", Arr(ps), true, Cons(s, r)),
                  GetValue("guards", Arr(MergedGuards(ps, cs)), true, Cons(s, r)),
                  Quiet(KeptTrace(ps, cs) + AddedTrace(ps, cs), Cons(s, r)))
    decreases ps, 0
  {
    var t, key, q := KeptTrace(ps, cs) + AddedTrace(ps, cs), IdKey(s.id), Cons(s, r);
    assert q[1..] == r;
    LastByIdConcat(Kept(ps, cs), Added(ps, cs), key);
    LastByIdKept(ps, cs, key);
    if LastById(Added(ps, cs), key).Some? {
      var j := AddedIsNew(ps, cs, key);
      AddedTraceHas(ps, cs, j);
      assert Change([Guard(IdOf(cs[j]))], Addition) in t;
      assert Leads([Guard(IdOf(cs[j]))], q);
      assert false;
    }
    var g, c := LastById(ps, key), LastById(cs, key);
    if g.Some? && c.Some? {
      var i := LastByIdIsIn(ps, key);
      forall e | e in GuardTrace(ps[i], cs) ensures e in t {
        KeptTraceHas(ps, cs, i, e);
      }
      if Marked(c.value) {
        var e := Change([Guard(IdOf(ps[i]))], Removal);
        assert e in GuardTrace(ps[i], cs);
        assert Leads(e.at, q);
        assert false;
      }
      assert GuardMergeable(ps[i], cs);
      TraceIsComplete(ps[i], c.value, false, r);
    }
  }

  // ---- soundness ----

  /** Documents in which a path names one place: distinct keys, and distinct ids in guard lists. */
  ghost predicate Regular(v: Json, spec: bool)
    decreases v, 0
  {
    v.Obj? ==> DistinctKeys(v.members) && forall i :: 0 <= i < |v.members| ==> RegularField(v.members[i], spec)
  }

  ghost predicate RegularField(m: Member, spec: bool)
    decreases m, 1
  {
    if m.key == "guards" && spec && m.value.Arr? then RegularGuards(m.value.items)
    else Regular(m.value, EndsWith(m.key, "spec"))
  }

  ghost predicate RegularGuards(gs: seq<Json>)
    decreases gs, 1
  {
    && (forall i, j :: 0 <= i < j < |gs| ==> GuardKey(gs[i]) != GuardKey(gs[j]))
    && forall i :: 0 <= i < |gs| ==> Regular(gs[i], false)
  }

  /** What a recorded change says about the two documents at its path. */
  ghost predicate Real(kind: Kind, was: Option<Json>, now: Option<Json>) {
    match kind
    case NewKey => was.None? && now.Some?
    case Addition => was.None? && now.Some?
    case Removal => was.Some? && now.None?
    case Override => was.Some? && now.Some? && !PyEq(was.value, now.value)
    case Root => was.Some? && now.Some?
  }

  lemma {:induction false} FieldsTraceFrom(ps: seq<Member>, cs: seq<Member>, spec: bool, e: Change) returns (i: nat)
    requires e in FieldsTrace(ps, cs, spec)
    ensures i < |ps| && e in FieldTrace(ps[i], cs, spec)
  {
    if e in FieldTrace(ps[0], cs, spec) {
      i := 0;
    } else {
      i := FieldsTraceFrom(ps[1..], cs, spec, e);
      i := i + 1;
    }
  }

  lemma {:induction false} NewTraceFrom(ps: seq<Member>, cs: seq<Member>, e: Change) returns (i: nat)
    requires e in NewTrace(ps, cs)
    ensures i < |cs| && Find(ps, cs[i].key).None? && e == Change([Field(cs[i].key)], NewKey)
    ensures Find(cs, cs[i].key).Some?
  {
    if Find(ps, cs[0].key).None? && e == Change([Field(cs[0].key)], NewKey) {
      i := 0;
    } else {
      i := NewTraceFrom(ps, cs[1..], e);
      i := i + 1;
    }
  }

  lemma {:induction false} KeptTraceFrom(ps: seq<Json>, cs: seq<Json>, e: Change) returns (i: nat)
    requires e in KeptTrace(ps, cs)
    ensures i < |ps| && e in GuardTrace(ps[i], cs)
  {
    if e in GuardTrace(ps[0], cs) {
      i := 0;
    } else {
      i := KeptTraceFrom(ps[1..], cs, e);
      i := i + 1;
    }
  }

  lemma {:induction false} AddedTraceFrom(ps: seq<Json>, cs: seq<Json>, e: Change) returns (i: nat)
    requires GuardsOk(cs) && e in AddedTrace(ps, cs)
    ensures i < |cs| && LastById(ps, GuardKey(cs[i])).None? && e == Change([Guard(IdOf(cs[i]))], Addition)
    ensures LastById(Added(ps, cs), GuardKey(cs[i])).Some?
  {
    if LastById(ps, GuardKey(cs[0])).Some? || Marked(cs[0]) {
      i := AddedTraceFrom(ps, cs[1..], e);
      i := i + 1;
    } else {
      if e == Change([Guard(IdOf(cs[0]))], Addition) {
        i := 0;
      } else {
        i := AddedTraceFrom(ps, cs[1..], e);
        i := i + 1;
      }
      LastByIdConcat([cs[0]], Added(ps, cs[1..]), GuardKey(cs[i]));
    }
  }

  lemma {:induction false} LastByIdOfUnique(gs: seq<Json>, i: nat)
    requires RegularGuards(gs) && GuardsOk(gs) && i < |gs|
    ensures LastById(gs, GuardKey(gs[i])) == Some(gs[i])
  {
    if i < |gs| - 1 {
      LastByIdOfUnique(gs[..|gs| - 1], i);
    }
  }

  lemma UnderFrom(s: Step, part: seq<Change>, e: Change) returns (f: Change)
    requires e in Under(s, part)
    ensures f in part && e == Change(Cons(s, f.at), f.kind)
    ensures e.at != [] && e.at[0] == s && e.at[1..] == f.at
  {
    var i :| 0 <= i < |part| && Under(s, part)[i] == e;
    f := part[i];
    assert Cons(s, f.at)[1..] == f.at;
  }

  /** Every recorded change is a real one: at its path the merged document differs from the parent in
      the way recorded. */
  lemma {:induction false} TraceIsSound(p: Json, c: Json, spec: bool, e: Change)
    requires Mergeable(p, c, spec) && Regular(p, spec) && e in Trace(p, c, spec)
    ensures Real(e.kind, Get(p, spec, e.at), Get(Merged(p, c, spec), spec, e.at))
    decreases p, 2
  {
    if p.Obj? && c.Obj? {
      if e in FieldsTrace(p.members, c.members, spec) {
        var i := FieldsTraceFrom(p.members, c.members, spec, e);
        var m := p.members[i];
        FindAt(p.members, i);
        FindMerged(p, c, spec, m.key);
        var cv := Find(c.members, m.key).value;
        assert FieldMergeable(m, c.members, spec) && RegularField(m, spec);
        var f := UnderFrom(Field(m.key), ValueTrace(m.key, m.value, cv, spec), e);
        TraceIsSoundBelow(m.key, m.value, cv, spec, f);
      } else {
        var j := NewTraceFrom(p.members, c.members, e);
        FindMerged(p, c, spec, c.members[j].key);
      }
    }
  }

  lemma {:induction false} TraceIsSoundBelow(key: string, p: Json, c: Json, spec: bool, e: Change)
    requires ValueMergeable(key, p, c, spec) && RegularField(Member(key, p), spec) && e in ValueTrace(key, p, c, spec)
    ensures Real(e.kind, GetValue(key, p, spec, e.at), GetValue(key, MergedValue(key, p, c, spec), spec, e.at))
    decreases p, 3
  {
    if ByIds(key, spec, p, c) {
      TraceIsSoundInGuards(p.items, c.items, e);
    } else if p.Obj? && c.Obj? {
      TraceIsSound(p, c, EndsWith(key, "spec"), e);
    }
  }

  lemma {:induction false} TraceIsSoundInGuards(ps: seq<Json>, cs: seq<Json>, e: Change)
    requires GuardsMergeable(ps, cs) && RegularGuards(ps) && e in KeptTrace(ps, cs) + AddedTrace(ps, cs)
    ensures Real(e.kind, GetValue("guards", Arr(ps), true, e.at),
      GetValue("guards", Arr(MergedGuards(ps, cs)), true, e.at))
    decreases ps, 0
  {
    if e in KeptTrace(ps, cs) {
      var i := KeptTraceFrom(ps, cs, e);
      var g, key := ps[i], GuardKey(ps[i]);
      LastByIdOfUnique(ps, i);
      LastByIdConcat(Kept(ps, cs), Added(ps, cs), key);
      LastByIdKept(ps, cs, key);
      var c := LastById(cs, key).value;
      NotAdded(ps, cs, key);
      if !Marked(c) {
        assert GuardMergeable(g, cs);
        var f := UnderFrom(Guard(IdOf(g)), Trace(g, c, false), e);
        TraceIsSound(g, c, false, f);
      }
    } else {
      var j := AddedTraceFrom(ps, cs, e);
      LastByIdConcat(Kept(ps, cs), Added(ps, cs), GuardKey(cs[j]));
    }
  }

  lemma NotAdded(ps: seq<Json>, cs: seq<Json>, key: Json)
    requires GuardsOk(cs) && LastById(ps, key).Some?
    ensures LastById(Added(ps, cs), key).None?
  {
    if LastById(Added(ps, cs), key).Some? {
      var i := AddedIsNew(ps, cs, key);
    }
  }
}
