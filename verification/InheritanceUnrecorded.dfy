/** What the override trace cannot see: a bool in the place of the number it counts as. */
module InheritanceUnrecorded {
  import opened Utf8
  import opened Json
  import opened Inheritance
  import opened InheritanceTrace

  /** Somewhere the two documents have a bool against a number. */
  predicate BoolMeetsNumber(v: Json, w: Json) {
    match v
    case Bool(_) => w.Num?
    case Num(_) => w.Bool?
    case Arr(items) => w.Arr? && exists i :: 0 <= i < |items| && i < |w.items| && BoolMeetsNumber(items[i], w.items[i])
    case Obj(ms) => w.Obj? && exists i :: 0 <= i < |ms| && MeetsAt(ms[i], w.members)
    case _ => false
  }

  predicate MeetsAt(m: Member, ws: seq<Member>) {
    Find(ws, m.key).Some? && BoolMeetsNumber(m.value, Find(ws, m.key).value)
  }

  function DeboolMembers(ms: seq<Member>): (r: seq<Member>)
    ensures |r| == |ms| && forall i :: 0 <= i < |ms| ==> r[i] == Member(ms[i].key, Debool(ms[i].value))
  {
    seq(|ms|, i requires 0 <= i < |ms| => Member(ms[i].key, Debool(ms[i].value)))
  }

  lemma {:induction false} FindDebool(ms: seq<Member>, key: string)
    ensures Find(DeboolMembers(ms), key)
      == if Find(ms, key).None? then None else Some(Debool(Find(ms, key).value))
  {
    if ms != [] {
      FindDebool(ms[1..], key);
      assert DeboolMembers(ms)[1..] == DeboolMembers(ms[1..]);
    }
  }

  lemma {:induction false} DeboolWellFormed(v: Json)
    requires WellFormed(v)
    ensures WellFormed(Debool(v))
  {
    match v
    case Arr(items) =>
      forall i | 0 <= i < |items| ensures WellFormed(Debool(items[i])) {
        DeboolWellFormed(items[i]);
      }
    case Obj(ms) =>
      forall i | 0 <= i < |ms| ensures WellFormed(Debool(ms[i].value)) {
        DeboolWellFormed(ms[i].value);
      }
    case _ =>
  }

  /** Documents equal once bools are numbers are the same exactly when no bool meets a number. */
  lemma {:induction false} SameUnlessBools(v: Json, w: Json)
    requires Same(Debool(v), Debool(w))
    ensures Same(v, w) <==> !BoolMeetsNumber(v, w)
  {
    match v
    case Arr(items) =>
      forall i | 0 <= i < |items| ensures Same(items[i], w.items[i]) <==> !BoolMeetsNumber(items[i], w.items[i]) {
        assert Debool(v).items[i] == Debool(items[i]) && Debool(w).items[i] == Debool(w.items[i]);
        SameUnlessBools(items[i], w.items[i]);
      }
    case Obj(ms) =>
      assert Debool(v) == Obj(DeboolMembers(ms)) && Debool(w) == Obj(DeboolMembers(w.members));
      forall i | 0 <= i < |ms|
        ensures Find(w.members, ms[i].key).Some?
        ensures Same(ms[i].value, Find(w.members, ms[i].key).value) <==> !MeetsAt(ms[i], w.members)
      {
        SameKey(ms, w.members, i);
        SameUnlessBools(ms[i].value, Find(w.members, ms[i].key).value);
      }
      forall j | 0 <= j < |w.members| ensures Find(ms, w.members[j].key).Some? {
        SameKeyBack(ms, w.members, j);
      }
    case _ =>
  }

  /** Every key of the one is in the other, with a value that is the same once bools are numbers. */
  ghost predicate SameAt(ms: seq<Member>, ws: seq<Member>, i: nat)
    requires i < |ms|
  {
    Find(ws, ms[i].key).Some? && Same(Debool(ms[i].value), Debool(Find(ws, ms[i].key).value))
  }

  lemma SameKey(ms: seq<Member>, ws: seq<Member>, i: nat)
    requires Same(Obj(DeboolMembers(ms)), Obj(DeboolMembers(ws))) && i < |ms|
    ensures SameAt(ms, ws, i)
  {
    var m := DeboolMembers(ms)[i];
    FindDebool(ws, m.key);
  }

  lemma SameKeyBack(ms: seq<Member>, ws: seq<Member>, j: nat)
    requires Same(Obj(DeboolMembers(ms)), Obj(DeboolMembers(ws))) && j < |ws|
    ensures Find(ms, ws[j].key).Some?
  {
    var m := DeboolMembers(ws)[j];
    FindDebool(ms, m.key);
  }

  /** An override goes unrecorded although the value changes exactly when the two values are equal in
      Python's sense and somewhere have a bool against a number. */
  lemma UnrecordedOverride(key: string, p: Json, c: Json, spec: bool)
    requires WellFormed(p) && WellFormed(c) && !ByIds(key, spec, p, c) && !(p.Obj? && c.Obj?)
    ensures ValueTrace(key, p, c, spec) == [] && !Same(p, c) <==> PyEq(p, c) && BoolMeetsNumber(p, c)
  {
    DeboolWellFormed(p);
    DeboolWellFormed(c);
    CanonDecides(Debool(p), Debool(c));
    if PyEq(p, c) {
      SameUnlessBools(p, c);
    }
  }

  /** True overridden by 1, and [true] by [1]. */
  lemma OneForTrueIsUnrecorded()
    ensures ValueTrace("k", Bool(true), Num(Int(1)), false) == [] && !Same(Bool(true), Num(Int(1)))
    ensures ValueTrace("k", Arr([Bool(true)]), Arr([Num(Int(1))]), false) == []
    ensures !Same(Arr([Bool(true)]), Arr([Num(Int(1))]))
  {
    var v, w := Arr([Bool(true)]), Arr([Num(Int(1))]);
    assert Debool(v) == Debool(w) == w;
    assert BoolMeetsNumber(v.items[0], w.items[0]);
    UnrecordedOverride("k", v, w, false);
  }
}
