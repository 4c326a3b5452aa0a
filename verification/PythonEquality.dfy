/** What Python's comparisons mean for documents: equality, equal ids in a dict, and truth. */
module PythonEquality {
  import opened Utf8
  import opened Json
  import opened Inheritance
  import opened InheritanceTrace
  import opened InheritanceUnrecorded

  /** The integer that a value compares as; a float that is not integral has none. */
  function AsInteger(v: Json): Option<int> {
    match v
    case Bool(true) => Some(1)
    case Bool(false) => Some(0)
    case Num(Int(i)) => Some(i)
    case Num(Whole(w)) => Some(w)
    case _ => None
  }

  /** v == w: numbers by value, lists in order, dicts by key. */
  ghost predicate EqualInPython(v: Json, w: Json) {
    match v
    case Arr(items) =>
      w.Arr? && |items| == |w.items| && forall i :: 0 <= i < |items| ==> EqualInPython(items[i], w.items[i])
    case Obj(ms) =>
      && w.Obj?
      && (forall i :: 0 <= i < |ms| ==> EqualAt(ms[i], w.members))
      && forall j :: 0 <= j < |w.members| ==> Find(ms, w.members[j].key).Some?
    case _ => if AsInteger(v).Some? then AsInteger(v) == AsInteger(w) else v == w
  }

  ghost predicate EqualAt(m: Member, ws: seq<Member>) {
    Find(ws, m.key).Some? && EqualInPython(m.value, Find(ws, m.key).value)
  }

  lemma {:induction false} EqualOnceDebooled(v: Json, w: Json)
    ensures Same(Debool(v), Debool(w)) <==> EqualInPython(v, w)
  {
    match v
    case Arr(items) =>
      if w.Arr? && |items| == |w.items| {
        forall i | 0 <= i < |items|
          ensures Same(Debool(v).items[i], Debool(w).items[i]) <==> EqualInPython(items[i], w.items[i])
        {
          EqualOnceDebooled(items[i], w.items[i]);
        }
      }
    case Obj(ms) =>
      if w.Obj? {
        assert Debool(v) == Obj(DeboolMembers(ms)) && Debool(w) == Obj(DeboolMembers(w.members));
        forall i | 0 <= i < |ms| ensures SameMember(ms, w.members, i) <==> EqualAt(ms[i], w.members) {
          FindDebool(w.members, ms[i].key);
          if Find(w.members, ms[i].key).Some? {
            EqualOnceDebooled(ms[i].value, Find(w.members, ms[i].key).value);
          }
        }
        forall j | 0 <= j < |w.members|
          ensures Find(DeboolMembers(ms), DeboolMembers(w.members)[j].key).Some? <==> Find(ms, w.members[j].key).Some?
        {
          FindDebool(ms, w.members[j].key);
        }
        SameByMembers(ms, w.members);
      }
    case _ =>
  }

  ghost predicate SameMember(ms: seq<Member>, ws: seq<Member>, i: nat)
    requires i < |ms|
  {
    var m := DeboolMembers(ms)[i];
    Find(DeboolMembers(ws), m.key).Some? && Same(m.value, Find(DeboolMembers(ws), m.key).value)
  }

  lemma SameByMembers(ms: seq<Member>, ws: seq<Member>)
    ensures Same(Obj(DeboolMembers(ms)), Obj(DeboolMembers(ws))) <==>
      ((forall i :: 0 <= i < |ms| ==> SameMember(ms, ws, i))
        && forall j :: 0 <= j < |ws| ==> Find(DeboolMembers(ms), DeboolMembers(ws)[j].key).Some?)
  {
    var a, b := DeboolMembers(ms), DeboolMembers(ws);
    if Same(Obj(a), Obj(b)) {
      forall i | 0 <= i < |ms| ensures SameMember(ms, ws, i) {
        var m := a[i];
      }
    }
    if forall i :: 0 <= i < |ms| ==> SameMember(ms, ws, i) {
      forall i | 0 <= i < |a| ensures Find(b, a[i].key).Some? && Same(a[i].value, Find(b, a[i].key).value) {
        assert SameMember(ms, ws, i);
      }
    }
  }

  /** The comparison that decides what the trace records is Python's. */
  lemma PyEqIsEquality(v: Json, w: Json)
    requires WellFormed(v) && WellFormed(w)
    ensures PyEq(v, w) <==> EqualInPython(v, w)
  {
    DeboolWellFormed(v);
    DeboolWellFormed(w);
    CanonDecides(Debool(v), Debool(w));
    EqualOnceDebooled(v, w);
  }

  /** Two ids are one key of the index exactly when they are equal in Python. */
  lemma SameIdIsEquality(v: Json, w: Json)
    requires WellFormed(v) && WellFormed(w) && !v.Arr? && !v.Obj? && !w.Arr? && !w.Obj?
    ensures IdKey(v) == IdKey(w) <==> EqualInPython(v, w)
  {
  }

  /** What counts as false. */
  lemma Falsy(v: Json)
    ensures !Truthy(v) <==>
      v in [Null, Bool(false), Num(Int(0)), Num(Whole(0)), Str(""), Arr([]), Obj([])]
  {
  }
}
