/** Deep merge of policy layers: the merged document as a function of the two layers, and its laws. */
module Inheritance {
  import opened Utf8
  import opened Json

  // ---- guards ----

  /** How Python hashes and compares a scalar: True is 1 and 1.0 is 1. */
  function IdKey(v: Json): Json {
    match v
    case Bool(b) => Num(Int(if b then 1 else 0))
    case Num(n) => Num(CanonNumber(n))
    case _ => v
  }

  /** g.get("id"); a missing id is None. */
  function IdOf(g: Json): Json {
    if g.Obj? && Find(g.members, "id").Some? then Find(g.members, "id").value else Null
  }

  function GuardKey(g: Json): Json {
    IdKey(IdOf(g))
  }

  function Truthy(v: Json): bool {
    match v
    case Null => false
    case Bool(b) => b
    case Num(n) => n != Int(0) && n != Whole(0)
    case Str(s) => s != ""
    case Arr(items) => items != []
    case Obj(ms) => ms != []
  }

  function Marked(g: Json): bool {
    g.Obj? && Find(g.members, "__remove__").Some? && Truthy(Find(g.members, "__remove__").value)
  }

  /** The entry of the by-id index: a later guard of the same id replaces an earlier one. */
  function LastById(gs: seq<Json>, key: Json): Option<Json> {
    if gs == [] then None
    else if gs[|gs| - 1].Obj? && GuardKey(gs[|gs| - 1]) == key then Some(gs[|gs| - 1])
    else LastById(gs[..|gs| - 1], key)
  }

  /** A list on which the guard merge raises no error: dicts with hashable ids. */
  predicate GuardsOk(gs: seq<Json>) {
    forall i :: 0 <= i < |gs| ==> gs[i].Obj? && !IdOf(gs[i]).Obj? && !IdOf(gs[i]).Arr?
  }

  // ---- where guard lists are ----

  predicate EndsWith(s: string, t: string) {
    |s| >= |t| && s[|s| - |t|..] == t
  }

  /** A list is merged by id when its key is "guards" and the path above it ends in "spec". */
  predicate ByIds(key: string, spec: bool, p: Json, c: Json) {
    key == "guards" && spec && p.Arr? && c.Arr?
  }

  // ---- the merge ----

  /** spec says whether the path of the two documents ends in "spec". */
  function Merged(p: Json, c: Json, spec: bool): Json
    decreases p, 2
  {
    if !p.Obj? || !c.Obj? then c
    else Obj(Overlaid(p.members, c.members, spec) + NewMembers(p.members, c.members))
  }

  /** The parent's members, each with what the child makes of it. */
  function Overlaid(ps: seq<Member>, cs: seq<Member>, spec: bool): (r: seq<Member>)
    ensures |r| == |ps|
    ensures forall i :: 0 <= i < |ps| ==> r[i] == Member(ps[i].key, MergedField(ps[i], cs, spec))
    decreases ps, 1
  {
    seq(|ps|, i requires 0 <= i < |ps| => Member(ps[i].key, MergedField(ps[i], cs, spec)))
  }

  function MergedField(m: Member, cs: seq<Member>, spec: bool): Json
    decreases m, 0
  {
    var c := Find(cs, m.key);
    if c.None? then m.value else MergedValue(m.key, m.value, c.value, spec)
  }

  function MergedValue(key: string, p: Json, c: Json, spec: bool): Json
    decreases p, 3
  {
    if ByIds(key, spec, p, c) then Arr(MergedGuards(p.items, c.items))
    else if p.Obj? && c.Obj? then Merged(p, c, EndsWith(key, "spec"))
    else c
  }

  /** The child's members under keys the parent does not have. */
  function NewMembers(ps: seq<Member>, cs: seq<Member>): seq<Member> {
    if cs == [] then []
    else if Find(ps, cs[0].key).None? then Cons(cs[0], NewMembers(ps, cs[1..]))
    else NewMembers(ps, cs[1..])
  }

  function MergedGuards(ps: seq<Json>, cs: seq<Json>): seq<Json>
    decreases ps, 1
  {
    Kept(ps, cs) + Added(ps, cs)
  }

  /** The parent's guards in order, without those the child removes. */
  function Kept(ps: seq<Json>, cs: seq<Json>): seq<Json>
    decreases ps, 0
  {
    if ps == [] then [] else
      var rest := Kept(ps[1..], cs);
      var c := LastById(cs, GuardKey(ps[0]));
      if c.None? then Cons(ps[0], rest)
      else if Marked(c.value) then rest
      else Cons(Merged(ps[0], c.value, false), rest)
  }

  /** The child's guards of ids the parent does not have. */
  function Added(ps: seq<Json>, cs: seq<Json>): seq<Json> {
    if cs == [] then []
    else if LastById(ps, GuardKey(cs[0])).Some? || Marked(cs[0]) then Added(ps, cs[1..])
    else Cons(cs[0], Added(ps, cs[1..]))
  }

  // ---- lookups ----

  lemma {:induction false} FindConcat(a: seq<Member>, b: seq<Member>, key: string)
    ensures Find(a + b, key) == if Find(a, key).Some? then Find(a, key) else Find(b, key)
  {
    if a == [] {
      assert a + b == b;
    } else {
      assert (a + b)[1..] == a[1..] + b;
      FindConcat(a[1..], b, key);
    }
  }

  lemma {:induction false} FindOverlaid(ps: seq<Member>, cs: seq<Member>, spec: bool, key: string)
    ensures Find(Overlaid(ps, cs, spec), key)
      == if Find(ps, key).None? then None else Some(MergedField(Member(key, Find(ps, key).value), cs, spec))
  {
    if ps != [] {
      FindOverlaid(ps[1..], cs, spec, key);
      assert Overlaid(ps, cs, spec)[1..] == Overlaid(ps[1..], cs, spec);
    }
  }

  lemma {:induction false} FindNew(ps: seq<Member>, cs: seq<Member>, key: string)
    ensures Find(NewMembers(ps, cs), key) == if Find(ps, key).Some? then None else Find(cs, key)
  {
    if cs != [] {
      FindNew(ps, cs[1..], key);
    }
  }

  /** A key of the merged document holds what the two layers make of it. */
  lemma FindMerged(p: Json, c: Json, spec: bool, key: string)
    requires p.Obj? && c.Obj?
    ensures Merged(p, c, spec).Obj?
    ensures Find(Merged(p, c, spec).members, key)
      == if Find(p.members, key).None? then Find(c.members, key)
         else Some(MergedField(Member(key, Find(p.members, key).value), c.members, spec))
  {
    FindConcat(Overlaid(p.members, c.members, spec), NewMembers(p.members, c.members), key);
    FindOverlaid(p.members, c.members, spec, key);
    FindNew(p.members, c.members, key);
  }

  // ---- the empty layer ----

  /** Merging the empty layer in changes nothing. */
  lemma EmptyChild(p: Json, spec: bool)
    requires p.Obj?
    ensures Merged(p, Obj([]), spec) == p
  {
    assert Overlaid(p.members, [], spec) == p.members;
    assert NewMembers(p.members, []) == [];
  }

  lemma {:induction false} AllNew(cs: seq<Member>)
    ensures NewMembers([], cs) == cs
  {
    if cs != [] {
      AllNew(cs[1..]);
    }
  }

  /** Merging onto the empty layer gives the child. */
  lemma EmptyParent(c: Json, spec: bool)
    requires c.Obj?
    ensures Merged(Obj([]), c, spec) == c
  {
    AllNew(c.members);
    assert Overlaid([], c.members, spec) == [];
  }
}
