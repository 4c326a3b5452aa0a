/** The merge as it runs: dicts and lists built up in loops, the trace appended to on the way. */
module InheritanceMerge {
  import opened Utf8
  import opened Json
  import opened CanonicalText
  import opened Inheritance
  import opened InheritanceTrace

  datatype Entry = Entry(path: string, layer: string, replaced: Option<string>)

  class OverrideTrace {
    var entries: seq<Entry>

    constructor ()
      ensures entries == []
    {
      entries := [];
    }

    /** A layer without a name is left out of the entry. */
    method Add(path: string, layer: string, replaced: Option<string>)
      modifies this
      ensures entries == old(entries) + [Entry(path, layer, if replaced == Some("") then None else replaced)]
    {
      entries := entries + [Entry(path, layer, if replaced == Some("") then None else replaced)];
    }
  }

  // ---- how paths are written ----

  /** str() of an id. */
  function IdText(id: Json): string {
    match id
    case Null => "None"
    case Bool(b) => if b then "True" else "False"
    case Num(Int(i)) => IntText(i)
    case Num(Whole(w)) => IntText(w) + ".0"
    case Num(Frac(t)) => t
    case Num(NonFinite) => "nan"
    case Str(s) => s
    case _ => ""
  }

  function Extend(path: string, s: Step): string {
    match s
    case Field(key) => if path == "" then key else path + "." + key
    case Guard(id) => path + "[" + IdText(id) + "]"
  }

  function Render(path: string, at: seq<Step>): string
    decreases |at|
  {
    if at == [] then path else Render(Extend(path, at[0]), at[1..])
  }

  datatype Layers = Layers(parent: string, child: string)

  function EntryOf(path: string, c: Change, l: Layers): Entry {
    var full := Render(path, c.at);
    Entry(if c.kind == Root && full == "" then "/" else full, l.child,
      if c.kind == NewKey || c.kind == Addition || l.parent == "" then None else Some(l.parent))
  }

  function Rendered(path: string, cs: seq<Change>, l: Layers): (r: seq<Entry>)
    ensures |r| == |cs| && forall i :: 0 <= i < |cs| ==> r[i] == EntryOf(path, cs[i], l)
  {
    seq(|cs|, i requires 0 <= i < |cs| => EntryOf(path, cs[i], l))
  }

  /** Entries for the first changes, then for the rest. */
  lemma RenderedRest(entries: seq<Entry>, path: string, a: seq<Change>, b: seq<Change>, l: Layers)
    ensures entries + Rendered(path, a + b, l) == (entries + Rendered(path, a, l)) + Rendered(path, b, l)
  {
    var x, y, z := Rendered(path, a + b, l), Rendered(path, a, l), Rendered(path, b, l);
    forall i | 0 <= i < |a| ensures x[i] == y[i] {
    }
    forall i | 0 <= i < |b| ensures x[|a| + i] == z[i] {
      assert (a + b)[|a| + i] == b[i];
    }
    assert x == y + z;
  }

  /** The entry of a change right at a step. */
  lemma RenderedOne(path: string, s: Step, kind: Kind, l: Layers)
    requires kind != Root
    ensures Rendered(path, [Change([s], kind)], l) == [Entry(Extend(path, s), l.child,
      if kind == NewKey || kind == Addition || l.parent == "" then None else Some(l.parent))]
  {
    assert Render(path, [s]) == Render(Extend(path, s), []);
  }

  lemma RenderedUnder(path: string, s: Step, cs: seq<Change>, l: Layers)
    ensures Rendered(path, Under(s, cs), l) == Rendered(Extend(path, s), cs, l)
  {
    forall i | 0 <= i < |cs| ensures EntryOf(path, Under(s, cs)[i], l) == EntryOf(Extend(path, s), cs[i], l) {
      assert Cons(s, cs[i].at)[1..] == cs[i].at;
    }
  }

  /** The test on the written path is a test on its last key. */
  lemma PathTests(path: string, key: string, id: Json)
    ensures EndsWith(Extend(path, Field("guards")), "spec.guards") <==> EndsWith(path, "spec")
    ensures EndsWith(Extend(path, Field(key)), "spec") <==> EndsWith(key, "spec")
    ensures !EndsWith(Extend(path, Guard(id)), "spec")
  {
    GuardsPath(path);
    SpecPath(path, key);
    var g := Extend(path, Guard(id));
    assert g[|g| - 1] == ']' && "spec"[3] == 'c';
    assert |g| >= 4 ==> g[|g| - 4..][3] == ']';
  }

  lemma GuardsPath(path: string)
    ensures EndsWith(Extend(path, Field("guards")), "spec.guards") <==> EndsWith(path, "spec")
  {
    if path != "" {
      var full := path + "." + "guards";
      assert full[|path|..] == ".guards";
      if |path| >= 4 {
        assert full[|full| - 11..] == path[|path| - 4..] + ".guards";
        assert "spec.guards" == "spec" + ".guards";
        var x, y := full[|full| - 11..], "spec.guards";
        assert x[..4] == path[|path| - 4..] && y[..4] == "spec";
      }
    }
  }

  lemma SpecPath(path: string, key: string)
    ensures EndsWith(Extend(path, Field(key)), "spec") <==> EndsWith(key, "spec")
  {
    if path != "" {
      var full := path + "." + key;
      assert full[|path|] == '.';
      if |key| >= 4 {
        assert full[|full| - 4..] == key[|key| - 4..];
      } else if |full| >= 4 {
        assert full[|full| - 4..][3 - |key|] == '.';
      }
    }
  }

  // ---- the merge ----

  /** merge; None stands for the error raised on a guard that is no dict or whose id is unhashable. */
  method Merge(parent: Json, child: Json, l: Layers, trace: OverrideTrace, path: string) returns (r: Option<Json>)
    modifies trace
    ensures r.Some? <==> Mergeable(parent, child, EndsWith(path, "spec"))
    ensures r.Some? ==> r.value == Merged(parent, child, EndsWith(path, "spec"))
    ensures r.Some? ==>
      trace.entries == old(trace.entries) + Rendered(path, Trace(parent, child, EndsWith(path, "spec")), l)
    decreases parent, 2
  {
    if !parent.Obj? || !child.Obj? {
      trace.Add(if path == "" then "/" else path, l.child, Some(l.parent));
      return Some(child);
    }
    RenderedRest(trace.entries, path, FieldsTrace(parent.members, child.members, EndsWith(path, "spec")),
                 NewTrace(parent.members, child.members), l);
    var out := MergeFields(parent.members, child.members, l, trace, path);
    if out.None? {
      return None;
    }
    var all := AddNew(parent.members, child.members, out.value, l, trace, path);
    return Some(Obj(all));
  }

  /** The keys of the parent. */
  method MergeFields(ps: seq<Member>, cs: seq<Member>, l: Layers, trace: OverrideTrace, path: string)
    returns (r: Option<seq<Member>>)
    modifies trace
    ensures r.Some? <==> forall i :: 0 <= i < |ps| ==> FieldMergeable(ps[i], cs, EndsWith(path, "spec"))
    ensures r.Some? ==> r.value == Overlaid(ps, cs, EndsWith(path, "spec"))
    ensures r.Some? ==>
      trace.entries == old(trace.entries) + Rendered(path, FieldsTrace(ps, cs, EndsWith(path, "spec")), l)
    decreases ps, 1
  {
    ghost var spec := EndsWith(path, "spec");
    ghost var total := trace.entries + Rendered(path, FieldsTrace(ps, cs, spec), l);
    var out := [];
    assert ps[0..] == ps;
    for i := 0 to |ps|
      invariant out == Overlaid(ps, cs, spec)[..i]
      invariant forall k :: 0 <= k < i ==> FieldMergeable(ps[k], cs, spec)
      invariant total == trace.entries + Rendered(path, FieldsTrace(ps[i..], cs, spec), l)
    {
      assert ps[i..][0] == ps[i] && ps[i..][1..] == ps[i + 1..];
      RenderedRest(trace.entries, path, FieldTrace(ps[i], cs, spec), FieldsTrace(ps[i + 1..], cs, spec), l);
      var v := MergeField(ps[i], cs, l, trace, path);
      if v.None? {
        return None;
      }
      out := out + [Member(ps[i].key, v.value)];
    }
    return Some(out);
  }

  /** The keys only the child has. */
  method AddNew(ps: seq<Member>, cs: seq<Member>, start: seq<Member>, l: Layers, trace: OverrideTrace, path: string)
    returns (out: seq<Member>)
    modifies trace
    ensures out == start + NewMembers(ps, cs)
    ensures trace.entries == old(trace.entries) + Rendered(path, NewTrace(ps, cs), l)
  {
    out := start;
    ghost var total := trace.entries + Rendered(path, NewTrace(ps, cs), l);
    ghost var whole := start + NewMembers(ps, cs);
    assert cs[0..] == cs;
    for j := 0 to |cs|
      invariant whole == out + NewMembers(ps, cs[j..])
      invariant total == trace.entries + Rendered(path, NewTrace(ps, cs[j..]), l)
    {
      assert cs[j..][0] == cs[j] && cs[j..][1..] == cs[j + 1..];
      if Find(ps, cs[j].key).None? {
        ghost var e := Change([Field(cs[j].key)], NewKey);
        assert NewTrace(ps, cs[j..]) == [e] + NewTrace(ps, cs[j + 1..]);
        RenderedRest(trace.entries, path, [e], NewTrace(ps, cs[j + 1..]), l);
        RenderedOne(path, Field(cs[j].key), NewKey, l);
        out := out + [cs[j]];
        trace.Add(Extend(path, Field(cs[j].key)), l.child, None);
      }
    }
  }

  /** One key of the parent. */
  method MergeField(m: Member, cs: seq<Member>, l: Layers, trace: OverrideTrace, path: string) returns (r: Option<Json>)
    modifies trace
    ensures r.Some? <==> FieldMergeable(m, cs, EndsWith(path, "spec"))
    ensures r.Some? ==> r.value == MergedField(m, cs, EndsWith(path, "spec"))
    ensures r.Some? ==>
      trace.entries == old(trace.entries) + Rendered(path, FieldTrace(m, cs, EndsWith(path, "spec")), l)
    decreases m, 0
  {
    var c := Find(cs, m.key);
    if c.None? {
      return Some(m.value);
    }
    RenderedUnder(path, Field(m.key), ValueTrace(m.key, m.value, c.value, EndsWith(path, "spec")), l);
    r := MergeValue(m.key, m.value, c.value, l, trace, path);
  }

  /** A key that both layers have. */
  method MergeValue(key: string, pv: Json, cv: Json, l: Layers, trace: OverrideTrace, path: string)
    returns (r: Option<Json>)
    modifies trace
    ensures r.Some? <==> ValueMergeable(key, pv, cv, EndsWith(path, "spec"))
    ensures r.Some? ==> r.value == MergedValue(key, pv, cv, EndsWith(path, "spec"))
    ensures r.Some? ==>
      trace.entries == old(trace.entries)
        + Rendered(Extend(path, Field(key)), ValueTrace(key, pv, cv, EndsWith(path, "spec")), l)
    decreases pv, 3
  {
    var here := Extend(path, Field(key));
    PathTests(path, key, Null);
    if key == "guards" && pv.Arr? && cv.Arr? && EndsWith(here, "spec.guards") {
      var gs := MergeGuards(pv.items, cv.items, l, trace, here);
      return if gs.None? then None else Some(Arr(gs.value));
    } else if pv.Obj? && cv.Obj? {
      r := Merge(pv, cv, l, trace, here);
    } else {
      if !PyEq(pv, cv) {
        trace.Add(here, l.child, Some(l.parent));
      }
      return Some(cv);
    }
  }

  /** The by-id index of a guard list. */
  method IndexById(gs: seq<Json>) returns (index: map<Json, Json>)
    ensures forall key :: key in index <==> LastById(gs, key).Some?
    ensures forall key :: key in index ==> LastById(gs, key) == Some(index[key])
  {
    index := map[];
    for i := 0 to |gs|
      invariant forall key :: key in index <==> LastById(gs[..i], key).Some?
      invariant forall key :: key in index ==> LastById(gs[..i], key) == Some(index[key])
    {
      assert gs[..i + 1][..i] == gs[..i];
      if gs[i].Obj? {
        index := index[GuardKey(gs[i]) := gs[i]];
      }
    }
    assert gs[..|gs|] == gs;
  }

  /** _merge_guards. */
  method MergeGuards(ps: seq<Json>, cs: seq<Json>, l: Layers, trace: OverrideTrace, path: string)
    returns (r: Option<seq<Json>>)
    modifies trace
    ensures r.Some? <==> GuardsMergeable(ps, cs)
    ensures r.Some? ==> r.value == MergedGuards(ps, cs)
    ensures r.Some? ==> trace.entries == old(trace.entries) + Rendered(path, KeptTrace(ps, cs) + AddedTrace(ps, cs), l)
    decreases ps, 1
  {
    if !GuardsOk(ps) || !GuardsOk(cs) {
      return None;
    }
    var parentById := IndexById(ps);
    var childById := IndexById(cs);
    RenderedRest(trace.entries, path, KeptTrace(ps, cs), AddedTrace(ps, cs), l);
    var kept := MergeParents(ps, cs, childById, l, trace, path);
    if kept.None? {
      return None;
    }
    var out := AppendNew(ps, cs, parentById, kept.value, l, trace, path);
    return Some(out);
  }

  /** The walk over the parent's guards. */
  method MergeParents(ps: seq<Json>, ghost cs: seq<Json>, childById: map<Json, Json>, l: Layers, trace: OverrideTrace,
                      path: string) returns (r: Option<seq<Json>>)
    requires forall key :: key in childById <==> LastById(cs, key).Some?
    requires forall key :: key in childById ==> LastById(cs, key) == Some(childById[key])
    modifies trace
    ensures r.Some? <==> EachMergeable(ps, cs)
    ensures r.Some? ==> r.value == Kept(ps, cs)
    ensures r.Some? ==> trace.entries == old(trace.entries) + Rendered(path, KeptTrace(ps, cs), l)
    decreases ps, 0
  {
    ghost var total := trace.entries + Rendered(path, KeptTrace(ps, cs), l);
    ghost var whole := Kept(ps, cs);
    var out := [];
    assert ps[0..] == ps;
    for i := 0 to |ps|
      invariant whole == out + Kept(ps[i..], cs)
      invariant forall k :: 0 <= k < i ==> GuardMergeable(ps[k], cs)
      invariant total == trace.entries + Rendered(path, KeptTrace(ps[i..], cs), l)
    {
      assert ps[i..][0] == ps[i] && ps[i..][1..] == ps[i + 1..];
      RenderedRest(trace.entries, path, GuardTrace(ps[i], cs), KeptTrace(ps[i + 1..], cs), l);
      KeptHead(ps[i..], cs);
      var kept := MergeGuard(ps[i], cs, childById, l, trace, path);
      if kept.None? {
        return None;
      }
      out := out + kept.value;
    }
    return Some(out);
  }

  lemma KeptHead(ps: seq<Json>, cs: seq<Json>)
    requires ps != []
    ensures Kept(ps, cs) == Kept([ps[0]], cs) + Kept(ps[1..], cs)
  {
    assert [ps[0]][1..] == [];
  }

  /** One guard of the parent: kept, merged, or removed. */
  method MergeGuard(g: Json, ghost cs: seq<Json>, childById: map<Json, Json>, l: Layers,
      trace: OverrideTrace, path: string)
    returns (r: Option<seq<Json>>)
    requires forall key :: key in childById <==> LastById(cs, key).Some?
    requires forall key :: key in childById ==> LastById(cs, key) == Some(childById[key])
    modifies trace
    ensures r.Some? <==> GuardMergeable(g, cs)
    ensures r.Some? ==> r.value == Kept([g], cs)
    ensures r.Some? ==> trace.entries == old(trace.entries) + Rendered(path, GuardTrace(g, cs), l)
    decreases g, 3
  {
    var gid, step := GuardKey(g), Guard(IdOf(g));
    assert [g][1..] == [];
    if gid !in childById {
      return Some([g]);
    }
    var cg := childById[gid];
    if Marked(cg) {
      RenderedOne(path, step, Removal, l);
      trace.Add(Extend(path, step), l.child, Some(l.parent));
      return Some([]);
    }
    PathTests(path, "", IdOf(g));
    RenderedUnder(path, step, Trace(g, cg, false), l);
    var merged := Merge(g, cg, l, trace, Extend(path, step));
    return if merged.None? then None else Some([merged.value]);
  }

  /** The child's guards of new ids. */
  method AppendNew(ghost ps: seq<Json>, cs: seq<Json>, parentById: map<Json, Json>, start: seq<Json>, l: Layers,
                   trace: OverrideTrace, path: string) returns (out: seq<Json>)
    requires forall key :: key in parentById <==> LastById(ps, key).Some?
    modifies trace
    ensures out == start + Added(ps, cs)
    ensures trace.entries == old(trace.entries) + Rendered(path, AddedTrace(ps, cs), l)
  {
    out := start;
    ghost var total := trace.entries + Rendered(path, AddedTrace(ps, cs), l);
    ghost var whole := start + Added(ps, cs);
    assert cs[0..] == cs;
    for j := 0 to |cs|
      invariant whole == out + Added(ps, cs[j..])
      invariant total == trace.entries + Rendered(path, AddedTrace(ps, cs[j..]), l)
    {
      assert cs[j..][0] == cs[j] && cs[j..][1..] == cs[j + 1..];
      if GuardKey(cs[j]) in parentById || Marked(cs[j]) {
        continue;
      }
      ghost var e := Change([Guard(IdOf(cs[j]))], Addition);
      assert AddedTrace(ps, cs[j..]) == [e] + AddedTrace(ps, cs[j + 1..]);
      RenderedRest(trace.entries, path, [e], AddedTrace(ps, cs[j + 1..]), l);
      RenderedOne(path, Guard(IdOf(cs[j])), Addition, l);
      trace.Add(Extend(path, Guard(IdOf(cs[j]))), l.child, None);
      out := out + [cs[j]];
    }
  }
}
