/** Composing the layers of a policy, and the trace it leaves. */
module PolicyCompiler {
  import opened Utf8
  import opened Json
  import opened Inheritance
  import opened InheritanceTrace
  import opened InheritanceMerge
  import opened InheritanceLayers

  datatype NamedLayer = NamedLayer(name: string, document: Json)

  function Documents(layers: seq<NamedLayer>): (r: seq<Json>)
    ensures |r| == |layers| && forall i :: 0 <= i < |layers| ==> r[i] == layers[i].document
  {
    seq(|layers|, i requires 0 <= i < |layers| => layers[i].document)
  }

  /** The document after the first n layers on top of the base. */
  function After(base: NamedLayer, layers: seq<NamedLayer>, n: nat): Json
    requires n <= |layers|
  {
    Composed(base.document, Documents(layers), n)
  }

  function NameOf(base: NamedLayer, layers: seq<NamedLayer>, n: nat): string
    requires n <= |layers|
  {
    if n == 0 then base.name else layers[n - 1].name
  }

  /** Trace lines as they are written, with paths and layer names. */
  function Written(base: NamedLayer, layers: seq<NamedLayer>, lines: seq<Line>): (r: seq<Entry>)
    requires forall i :: 0 <= i < |lines| ==> 0 < lines[i].layer <= |layers|
    ensures |r| == |lines|
    ensures forall i :: 0 <= i < |lines| ==> r[i] == EntryOf("", lines[i].change,
      Layers(NameOf(base, layers, lines[i].layer - 1), NameOf(base, layers, lines[i].layer)))
  {
    seq(|lines|, i requires 0 <= i < |lines| => EntryOf("", lines[i].change,
      Layers(NameOf(base, layers, lines[i].layer - 1), NameOf(base, layers, lines[i].layer))))
  }

  /** A written entry names the layer and, where something was replaced, the layer composed before it. */
  lemma WrittenNames(base: NamedLayer, layers: seq<NamedLayer>, n: nat, i: nat)
    requires n <= |layers| && i < |Entries(base.document, Documents(layers), n)|
    ensures var line := Entries(base.document, Documents(layers), n)[i];
      var e := Written(base, layers, Entries(base.document, Documents(layers), n))[i];
      && e.layer == NameOf(base, layers, line.layer)
      && (e.replaced.Some? ==> (line.replaced.Some? && line.replaced.value <= |layers|
        && e.replaced.value == NameOf(base, layers, line.replaced.value)))
  {
    LinesReplace(base.document, Documents(layers), n, i);
  }

  lemma {:induction false} LinesReplace(base: Json, layers: seq<Json>, n: nat, i: nat)
    requires n <= |layers| && i < |Entries(base, layers, n)|
    ensures var line := Entries(base, layers, n)[i];
      line.replaced == if Replaces(line.change.kind) then Some(line.layer - 1) else None
  {
    if i < |Entries(base, layers, n - 1)| {
      LinesReplace(base, layers, n - 1, i);
    }
  }

  lemma WrittenConcat(base: NamedLayer, layers: seq<NamedLayer>, a: seq<Line>, b: seq<Line>)
    requires forall i :: 0 <= i < |a| ==> 0 < a[i].layer <= |layers|
    requires forall i :: 0 <= i < |b| ==> 0 < b[i].layer <= |layers|
    ensures Written(base, layers, a + b) == Written(base, layers, a) + Written(base, layers, b)
  {
  }

  /** The changes of one layer as they are written. */
  lemma WrittenLayer(base: NamedLayer, layers: seq<NamedLayer>, n: nat, t: seq<Change>)
    requires n < |layers|
    ensures Written(base, layers, LinesOf(t, n + 1)) == Rendered("", t, Layers(NameOf(base, layers, n), layers[n].name))
  {
  }

  /** What one more layer does to the document and to the written trace. */
  lemma OneMoreLayer(base: NamedLayer, layers: seq<NamedLayer>, n: nat)
    requires n < |layers|
    ensures After(base, layers, n + 1) == Merged(After(base, layers, n), layers[n].document, false)
    ensures Written(base, layers, Entries(base.document, Documents(layers), n + 1))
      == Written(base, layers, Entries(base.document, Documents(layers), n))
        + Rendered("", Trace(After(base, layers, n), layers[n].document, false),
          Layers(NameOf(base, layers, n), layers[n].name))
  {
    var t := TraceOf(base.document, Documents(layers), n + 1);
    WrittenLayer(base, layers, n, t);
    WrittenConcat(base, layers, Entries(base.document, Documents(layers), n), LinesOf(t, n + 1));
  }

  /** The merge of the n-th layer onto those below it raises no error. */
  predicate Merges(base: NamedLayer, layers: seq<NamedLayer>, n: nat)
    requires n < |layers|
  {
    Mergeable(After(base, layers, n), layers[n].document, false)
  }

  /** The merge of the n-th layer as the loop calls it. */
  method MergeLayer(ghost base: NamedLayer, layers: seq<NamedLayer>, n: nat, acc: Json, accLayer: string,
      trace: OverrideTrace)
    returns (r: Option<Json>)
    requires n < |layers| && acc == After(base, layers, n) && accLayer == NameOf(base, layers, n)
    requires trace.entries == Written(base, layers, Entries(base.document, Documents(layers), n))
    modifies trace
    ensures r.Some? <==> Merges(base, layers, n)
    ensures r.Some? ==> r.value == After(base, layers, n + 1)
    ensures r.Some? ==> trace.entries == Written(base, layers, Entries(base.document, Documents(layers), n + 1))
  {
    assert !EndsWith("", "spec");
    r := Merge(acc, layers[n].document, Layers(accLayer, layers[n].name), trace, "");
    OneMoreLayer(base, layers, n);
  }

  /** The composing loop of compile_policy; None when a merge raises an error. */
  method Compose(base: NamedLayer, layers: seq<NamedLayer>) returns (r: Option<Json>, trace: OverrideTrace)
    ensures fresh(trace)
    ensures r.Some? <==> forall i :: 0 <= i < |layers| ==> Merges(base, layers, i)
    ensures r.Some? ==> r.value == After(base, layers, |layers|)
    ensures r.Some? ==>
      trace.entries == Written(base, layers, Entries(base.document, Documents(layers), |layers|))
  {
    trace := new OverrideTrace();
    var acc, accLayer := base.document, base.name;
    for n := 0 to |layers|
      invariant fresh(trace)
      invariant forall i {:trigger Merges(base, layers, i)} :: 0 <= i < n ==> Merges(base, layers, i)
      invariant acc == After(base, layers, n) && accLayer == NameOf(base, layers, n)
      invariant trace.entries == Written(base, layers, Entries(base.document, Documents(layers), n))
    {
      var merged := MergeLayer(base, layers, n, acc, accLayer, trace);
      if merged.None? {
        return None, trace;
      }
      acc, accLayer := merged.value, layers[n].name;
    }
    return Some(acc), trace;
  }
}
