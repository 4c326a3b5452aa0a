/** What the written path of a trace entry says: with keys and ids free of the characters that join them,
    it names one place. */
module WrittenPaths {
  import opened Utf8
  import opened Json
  import opened InheritanceTrace
  import opened InheritanceMerge
  import opened InheritanceLayers
  import opened PolicyCompiler
  import opened JsonText

  predicate Clean(t: string) {
    forall i :: 0 <= i < |t| ==> t[i] != '.' && t[i] != '[' && t[i] != ']'
  }

  /** A key that is not empty, or the id of a guard that is a string. */
  predicate CleanStep(s: Step) {
    match s
    case Field(key) => key != "" && Clean(key)
    case Guard(id) => id.Str? && Clean(id.s)
  }

  predicate CleanPath(at: seq<Step>) {
    forall i :: 0 <= i < |at| ==> CleanStep(at[i])
  }

  /** A key is joined by a dot, an id put between brackets. */
  lemma HowStepsAreWritten(path: string, key: string, id: string)
    ensures path != "" ==> Render(path, [Field(key)]) == path + "." + key
    ensures Render("", [Field(key)]) == key
    ensures Render(path, [Guard(Str(id))]) == path + "[" + id + "]"
  {
    RenderOne(path, Field(key));
    RenderOne("", Field(key));
    RenderOne(path, Guard(Str(id)));
  }

  /** An id that is no string is written as Python prints it. */
  lemma HowOtherIdsAreWritten(path: string, i: int)
    ensures Render(path, [Guard(Null)]) == path + "[None]"
    ensures Render(path, [Guard(Bool(true))]) == path + "[True]"
    ensures Render(path, [Guard(Bool(false))]) == path + "[False]"
    ensures Render(path, [Guard(Num(Int(i)))]) == path + "[" + Signed(i) + "]"
    ensures Render(path, [Guard(Num(Whole(i)))]) == path + "[" + Signed(i) + ".0]"
  {
    RenderOne(path, Guard(Null));
    RenderOne(path, Guard(Bool(true)));
    RenderOne(path, Guard(Bool(false)));
    RenderOne(path, Guard(Num(Int(i))));
    RenderOne(path, Guard(Num(Whole(i))));
    PrintedInt(i);
  }

  lemma RenderOne(path: string, s: Step)
    ensures Render(path, [s]) == Extend(path, s)
  {
    assert [s][1..] == [];
  }

  lemma {:induction false} RenderSnoc(path: string, at: seq<Step>, s: Step)
    ensures Render(path, at + [s]) == Extend(Render(path, at), s)
    decreases |at|
  {
    if at == [] {
      assert at + [s] == [s];
      RenderOne(path, s);
    } else {
      assert (at + [s])[1..] == at[1..] + [s];
      RenderSnoc(Extend(path, at[0]), at[1..], s);
    }
  }

  // ---- the last step of a path ----

  lemma LastPlace(p: string, k: string, c: char)
    requires forall i :: 0 <= i < |k| ==> k[i] != c
    ensures var s := p + [c] + k; s[|p|] == c && forall i :: |p| < i < |s| ==> s[i] != c
  {
    var s := p + [c] + k;
    forall i | |p| < i < |s| ensures s[i] != c {
      assert s[i] == k[i - |p| - 1];
    }
  }

  /** Texts split alike at the last occurrence of a character. */
  lemma SplitAtLast(p: string, k: string, q: string, l: string, c: char)
    requires p + [c] + k == q + [c] + l
    requires (forall i :: 0 <= i < |k| ==> k[i] != c) && forall i :: 0 <= i < |l| ==> l[i] != c
    ensures p == q && k == l
  {
    var s := p + [c] + k;
    LastPlace(p, k, c);
    LastPlace(q, l, c);
    assert |p| == |q|;
    assert s[..|p|] == p && s[..|q|] == q && s[|p| + 1..] == k && s[|q| + 1..] == l;
  }

  lemma SameKey(p: string, k: string, q: string, l: string)
    requires CleanStep(Field(k)) && CleanStep(Field(l)) && Extend(p, Field(k)) == Extend(q, Field(l))
    ensures p == q && k == l
  {
    assert (q + "." + l)[|q|] == '.' && (p + "." + k)[|p|] == '.';
    if p != "" && q != "" {
      SplitAtLast(p, k, q, l, '.');
    }
  }

  lemma SameGuard(p: string, i: string, q: string, j: string)
    requires Clean(i) && Clean(j) && p + "[" + i + "]" == q + "[" + j + "]"
    ensures p == q && i == j
  {
    var s, t := p + "[" + i, q + "[" + j;
    assert (s + "]")[..|s|] == s && (t + "]")[..|t|] == t;
    SplitAtLast(p, i, q, j, '[');
  }

  lemma EndOfStep(p: string, s: Step)
    requires CleanStep(s)
    ensures var e := Extend(p, s); e != "" && (e[|e| - 1] == ']' <==> s.Guard?)
  {
    if s.Field? {
      var e := Extend(p, s);
      assert e[|e| - 1] == s.key[|s.key| - 1];
    }
  }

  lemma SameLast(p: string, s: Step, q: string, t: Step)
    requires CleanStep(s) && CleanStep(t) && Extend(p, s) == Extend(q, t)
    ensures p == q && s == t
  {
    EndOfStep(p, s);
    EndOfStep(q, t);
    if s.Field? {
      SameKey(p, s.key, q, t.key);
    } else {
      SameGuard(p, s.id.s, q, t.id.s);
    }
  }

  lemma RenderIsNotEmpty(at: seq<Step>)
    requires CleanPath(at) && at != []
    ensures Render("", at) != ""
  {
    var n := |at| - 1;
    assert at == at[..n] + [at[n]];
    RenderSnoc("", at[..n], at[n]);
    EndOfStep(Render("", at[..n]), at[n]);
  }

  lemma SameFront(a: seq<Step>, b: seq<Step>)
    requires CleanPath(a) && CleanPath(b) && a != [] && b != [] && Render("", a) == Render("", b)
    ensures a[|a| - 1] == b[|b| - 1] && Render("", a[..|a| - 1]) == Render("", b[..|b| - 1])
  {
    RenderLast(a);
    RenderLast(b);
    SameLast(Render("", a[..|a| - 1]), a[|a| - 1], Render("", b[..|b| - 1]), b[|b| - 1]);
  }

  lemma RenderLast(at: seq<Step>)
    requires at != []
    ensures Render("", at) == Extend(Render("", at[..|at| - 1]), at[|at| - 1])
  {
    assert at == at[..|at| - 1] + [at[|at| - 1]];
    RenderSnoc("", at[..|at| - 1], at[|at| - 1]);
  }

  lemma FrontIsClean(at: seq<Step>)
    requires CleanPath(at) && at != []
    ensures CleanPath(at[..|at| - 1])
  {
  }

  lemma FrontAndLast(a: seq<Step>, b: seq<Step>)
    requires a != [] && b != [] && a[..|a| - 1] == b[..|b| - 1] && a[|a| - 1] == b[|b| - 1]
    ensures a == b
  {
    assert a == a[..|a| - 1] + [a[|a| - 1]] && b == b[..|b| - 1] + [b[|b| - 1]];
  }

  /** Clean paths that are written alike are one path. */
  lemma {:induction false} RenderIsInjective(a: seq<Step>, b: seq<Step>)
    requires CleanPath(a) && CleanPath(b) && Render("", a) == Render("", b)
    ensures a == b
    decreases |a|
  {
    if a == [] || b == [] {
      if a != [] {
        RenderIsNotEmpty(a);
      } else if b != [] {
        RenderIsNotEmpty(b);
      }
    } else {
      SameFront(a, b);
      FrontIsClean(a);
      FrontIsClean(b);
      RenderIsInjective(a[..|a| - 1], b[..|b| - 1]);
      FrontAndLast(a, b);
    }
  }

  /** Two entries of a composed policy with one written path are changes at one place, and the written
      path is that place's. */
  lemma OnePathOnePlace(base: NamedLayer, layers: seq<NamedLayer>, i: nat, j: nat)
    requires var lines := Entries(base.document, Documents(layers), |layers|);
      && i < |lines| && j < |lines|
      && lines[i].change.at != [] && lines[j].change.at != []
      && CleanPath(lines[i].change.at) && CleanPath(lines[j].change.at)
    ensures var lines := Entries(base.document, Documents(layers), |layers|);
      var es := Written(base, layers, lines);
      && es[i].path == Render("", lines[i].change.at)
      && (es[i].path == es[j].path <==> lines[i].change.at == lines[j].change.at)
  {
    var lines := Entries(base.document, Documents(layers), |layers|);
    var es := Written(base, layers, lines);
    RenderIsNotEmpty(lines[i].change.at);
    RenderIsNotEmpty(lines[j].change.at);
    if es[i].path == es[j].path {
      RenderIsInjective(lines[i].change.at, lines[j].change.at);
    }
  }

  /** Without that, two places can be written alike: a key with a dot in it, and a key below a key. */
  lemma DottedKeysCollide()
    ensures Render("", [Field("a.b")]) == Render("", [Field("a"), Field("b")])
  {
    RenderOne("", Field("a.b"));
    RenderSnoc("", [Field("a")], Field("b"));
    RenderOne("", Field("a"));
    assert [Field("a")] + [Field("b")] == [Field("a"), Field("b")];
    assert "a" + "." + "b" == "a.b";
  }
}
