/** The gateway's policy index: which policies apply to an application in an environment. */
module PolicyIndex {
  import opened Utf8

  /** What Build reads of a policy's document: None when it does not decode into an object; else whether it
      has a spec with an applies_to (a null has none), and the two lists there. A list entry that is no
      string is None. */
  datatype Applies = NoScope | Scope(apps: seq<Option<string>>, envs: seq<Option<string>>)

  datatype Policy = Policy(id: string, version: string, document: Option<Applies>)

  type AppEnv = (string, string)

  /** An entry that is no string counts as the empty one. */
  function Text(e: Option<string>): string {
    if e.Some? then e.value else ""
  }

  /** How often an entry is in a list. */
  function Times(es: seq<Option<string>>, s: string): nat {
    if es == [] then 0 else Times(es[..|es| - 1], s) + if Text(es[|es| - 1]) == s then 1 else 0
  }

  function Copies(p: Policy, n: nat): (r: seq<Policy>)
    ensures |r| == n && forall i :: 0 <= i < n ==> r[i] == p
  {
    seq(n, _ => p)
  }

  /** How often a policy is listed for an application and an environment. */
  function Listings(p: Policy, key: AppEnv): nat {
    if p.document.None? || p.document.value.NoScope? then 0
    else Times(p.document.value.apps, key.0) * Times(p.document.value.envs, key.1)
  }

  /** What is listed under a key: the policies in manifest order, each as often as it names the pair. */
  function Listed(ps: seq<Policy>, key: AppEnv): seq<Policy> {
    if ps == [] then []
    else Listed(ps[..|ps| - 1], key) + Copies(ps[|ps| - 1], Listings(ps[|ps| - 1], key))
  }

  /** What Resolve returns; a missing key gives no policies. */
  function Resolve(index: map<AppEnv, seq<Policy>>, key: AppEnv): seq<Policy> {
    if key in index then index[key] else []
  }

  lemma {:induction false} TimesIsMembership(es: seq<Option<string>>, s: string)
    ensures Times(es, s) > 0 <==> exists i :: 0 <= i < |es| && Text(es[i]) == s
  {
    if es != [] {
      TimesIsMembership(es[..|es| - 1], s);
    }
  }

  /** The document of the policy has a scope with the application in one list and the environment in
      the other. */
  predicate Names(p: Policy, key: AppEnv) {
    && p.document.Some? && p.document.value.Scope?
    && (exists a :: 0 <= a < |p.document.value.apps| && Says(p.document.value.apps[a], key.0))
    && (exists e :: 0 <= e < |p.document.value.envs| && Says(p.document.value.envs[e], key.1))
  }

  /** The entry is the name, or no string where the name is empty. */
  predicate Says(e: Option<string>, name: string) {
    e == Some(name) || (e == None && name == "")
  }

  lemma SaysText(e: Option<string>, name: string)
    ensures Says(e, name) <==> Text(e) == name
  {
  }

  lemma NamedIsListed(p: Policy, key: AppEnv)
    ensures Listings(p, key) > 0 <==> Names(p, key)
  {
    if p.document.Some? && p.document.value.Scope? {
      var m, n := Times(p.document.value.apps, key.0), Times(p.document.value.envs, key.1);
      var apps, envs := p.document.value.apps, p.document.value.envs;
      TimesIsMembership(apps, key.0);
      TimesIsMembership(envs, key.1);
      forall i | 0 <= i < |apps| ensures Says(apps[i], key.0) <==> Text(apps[i]) == key.0 {
        SaysText(apps[i], key.0);
      }
      forall i | 0 <= i < |envs| ensures Says(envs[i], key.1) <==> Text(envs[i]) == key.1 {
        SaysText(envs[i], key.1);
      }
      assert m * n > 0 <==> m > 0 && n > 0;
    }
  }

  /** A policy is listed for a pair exactly when its document names the application and the environment. */
  lemma {:induction false} ListedIffNamed(ps: seq<Policy>, key: AppEnv, p: Policy)
    ensures p in Listed(ps, key) <==> p in ps && Names(p, key)
  {
    if ps != [] {
      var last := ps[|ps| - 1];
      ListedIffNamed(ps[..|ps| - 1], key, p);
      NamedIsListed(p, key);
      assert ps == ps[..|ps| - 1] + [last];
      var c := Copies(last, Listings(last, key));
      assert p in c <==> p == last && Listings(last, key) > 0 by {
        if p == last && Listings(last, key) > 0 {
          assert c[0] == p;
        }
      }
    }
  }

  /** The listings that one application contributes, and those that all of them do. */
  function RowOf(p: Policy, app: string, envs: seq<Option<string>>, key: AppEnv): seq<Policy> {
    if envs == [] then []
    else RowOf(p, app, envs[..|envs| - 1], key) + if (app, Text(envs[|envs| - 1])) == key then [p] else []
  }

  function PairsOf(p: Policy, apps: seq<Option<string>>, envs: seq<Option<string>>, key: AppEnv): seq<Policy> {
    if apps == [] then []
    else PairsOf(p, apps[..|apps| - 1], envs, key) + RowOf(p, Text(apps[|apps| - 1]), envs, key)
  }

  lemma {:induction false} RowIsCopies(p: Policy, app: string, envs: seq<Option<string>>, key: AppEnv)
    ensures RowOf(p, app, envs, key) == Copies(p, if app == key.0 then Times(envs, key.1) else 0)
  {
    if envs != [] {
      RowIsCopies(p, app, envs[..|envs| - 1], key);
      assert Copies(p, 1) == [p];
    }
  }

  lemma OneMoreTimes(m: nat, more: bool, n: nat)
    ensures (m + if more then 1 else 0) * n == m * n + if more then n else 0
  {
  }

  lemma {:induction false} PairsAreCopies(p: Policy, apps: seq<Option<string>>, envs: seq<Option<string>>, key: AppEnv)
    ensures PairsOf(p, apps, envs, key) == Copies(p, Times(apps, key.0) * Times(envs, key.1))
  {
    if apps != [] {
      var front, app := apps[..|apps| - 1], Text(apps[|apps| - 1]);
      var m, n := Times(front, key.0), Times(envs, key.1);
      PairsAreCopies(p, front, envs, key);
      RowIsCopies(p, app, envs, key);
      OneMoreTimes(m, app == key.0, n);
      assert PairsOf(p, apps, envs, key) == Copies(p, m * n) + Copies(p, if app == key.0 then n else 0);
    }
  }

  lemma ListingsOfScope(p: Policy, key: AppEnv)
    requires p.document.Some? && p.document.value.Scope?
    ensures PairsOf(p, p.document.value.apps, p.document.value.envs, key) == Copies(p, Listings(p, key))
  {
    PairsAreCopies(p, p.document.value.apps, p.document.value.envs, key);
  }

  /** Appends a policy under every pair of its scope. */
  method AddPolicy(start: map<AppEnv, seq<Policy>>, p: Policy) returns (index: map<AppEnv, seq<Policy>>)
    requires p.document.Some? && p.document.value.Scope?
    ensures forall key :: Resolve(index, key) == Resolve(start, key) + Copies(p, Listings(p, key))
  {
    var apps, envs := p.document.value.apps, p.document.value.envs;
    index := start;
    assert apps[..0] == [];
    for a := 0 to |apps|
      invariant forall key: AppEnv :: Resolve(index, key) == Resolve(start, key) + PairsOf(p, apps[..a], envs, key)
    {
      var next := AddRow(index, p, Text(apps[a]), envs);
      forall k: AppEnv ensures Resolve(next, k) == Resolve(start, k) + PairsOf(p, apps[..a + 1], envs, k) {
        PairsOfMore(p, apps, a, envs, k);
        Appended(Resolve(start, k), PairsOf(p, apps[..a], envs, k), RowOf(p, Text(apps[a]), envs, k));
      }
      index := next;
    }
    assert apps[..|apps|] == apps;
    forall key: AppEnv ensures PairsOf(p, apps, envs, key) == Copies(p, Listings(p, key)) {
      ListingsOfScope(p, key);
    }
  }

  lemma RowOfMore(p: Policy, app: string, envs: seq<Option<string>>, e: nat, k: AppEnv)
    requires e < |envs|
    ensures RowOf(p, app, envs[..e + 1], k) ==
      RowOf(p, app, envs[..e], k) + if (app, Text(envs[e])) == k then [p] else []
  {
    assert envs[..e + 1][..e] == envs[..e];
  }

  lemma PairsOfMore(p: Policy, apps: seq<Option<string>>, a: nat, envs: seq<Option<string>>, k: AppEnv)
    requires a < |apps|
    ensures PairsOf(p, apps[..a + 1], envs, k) == PairsOf(p, apps[..a], envs, k) + RowOf(p, Text(apps[a]), envs, k)
  {
    assert apps[..a + 1][..a] == apps[..a];
  }

  lemma Appended(a: seq<Policy>, b: seq<Policy>, c: seq<Policy>)
    ensures (a + b) + c == a + (b + c)
  {
  }

  /** The inner loop, for one application. */
  method AddRow(start: map<AppEnv, seq<Policy>>, p: Policy, app: string, envs: seq<Option<string>>)
    returns (index: map<AppEnv, seq<Policy>>)
    ensures forall key: AppEnv :: Resolve(index, key) == Resolve(start, key) + RowOf(p, app, envs, key)
  {
    index := start;
    assert envs[..0] == [];
    for e := 0 to |envs|
      invariant forall key: AppEnv :: Resolve(index, key) == Resolve(start, key) + RowOf(p, app, envs[..e], key)
    {
      var key := (app, Text(envs[e]));
      var next := index[key := Resolve(index, key) + [p]];
      forall k: AppEnv ensures Resolve(next, k) == Resolve(start, k) + RowOf(p, app, envs[..e + 1], k) {
        RowOfMore(p, app, envs, e, k);
        Appended(Resolve(start, k), RowOf(p, app, envs[..e], k), if key == k then [p] else []);
      }
      index := next;
    }
    assert envs[..|envs|] == envs;
  }

  /** Build: refuses a manifest with an unparsable document, and otherwise lists every policy for every
      pair it names. */
  method Build(ps: seq<Policy>) returns (r: Option<map<AppEnv, seq<Policy>>>)
    ensures r.None? <==> exists i :: 0 <= i < |ps| && ps[i].document.None?
    ensures r.Some? ==> forall key :: Resolve(r.value, key) == Listed(ps, key)
  {
    var index: map<AppEnv, seq<Policy>> := map[];
    for i := 0 to |ps|
      invariant forall k :: 0 <= k < i ==> ps[k].document.Some?
      invariant forall key :: Resolve(index, key) == Listed(ps[..i], key)
    {
      assert ps[..i + 1][..i] == ps[..i];
      if ps[i].document.None? {
        return None;
      }
      if ps[i].document.value.Scope? {
        index := AddPolicy(index, ps[i]);
      }
    }
    assert ps[..|ps|] == ps;
    return Some(index);
  }
}
