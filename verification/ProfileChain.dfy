/** Resolving a profile pack to its line of ancestors. */
module ProfileChain {

  /** The packs on disk: for each "id@version" its parent, stripped; "" when it has none. */
  type Packs = map<string, string>

  datatype Resolved = Chain(packs: seq<string>) | Cycle(at: string) | NotFound(at: string)

  /** The n-th ancestor of a pack; "" beyond the root or below a missing pack. */
  function Ancestor(packs: Packs, spec: string, n: nat): string {
    if n == 0 then spec
    else
      var below := Ancestor(packs, spec, n - 1);
      if below in packs then packs[below] else ""
  }

  /** The first n packs of the walk exist, and none of them is the empty name. */
  predicate Walked(packs: Packs, spec: string, n: nat) {
    forall i :: 0 <= i < n ==> Ancestor(packs, spec, i) != "" && Ancestor(packs, spec, i) in packs
  }

  function Reversed(s: seq<string>): (r: seq<string>)
    ensures |r| == |s| && forall i :: 0 <= i < |s| ==> r[i] == s[|s| - 1 - i]
  {
    seq(|s|, i requires 0 <= i < |s| => s[|s| - 1 - i])
  }

  /** The walk meets the pack at twice. */
  ghost predicate Repeats(packs: Packs, spec: string, i: nat, j: nat, at: string) {
    i < j && Walked(packs, spec, j) && Ancestor(packs, spec, i) == at && Ancestor(packs, spec, j) == at
  }

  /** After n packs the walk asks for one that is not there. */
  ghost predicate Misses(packs: Packs, spec: string, n: nat, at: string) {
    Walked(packs, spec, n) && Ancestor(packs, spec, n) == at && at != "" && at !in packs
  }

  /** The first packs of the walk, each once. */
  ghost predicate Visited(packs: Packs, spec: string, chain: seq<string>) {
    && Walked(packs, spec, |chain|)
    && (forall i :: 0 <= i < |chain| ==> chain[i] == Ancestor(packs, spec, i))
    && forall i, j :: 0 <= i < j < |chain| ==> chain[i] != chain[j]
  }

  lemma VisitOne(packs: Packs, spec: string, chain: seq<string>)
    requires Visited(packs, spec, chain)
    requires var cur := Ancestor(packs, spec, |chain|); cur != "" && cur in packs && cur !in chain
    ensures Visited(packs, spec, chain + [Ancestor(packs, spec, |chain|)])
  {
  }

  lemma FewerLeft(all: set<string>, seen: set<string>, x: string)
    requires x in all && x !in seen
    ensures |all - (seen + {x})| < |all - seen|
  {
    assert all - seen == (all - (seen + {x})) + {x};
  }

  /** resolve_chain: the ancestors root first; a repeated pack is a cycle. */
  method ResolveChain(packs: Packs, spec: string) returns (r: Resolved)
    ensures r.Chain? ==> Visited(packs, spec, Reversed(r.packs)) && Ancestor(packs, spec, |r.packs|) == ""
    ensures r.Cycle? ==> exists i, j :: Repeats(packs, spec, i, j, r.at)
    ensures r.NotFound? ==> exists n :: Misses(packs, spec, n, r.at)
  {
    var chain: seq<string>, seen: set<string>, cur := [], {}, spec;
    while cur != ""
      invariant Visited(packs, spec, chain) && cur == Ancestor(packs, spec, |chain|)
      invariant forall x :: x in seen <==> x in chain
      invariant seen <= packs.Keys
      decreases |packs.Keys - seen|
    {
      if cur in seen {
        ghost var i :| 0 <= i < |chain| && chain[i] == cur;
        assert Repeats(packs, spec, i, |chain|, cur);
        return Cycle(cur);
      }
      if cur !in packs {
        assert Misses(packs, spec, |chain|, cur);
        return NotFound(cur);
      }
      VisitOne(packs, spec, chain);
      FewerLeft(packs.Keys, seen, cur);
      seen := seen + {cur};
      chain := chain + [cur];
      cur := packs[cur];
    }
    assert Reversed(Reversed(chain)) == chain;
    return Chain(Reversed(chain));
  }

  /** A walk that meets a pack twice never ends, so a chain is returned exactly when the walk ends at a
      pack without a parent, and the three outcomes exclude each other. */
  lemma {:induction false} WalkRepeats(packs: Packs, spec: string, i: nat, j: nat, n: nat)
    requires i < j && Walked(packs, spec, j) && Ancestor(packs, spec, i) == Ancestor(packs, spec, j)
    ensures Walked(packs, spec, n) && Ancestor(packs, spec, i + n) == Ancestor(packs, spec, j + n)
    ensures Ancestor(packs, spec, n) != ""
  {
    if n > 0 {
      WalkRepeats(packs, spec, i, j, n - 1);
      if n >= j {
        WalkRepeats(packs, spec, i, j, n - j);
        var k := n - (j - i);
        WalkRepeats(packs, spec, i, j, k);
        WalkRepeats(packs, spec, i, j, k - i);
        assert i + (k - i) == k && j + (k - i) == n;
      }
    } else {
      assert Ancestor(packs, spec, 0) != "";
    }
  }
}
