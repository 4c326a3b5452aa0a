/** The mathematics of the keyword automaton: longest suffixes that are trie prefixes.
    Everything here is about sets of byte strings; no node or pointer appears. */
module AhoSpec {
  import opened Ascii
  import opened Folding

  /** The path one edge further; its postcondition makes it injective. */
  ghost function Snoc(p: Bytes, b: byte): (r: Bytes)
    ensures |r| == |p| + 1 && r[..|p|] == p && r[|p|] == b
  {
    p + [b]
  }

  /** The paths of K one edge below p. */
  ghost function Below(K: set<Bytes>, p: Bytes): set<Bytes> {
    set q | q in K && |q| == |p| + 1 && q == Snoc(p, q[|p|])
  }

  /** Which edges out of p are still to be followed, and which paths below p were reached. */
  ghost predicate Reached(K: set<Bytes>, p: Bytes, keys: set<byte>, linked: set<Bytes>) {
    linked == set q | q in Below(K, p) && q[|p|] !in keys
  }

  lemma ReachedOneMore(K: set<Bytes>, p: Bytes, keys: set<byte>, linked: set<Bytes>, b: byte)
    requires Reached(K, p, keys, linked) && b in keys && Snoc(p, b) in K
    ensures Reached(K, p, keys - {b}, linked + {Snoc(p, b)})
    ensures Snoc(p, b) !in linked && Snoc(p, b) in Below(K, p)
  {
  }

  ghost function Prefixes(t: Bytes): set<Bytes> {
    set j | 0 <= j <= |t| :: t[..j]
  }

  lemma PrefixSnoc(t: Bytes, i: nat)
    requires i < |t|
    ensures Snoc(t[..i], t[i]) == t[..i + 1]
    ensures Prefixes(t[..i + 1]) == Prefixes(t[..i]) + {t[..i + 1]}
  {
    var u, v := t[..i + 1], t[..i];
    forall j | 0 <= j <= i ensures u[..j] == v[..j] {}
    assert u[..i + 1] == u;
    forall p | p in Prefixes(u) ensures p in Prefixes(v) + {u} {
      var j :| 0 <= j <= |u| && p == u[..j];
      if j <= i {
        assert p == v[..j];
      }
    }
    forall p | p in Prefixes(v) ensures p in Prefixes(u) {
      var j :| 0 <= j <= |v| && p == v[..j];
      assert p == u[..j];
    }
    assert u in Prefixes(u) by { assert u == u[..|u|]; }
  }

  /** The paths of the trie that holds exactly these keywords. */
  ghost function PathsOf(kws: set<Bytes>): set<Bytes> {
    {[]} + set k, p | k in kws && p in Prefixes(Lower(k)) :: p
  }

  lemma PathsOfAdd(kws: set<Bytes>, pat: Bytes)
    ensures PathsOf(kws + {pat}) == PathsOf(kws) + Prefixes(Lower(pat))
  {
  }

  ghost function Folded(kws: set<Bytes>): set<Bytes> {
    set k | k in kws :: Lower(k)
  }

  lemma KeywordsArePaths(kws: set<Bytes>)
    ensures Folded(kws) <= PathsOf(kws)
  {
    forall k | k in kws ensures Lower(k) in PathsOf(kws) {
      var l := Lower(k);
      assert l == l[..|l|];
      assert l in Prefixes(l);
    }
  }

  ghost predicate PrefixClosed(K: set<Bytes>) {
    && [] in K
    && forall p: Bytes, b: byte :: Snoc(p, b) in K ==> p in K
  }

  /** The longest suffix of the text that belongs to K. */
  ghost function LongestSuffix(K: set<Bytes>, t: Bytes): (r: Bytes)
    requires [] in K
    ensures r in K && IsSuffix(r, t)
    ensures forall s {:trigger IsSuffix(s, t)} :: s in K && IsSuffix(s, t) ==> |s| <= |r|
  {
    if t in K then t else
      var r := LongestSuffix(K, t[1..]);
      assert forall s :: s in K && IsSuffix(s, t) ==> IsSuffix(s, t[1..]) by {
        forall s | s in K && IsSuffix(s, t) ensures IsSuffix(s, t[1..]) {
          assert |s| != |t|;
          assert t[1..][|t[1..]| - |s|..] == t[|t| - |s|..];
        }
      }
      assert IsSuffix(r, t) by {
        assert t[1..][|t[1..]| - |r|..] == t[|t| - |r|..];
      }
      r
  }

  /** The target of the failure link of a non-root node. */
  ghost function Fail(K: set<Bytes>, p: Bytes): (r: Bytes)
    requires [] in K && p != []
    ensures r in K && |r| < |p|
  {
    LongestSuffix(K, p[1..])
  }

  /** What following failure links from p on byte b leads to. */
  ghost function Step(K: set<Bytes>, p: Bytes, b: byte): Bytes
    requires [] in K
    decreases |p|
  {
    if Snoc(p, b) in K then Snoc(p, b)
    else if p == [] then []
    else Step(K, Fail(K, p), b)
  }

  lemma SuffixTrans(a: Bytes, b: Bytes, c: Bytes)
    requires IsSuffix(a, b) && IsSuffix(b, c)
    ensures IsSuffix(a, c)
  {
    assert c[|c| - |a|..] == c[|c| - |b|..][|b| - |a|..];
  }

  /** Of two suffixes of one text the shorter is a suffix of the longer. */
  lemma SuffixOfSuffix(s: Bytes, p: Bytes, t: Bytes)
    requires IsSuffix(s, t) && IsSuffix(p, t) && |s| <= |p|
    ensures s == p || (p != [] && IsSuffix(s, p[1..]))
  {
    assert t[|t| - |p|..][|p| - |s|..] == t[|t| - |s|..];
    if |s| == |p| {
      assert s == p;
    } else {
      assert p[1..][|p| - 1 - |s|..] == p[|p| - |s|..];
    }
  }

  lemma SnocSuffix(s: Bytes, t: Bytes, b: byte)
    requires IsSuffix(s, t)
    ensures IsSuffix(Snoc(s, b), Snoc(t, b))
  {
    assert Snoc(t, b)[|t| - |s|..] == t[|t| - |s|..] + [b];
  }

  lemma InitSuffix(q: Bytes, t: Bytes, b: byte) returns (s: Bytes)
    requires q != [] && IsSuffix(q, Snoc(t, b))
    ensures q == Snoc(s, b) && IsSuffix(s, t)
  {
    s := q[..|q| - 1];
    var u := Snoc(t, b)[|t| + 1 - |q|..];
    assert u == q;
    assert t[|t| - |s|..] == u[..|s|];
  }

  /** Failure links compute longest suffixes: stepping the longest suffix of the text read so far
      gives the longest suffix of the text with one more byte. */
  lemma {:induction false} StepIsLongestSuffix(K: set<Bytes>, t: Bytes, b: byte)
    requires PrefixClosed(K)
    ensures Step(K, LongestSuffix(K, t), b) == LongestSuffix(K, Snoc(t, b))
  {
    StepFrom(K, t, LongestSuffix(K, t), b);
  }

  lemma {:induction false} StepFrom(K: set<Bytes>, t: Bytes, p: Bytes, b: byte)
    requires PrefixClosed(K) && p in K && IsSuffix(p, t)
    requires forall s {:trigger IsSuffix(s, t)} :: s in K && IsSuffix(s, t) && Snoc(s, b) in K ==> |s| <= |p|
    ensures Step(K, p, b) == LongestSuffix(K, Snoc(t, b))
    decreases |p|
  {
    if Snoc(p, b) in K {
      EdgeIsLongest(K, t, p, b);
    } else if p == [] {
      NoEdgeAtRoot(K, t, b);
    } else {
      FailKeepsCandidates(K, t, p, b);
      StepFrom(K, t, Fail(K, p), b);
    }
  }

  lemma EdgeIsLongest(K: set<Bytes>, t: Bytes, p: Bytes, b: byte)
    requires PrefixClosed(K) && Snoc(p, b) in K && IsSuffix(p, t)
    requires forall s {:trigger IsSuffix(s, t)} :: s in K && IsSuffix(s, t) && Snoc(s, b) in K ==> |s| <= |p|
    ensures LongestSuffix(K, Snoc(t, b)) == Snoc(p, b)
  {
    SnocSuffix(p, t, b);
    var r := LongestSuffix(K, Snoc(t, b));
    var s := InitSuffix(r, t, b);
    SuffixOfSuffix(s, p, t);
  }

  lemma NoEdgeAtRoot(K: set<Bytes>, t: Bytes, b: byte)
    requires PrefixClosed(K) && Snoc([], b) !in K
    requires forall s {:trigger IsSuffix(s, t)} :: s in K && IsSuffix(s, t) && Snoc(s, b) in K ==> s == []
    ensures LongestSuffix(K, Snoc(t, b)) == []
  {
    var r := LongestSuffix(K, Snoc(t, b));
    if r != [] {
      var s := InitSuffix(r, t, b);
      assert false;
    }
  }

  lemma FailKeepsCandidates(K: set<Bytes>, t: Bytes, p: Bytes, b: byte)
    requires PrefixClosed(K) && p != [] && p in K && IsSuffix(p, t) && Snoc(p, b) !in K
    requires forall s {:trigger IsSuffix(s, t)} :: s in K && IsSuffix(s, t) && Snoc(s, b) in K ==> |s| <= |p|
    ensures IsSuffix(Fail(K, p), t)
    ensures forall s {:trigger IsSuffix(s, t)} :: s in K && IsSuffix(s, t) && Snoc(s, b) in K ==> |s| <= |Fail(K, p)|
  {
    var f := Fail(K, p);
    assert IsSuffix(p[1..], p);
    SuffixTrans(f, p[1..], p);
    SuffixTrans(f, p, t);
    forall s | s in K && IsSuffix(s, t) && Snoc(s, b) in K ensures |s| <= |f| {
      SuffixOfSuffix(s, p, t);
    }
  }

  /** The failure link of a child is found by stepping the failure link of its parent. */
  lemma {:induction false} FailOfChild(K: set<Bytes>, p: Bytes, b: byte)
    requires PrefixClosed(K)
    ensures Fail(K, Snoc(p, b)) == if p == [] then [] else Step(K, Fail(K, p), b)
  {
    if p == [] {
      assert Snoc(p, b)[1..] == [];
    } else {
      assert Snoc(p, b)[1..] == Snoc(p[1..], b);
      StepIsLongestSuffix(K, p[1..], b);
    }
  }

  /** The keywords a node reports: those whose folded form is a suffix of its path. */
  ghost function Outs(kws: set<Bytes>, p: Bytes): set<Bytes> {
    set k | k in kws && IsSuffix(Lower(k), p)
  }

  /** Output propagation along failure links misses nothing and adds nothing. */
  lemma OutsOfNode(K: set<Bytes>, kws: set<Bytes>, p: Bytes)
    requires [] in K && p != [] && Folded(kws) <= K
    ensures Outs(kws, p) == (set k | k in kws && Lower(k) == p) + Outs(kws, Fail(K, p))
  {
    var f := Fail(K, p);
    assert IsSuffix(p[1..], p);
    SuffixTrans(f, p[1..], p);
    forall k | k in kws ensures IsSuffix(Lower(k), p) <==> Lower(k) == p || IsSuffix(Lower(k), f) {
      var l := Lower(k);
      assert l in Folded(kws);
      if IsSuffix(l, f) {
        SuffixTrans(l, f, p);
      }
      if IsSuffix(l, p) && l != p {
        SuffixOfSuffix(l, p, p);
        SuffixOfSuffix(l, f, p[1..]);
        if l != f {
          assert IsSuffix(f[1..], f);
          SuffixTrans(l, f[1..], f);
        }
      }
    }
  }

  /** Suffixes of the text that are keywords are suffixes of the longest trie prefix, and conversely. */
  lemma OutsOfLongest(K: set<Bytes>, kws: set<Bytes>, t: Bytes)
    requires [] in K && Folded(kws) <= K
    ensures Outs(kws, LongestSuffix(K, t)) == Outs(kws, t)
  {
    var r := LongestSuffix(K, t);
    forall k | k in kws ensures IsSuffix(Lower(k), r) <==> IsSuffix(Lower(k), t) {
      assert Lower(k) in Folded(kws);
      if IsSuffix(Lower(k), r) {
        SuffixTrans(Lower(k), r, t);
      }
      if IsSuffix(Lower(k), t) {
        SuffixOfSuffix(Lower(k), r, t);
        assert r != [] ==> IsSuffix(r[1..], r);
        if Lower(k) != r {
          SuffixTrans(Lower(k), r[1..], r);
        }
      }
    }
  }

  /** The keywords that end at one of the first n positions of the text. */
  ghost function SeenBy(kws: set<Bytes>, low: Bytes, n: nat): set<Bytes>
    requires n <= |low|
  {
    set k, j | k in kws && 1 <= j <= n && IsSuffix(Lower(k), low[..j]) :: k
  }

  lemma SeenByNext(kws: set<Bytes>, low: Bytes, n: nat)
    requires n < |low|
    ensures SeenBy(kws, low, n + 1) == SeenBy(kws, low, n) + Outs(kws, low[..n + 1])
  {
  }

  lemma SeenByAll(kws: set<Bytes>, low: Bytes)
    requires [] !in kws
    ensures SeenBy(kws, low, |low|) == set k | k in kws && Occurs(Lower(k), low)
  {
    forall k | k in kws ensures k in SeenBy(kws, low, |low|) <==> Occurs(Lower(k), low) {
      OccursIsSuffixOfPrefix(Lower(k), low);
    }
  }
}
