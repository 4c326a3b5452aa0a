/** The breadth-first order in which failure links are set, on paths alone. */
module AhoWave {
  import opened Ascii
  import opened AhoSpec
  import opened Folding

  ghost predicate NoDuplicates<T>(s: seq<T>) {
    forall i, j :: 0 <= i < j < |s| ==> s[i] != s[j]
  }

  ghost predicate Enumerates(qs: seq<Bytes>, S: set<Bytes>) {
    (forall q :: q in qs <==> q in S) && NoDuplicates(qs)
  }

  /** The queue holds the paths that are done but not expanded, in order of length, at most two
      lengths at once; everything up to the front's length is done. */
  ghost predicate Wave(K: set<Bytes>, qs: seq<Bytes>, expanded: set<Bytes>, done: set<Bytes>, d: nat) {
    forall root: Bytes {:trigger Unfold(root)} :: root == [] && Unfold(root) ==>
    && PrefixClosed(K) && root in expanded && expanded <= done <= K
    && Enumerates(qs, done - expanded)
    && (forall i :: 0 <= i < |qs| ==> d <= |qs[i]| <= d + 1)
    && (forall i, j :: 0 <= i < j < |qs| ==> |qs[i]| <= |qs[j]|)
    && (forall p :: p in expanded ==> Below(K, p) <= done)
    && (forall p :: p in K && p !in expanded ==> Below(K, p) !! done)
    && (forall p :: p in K && |p| <= d ==> p in done)
  }

  lemma BelowLengths(K: set<Bytes>, p: Bytes)
    ensures forall q :: q in Below(K, p) ==> |q| == |p| + 1 && q != []
  {
  }

  /** Every path but the root lies below exactly one path. */
  lemma ParentOf(K: set<Bytes>, q: Bytes) returns (p: Bytes)
    requires PrefixClosed(K) && q in K && q != []
    ensures p in K && |p| == |q| - 1 && q in Below(K, p)
    ensures forall r :: q in Below(K, r) ==> r == p
  {
    p := q[..|q| - 1];
    assert q == Snoc(p, q[|p|]);
    forall r | q in Below(K, r) ensures r == p {
      assert q[..|r|] == r;
    }
  }

  lemma BelowDisjoint(K: set<Bytes>, r: Bytes, p: Bytes)
    requires PrefixClosed(K) && r != p
    ensures Below(K, r) !! Below(K, p)
  {
    BelowLengths(K, r);
    forall q | q in Below(K, r) ensures q !in Below(K, p) {
      var u := ParentOf(K, q);
    }
  }

  lemma WaveStart(K: set<Bytes>, cs: seq<Bytes>)
    requires PrefixClosed(K) && Enumerates(cs, Below(K, []))
    ensures Wave(K, cs, {[]}, {[]} + Below(K, []), 1)
  {
    var done := {[]} + Below(K, []);
    BelowLengths(K, []);
    assert done - {[]} == Below(K, []);
    forall p | p in K && p != [] ensures Below(K, p) !! done {
      BelowLengths(K, p);
    }
    forall p | p in K && |p| <= 1 ensures p in done {
      if p != [] {
        var r := ParentOf(K, p);
      }
    }
  }

  /** When the front of the queue is expanded, everything no longer than it is done. */
  lemma WaveFront(K: set<Bytes>, qs: seq<Bytes>, expanded: set<Bytes>, done: set<Bytes>, d: nat)
    requires Wave(K, qs, expanded, done, d) && qs != []
    ensures qs[0] in K && qs[0] != [] && qs[0] !in expanded && Below(K, qs[0]) !! done
    ensures forall p :: p in K && |p| <= |qs[0]| ==> p in done
  {
    var root: Bytes := [];
    assert Unfold(root);
    assert qs[0] in qs && qs[0] in done - expanded;
    if |qs[0]| == d + 1 {
      forall p | p in K && |p| == d + 1 ensures p in done {
        var r := ParentOf(K, p);
        assert r in qs <==> r in done - expanded;
        assert r in expanded;
      }
    }
  }

  lemma QueueMoves(qs: seq<Bytes>, S: set<Bytes>, cs: seq<Bytes>, T: set<Bytes>)
    requires qs != [] && Enumerates(qs, S) && Enumerates(cs, T) && S !! T
    ensures Enumerates(qs[1..] + cs, S - {qs[0]} + T)
  {
    var rest := qs[1..] + cs;
    assert forall q :: q in qs <==> q == qs[0] || q in qs[1..];
    assert qs[0] !in qs[1..];
    forall i, j | 0 <= i < j < |rest| ensures rest[i] != rest[j] {
      if i < |qs| - 1 <= j {
        assert rest[i] in qs && rest[j] in cs;
      }
    }
  }

  /** The queue without its front and with the paths below it is again in order of length. */
  lemma QueueStaysInOrder(K: set<Bytes>, qs: seq<Bytes>, d: nat, cs: seq<Bytes>)
    requires qs != [] && Enumerates(cs, Below(K, qs[0]))
    requires forall i :: 0 <= i < |qs| ==> d <= |qs[i]| <= d + 1
    requires forall i, j :: 0 <= i < j < |qs| ==> |qs[i]| <= |qs[j]|
    ensures var rest := qs[1..] + cs;
      && (forall i :: 0 <= i < |rest| ==> |qs[0]| <= |rest[i]| <= |qs[0]| + 1)
      && forall i, j :: 0 <= i < j < |rest| ==> |rest[i]| <= |rest[j]|
  {
    var rest := qs[1..] + cs;
    BelowLengths(K, qs[0]);
    forall i | 0 <= i < |cs| ensures |cs[i]| == |qs[0]| + 1 {
      assert cs[i] in cs;
    }
    forall i | 0 <= i < |rest| ensures |qs[0]| <= |rest[i]| <= |qs[0]| + 1 {
      assert if i < |qs| - 1 then rest[i] == qs[i + 1] else rest[i] == cs[i - (|qs| - 1)];
    }
  }

  /** Serving a path puts what lies below it, and nothing that lies below another, among the done. */
  lemma ServedBelow(K: set<Bytes>, expanded: set<Bytes>, done: set<Bytes>, p: Bytes)
    requires PrefixClosed(K) && p in K && p !in expanded
    requires (forall r :: r in expanded ==> Below(K, r) <= done)
    requires forall r :: r in K && r !in expanded ==> Below(K, r) !! done
    ensures forall r :: r in expanded + {p} ==> Below(K, r) <= done + Below(K, p)
    ensures forall r :: r in K && r !in expanded + {p} ==> Below(K, r) !! done + Below(K, p)
  {
    forall r | r in K && r !in expanded + {p} ensures Below(K, r) !! done + Below(K, p) {
      BelowDisjoint(K, r, p);
    }
  }

  lemma WaveStep(K: set<Bytes>, qs: seq<Bytes>, expanded: set<Bytes>, done: set<Bytes>, d: nat, cs: seq<Bytes>)
    requires Wave(K, qs, expanded, done, d) && qs != [] && Enumerates(cs, Below(K, qs[0]))
    ensures Wave(K, qs[1..] + cs, expanded + {qs[0]}, done + Below(K, qs[0]), |qs[0]|)
  {
    var root: Bytes := [];
    assert Unfold(root);
    var p := qs[0];
    WaveFront(K, qs, expanded, done, d);
    BelowLengths(K, p);
    assert p in qs && p in done && p !in Below(K, p);
    QueueMoves(qs, done - expanded, cs, Below(K, p));
    assert done + Below(K, p) - (expanded + {p}) == (done - expanded) - {p} + Below(K, p);
    QueueStaysInOrder(K, qs, d, cs);
    ServedBelow(K, expanded, done, p);
  }

  /** When the queue runs empty every path is done. */
  lemma WaveEnd(K: set<Bytes>, expanded: set<Bytes>, done: set<Bytes>, d: nat)
    requires Wave(K, [], expanded, done, d)
    ensures done == K
  {
    var qs: seq<Bytes>, root: Bytes := [], [];
    assert Wave(K, qs, expanded, done, d) && Unfold(root);
    forall q | q in done ensures q in expanded {
      assert q !in qs;
    }
    forall p | p in K ensures p in done {
      AllReached(K, done, p);
    }
  }

  lemma {:induction false} AllReached(K: set<Bytes>, done: set<Bytes>, p: Bytes)
    requires PrefixClosed(K) && [] in done && p in K
    requires forall q :: q in done ==> Below(K, q) <= done
    ensures p in done
    decreases |p|
  {
    if p != [] {
      var r := ParentOf(K, p);
      AllReached(K, done, r);
    }
  }
}
