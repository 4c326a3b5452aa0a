/** The heap automaton behind the secrets prefilter: a trie of mutable nodes, failure links
    set by a breadth-first walk, and the matcher that follows them. */
module AhoCorasick {
  import opened Ascii
  import opened AhoSpec
  import opened AhoWave
  import opened Folding

  class AhoNode {
    var next: map<byte, AhoNode>
    var fail: AhoNode?
    var outputs: seq<Bytes>
    ghost const path: Bytes   // the edge labels from the root down to here

    constructor (ghost path: Bytes)
      ensures next == map[] && fail == null && outputs == [] && this.path == path
    {
      next, fail, outputs := map[], null, [];
      this.path := path;
    }
  }

  ghost predicate IsNode(at: map<Bytes, AhoNode>, n: AhoNode) {
    n.path in at && at[n.path] == n
  }

  ghost function PathSeq(ns: seq<AhoNode>): seq<Bytes> {
    seq(|ns|, i requires 0 <= i < |ns| => ns[i].path)
  }

  lemma PathSeqMoves(queue: seq<AhoNode>, cs: seq<AhoNode>)
    requires queue != []
    ensures PathSeq(queue)[0] == queue[0].path
    ensures PathSeq(queue[1..] + cs) == PathSeq(queue)[1..] + PathSeq(cs)
  {
  }

  /** The sequence lists the nodes at these paths, each once. */
  ghost predicate Lists(at: map<Bytes, AhoNode>, paths: set<Bytes>, ns: seq<AhoNode>) {
    && (forall n :: n in ns ==> IsNode(at, n))
    && Enumerates(PathSeq(ns), paths)
  }

  lemma ListsOneMore(at: map<Bytes, AhoNode>, paths: set<Bytes>, ns: seq<AhoNode>, n: AhoNode)
    requires Lists(at, paths, ns) && IsNode(at, n) && n.path !in paths
    ensures Lists(at, paths + {n.path}, ns + [n])
  {
    var qs := PathSeq(ns);
    assert PathSeq(ns + [n]) == qs + [n.path];
    assert forall i :: 0 <= i < |qs| ==> qs[i] in qs;
  }

  class AhoTrie {
    const root: AhoNode
    ghost var at: map<Bytes, AhoNode>   // the node each path from the root leads to
    ghost var nodes: set<AhoNode>       // all of them
    ghost var kws: set<Bytes>           // the keywords inserted so far, in their own spelling

    ghost predicate Named()
      reads `at, `nodes
    {
      forall p :: p in at ==> at[p] in nodes && at[p].path == p
    }

    /** The nodes reachable from the root form a tree whose paths are at.Keys. */
    ghost predicate Tree()
      reads `at, `nodes, nodes`next
    {
      && PrefixClosed(at.Keys)
      && at[[]] == root
      && Named()
      && (forall p, b :: p in at ==> (b in at[p].next <==> Snoc(p, b) in at))
      && (forall p, b :: p in at && b in at[p].next ==> at[p].next[b] == at[Snoc(p, b)])
    }

    /** The paths are exactly the prefixes of the folded keywords. */
    ghost predicate Shape()
      reads `at, `nodes, `kws, nodes`next
    {
      && Tree()
      && at.Keys == PathsOf(kws)
      && [] !in kws
    }

    /** Before the failure links: the node reports only the keywords that end there. */
    ghost predicate Unlinked(n: AhoNode)
      reads `kws, n`fail, n`outputs
    {
      && n.fail == null
      && forall k :: k in n.outputs <==> k in kws && Lower(k) == n.path
    }

    /** After the failure links: the node reports all keywords that are suffixes of its path.
        Proofs that need what this means mention Unfold(n.path). */
    ghost predicate Linked(n: AhoNode)
      requires [] in at
      reads `at, `kws, n`fail, n`outputs
    {
      forall p {:trigger Unfold(p)} :: p == n.path && Unfold(p) ==>
        && n.fail == (if p == [] then null else at[Fail(at.Keys, p)])
        && forall k :: k in n.outputs <==> k in Outs(kws, p)
    }

    /** The breadth-first walk is part-way: exactly these paths are linked. */
    ghost predicate Progress(done: set<Bytes>)
      requires [] in at
      reads `at, `kws, at.Values`fail, at.Values`outputs
    {
      && (forall q {:trigger Linked(at[q])} :: q in done && q in at ==> Linked(at[q]))
      && (forall q {:trigger Unlinked(at[q])} :: q in at && q !in done ==> Unlinked(at[q]))
    }

    ghost predicate Valid()
      reads this, nodes
    {
      Shape() && forall p {:trigger Linked(at[p])} :: p in at ==> Linked(at[p])
    }

    constructor ()
      ensures Shape() && kws == {} && fresh(root) && nodes == {root}
      ensures forall p {:trigger Unlinked(at[p])} :: p in at ==> Unlinked(at[p])
    {
      root := new AhoNode([]);
      new;
      at, nodes, kws := map[[] := root], {root}, {};
    }

    method Insert(pat: Bytes)
      requires Shape() && pat != [] && pat !in kws
      requires forall p {:trigger Unlinked(at[p])} :: p in at ==> Unlinked(at[p])
      modifies this, nodes
      ensures Shape() && kws == old(kws) + {pat}
      ensures forall p {:trigger Unlinked(at[p])} :: p in at ==> Unlinked(at[p])
      ensures forall m :: m in nodes ==> m in old(nodes) || fresh(m)
    {
      KeywordsArePaths(kws);
      var n := Walk(pat);
      PathsOfAdd(kws, pat);
      Report(n, pat);
    }

    /** Makes the node at the end of the pattern report it. */
    method Report(n: AhoNode, pat: Bytes)
      requires forall p :: p in at ==> at[p].path == p && Unlinked(at[p])
      requires n.path in at && n == at[n.path] && n.path == Lower(pat)
      modifies n`outputs, `kws
      ensures kws == old(kws) + {pat}
      ensures forall p {:trigger Unlinked(at[p])} :: p in at ==> Unlinked(at[p])
    {
      n.outputs := n.outputs + [pat];
      kws := kws + {pat};
      forall p | p in at ensures Unlinked(at[p]) {
        assert old(Unlinked(at[p]));
      }
    }

    /** Part-way through an insertion: n is the node of the first i bytes, and their prefixes were added. */
    ghost predicate Walking(n: AhoNode, low: Bytes, i: nat, before: set<Bytes>)
      requires i <= |low|
      reads `at, `nodes, `kws, nodes`next, at.Values`fail, at.Values`outputs
    {
      && Tree() && low[..i] in at && n == at[low[..i]]
      && at.Keys == before + Prefixes(low[..i]) && Folded(kws) <= at.Keys
      && forall p {:trigger Unlinked(at[p])} :: p in at ==> Unlinked(at[p])
    }

    /** Follows the folded pattern from the root, creating the nodes that are missing. */
    method Walk(pat: Bytes) returns (n: AhoNode)
      requires Tree()
      requires Folded(kws) <= at.Keys
      requires forall p {:trigger Unlinked(at[p])} :: p in at ==> Unlinked(at[p])
      modifies `at, `nodes, nodes`next
      ensures Tree() && Lower(pat) in at && n == at[Lower(pat)]
      ensures at.Keys == old(at.Keys) + Prefixes(Lower(pat))
      ensures forall p {:trigger Unlinked(at[p])} :: p in at ==> Unlinked(at[p])
      ensures forall m :: m in nodes ==> m in old(nodes) || fresh(m)
    {
      n := root;
      ghost var low := Lower(pat);
      var i := 0;
      while i < |pat|
        invariant 0 <= i <= |pat|
        invariant Walking(n, low, i, old(at.Keys))
        invariant forall m :: m in nodes ==> m in old(nodes) || fresh(m)
      {
        n := WalkOne(n, ToLower(pat[i]), low, i, old(at.Keys));
        i := i + 1;
      }
      assert low[..i] == low;
    }

    method WalkOne(n: AhoNode, b: byte, ghost low: Bytes, ghost i: nat, ghost before: set<Bytes>) returns (c: AhoNode)
      requires i < |low| && b == low[i] && Walking(n, low, i, before)
      modifies `at, `nodes, n`next
      ensures Walking(c, low, i + 1, before)
      ensures nodes == old(nodes) + {c} && (c in old(nodes) || fresh(c))
    {
      PrefixSnoc(low, i);
      c := Descend(n, b, low[..i]);
    }

    /** One step of insertion: follow the edge labelled b, creating it when it is missing. */
    method Descend(n: AhoNode, b: byte, ghost path: Bytes) returns (c: AhoNode)
      requires Tree() && path in at && n == at[path]
      requires Folded(kws) <= at.Keys
      requires forall p {:trigger Unlinked(at[p])} :: p in at ==> Unlinked(at[p])
      modifies `at, `nodes, n`next
      ensures Tree() && Snoc(path, b) in at && c == at[Snoc(path, b)]
      ensures at.Keys == old(at.Keys) + {Snoc(path, b)}
      ensures forall p {:trigger Unlinked(at[p])} :: p in at ==> Unlinked(at[p])
      ensures nodes == old(nodes) + {c} && (c in old(nodes) || fresh(c))
    {
      if b in n.next {
        c := n.next[b];
        assert c == at[Snoc(path, b)];
      } else {
        c := new AhoNode(Snoc(path, b));
        AddEdge(n, b, path, c);
        assert Unlinked(c) by {
          assert forall k :: k in kws ==> Lower(k) in Folded(kws);
        }
      }
    }

    method AddEdge(n: AhoNode, b: byte, ghost path: Bytes, c: AhoNode)
      requires Tree() && path in at && n == at[path] && Snoc(path, b) !in at
      requires c !in nodes && c.path == Snoc(path, b) && c.next == map[]
      modifies `at, `nodes, n`next
      ensures Tree() && at == old(at)[Snoc(path, b) := c] && nodes == old(nodes) + {c}
    {
      n.next := n.next[b := c];
      at, nodes := at[Snoc(path, b) := c], nodes + {c};
      forall p, d | p in at
        ensures d in at[p].next <==> Snoc(p, d) in at
        ensures d in at[p].next ==> at[p].next[d] == at[Snoc(p, d)]
      {
        assert Snoc(p, d) == Snoc(path, b) ==> p == path && d == b;
        assert at[p] == n <==> p == path;
      }
    }

    /** Walks failure links from the parent for a node with an edge on b; null when there is none. */
    method FindFail(n: AhoNode, b: byte, ghost done: set<Bytes>) returns (target: AhoNode?)
      requires Shape() && Progress(done) && IsNode(at, n) && n.path != []
      requires forall q :: q in at && |q| <= |n.path| ==> q in done
      ensures Fail(at.Keys, Snoc(n.path, b)) in at
      ensures target == null ==> Fail(at.Keys, Snoc(n.path, b)) == []
      ensures target != null ==> target == at[Fail(at.Keys, Snoc(n.path, b))]
    {
      ghost var goal, s := Fail(at.Keys, Snoc(n.path, b)), Fail(at.Keys, n.path);
      FailOfChild(at.Keys, n.path, b);
      assert Linked(at[n.path]) && Unfold(n.path);
      var f := n.fail;
      while f != null
        invariant f != null ==> s in at && |s| < |n.path| && f == at[s] && Step(at.Keys, s, b) == goal
        invariant f == null ==> goal == []
        decreases if f == null then 0 else |s| + 1
      {
        if b in f.next {
          return f.next[b];
        }
        assert Linked(at[s]) && Unfold(s);
        s := if s == [] then s else Fail(at.Keys, s);
        f := f.fail;
      }
      return null;
    }

    /** Links one child, given that every node no deeper than its parent is linked. */
    method LinkChild(n: AhoNode, b: byte, ghost done: set<Bytes>) returns (c: AhoNode)
      requires Shape() && Progress(done) && IsNode(at, n) && n.path != []
      requires b in n.next && Snoc(n.path, b) !in done
      requires forall q :: q in at && |q| <= |n.path| ==> q in done
      modifies nodes`fail, nodes`outputs
      ensures c.path == Snoc(n.path, b) && IsNode(at, c)
      ensures Progress(done + {c.path})
    {
      c := n.next[b];
      ChildNode(n, b);
      var f := FindFail(n, b, done);
      if f == null {
        f := root;
      }
      TargetIsDone(c, f, done);
      Link(c, f, done);
    }

    /** The child of a node along an edge. */
    lemma ChildNode(n: AhoNode, b: byte)
      requires Tree() && IsNode(at, n) && b in n.next
      ensures n.next[b].path == Snoc(n.path, b) && IsNode(at, n.next[b])
    {
      assert at[n.path] == n;
    }

    /** The node a child fails to was linked before it. */
    lemma TargetIsDone(c: AhoNode, f: AhoNode, done: set<Bytes>)
      requires Shape() && c.path != [] && at[Fail(at.Keys, c.path)] == f
      requires forall q :: q in at && |q| < |c.path| ==> q in done
      ensures [] in at && Named() && Folded(kws) <= at.Keys
      ensures IsNode(at, f) && f.path in done && f.path == Fail(at.Keys, c.path)
    {
      KeywordsArePaths(kws);
    }

    method Link(c: AhoNode, f: AhoNode, ghost done: set<Bytes>)
      requires [] in at && Named() && Folded(kws) <= at.Keys
      requires Progress(done) && IsNode(at, c) && IsNode(at, f)
      requires c.path != [] && c.path !in done && f.path in done && f.path == Fail(at.Keys, c.path)
      modifies c`fail, c`outputs
      ensures Progress(done + {c.path})
    {
      assert Unlinked(at[c.path]) && Linked(at[f.path]);
      SetFail(c, f);
      forall q | q in done && q in at ensures Linked(at[q]) {
        assert at[q] != c && old(Linked(at[q]));
      }
      forall q | q in at && q !in done + {c.path} ensures Unlinked(at[q]) {
        assert at[q] != c && old(Unlinked(at[q]));
      }
    }

    method SetFail(c: AhoNode, f: AhoNode)
      requires [] in at && Folded(kws) <= at.Keys && IsNode(at, f) && c.path != [] && f.path == Fail(at.Keys, c.path)
      requires Linked(f) && Unlinked(c)
      modifies c`fail, c`outputs
      ensures Linked(c)
    {
      assert Unfold(f.path);
      c.fail := f;
      OutsOfNode(at.Keys, kws, c.path);
      c.outputs := c.outputs + c.fail.outputs;
    }

    /** Part-way through the children of a node: those along the edges in keys are still to be linked, and
        cs lists the others, whose paths are linked. Below done lies all that a child can fail to. */
    ghost predicate Linking(n: AhoNode, cs: seq<AhoNode>, keys: set<byte>, linked: set<Bytes>, done: set<Bytes>)
      reads `at, `nodes, `kws, nodes`next, n`next, at.Values`fail, at.Values`outputs
    {
      && Shape() && IsNode(at, n) && n.path != [] && keys <= n.next.Keys
      && (forall q :: q in at && |q| <= |n.path| ==> q in done) && Below(at.Keys, n.path) !! done
      && Progress(done + linked) && Reached(at.Keys, n.path, keys, linked) && Lists(at, linked, cs)
    }

    /** Links the next child: the ones linked so far stay linked and listed. */
    method LinkNext(n: AhoNode, b: byte, cs: seq<AhoNode>, ghost keys: set<byte>, ghost linked: set<Bytes>,
      ghost done: set<Bytes>) returns (more: seq<AhoNode>)
      requires Linking(n, cs, keys, linked, done) && b in keys
      modifies nodes`fail, nodes`outputs
      ensures Linking(n, more, keys - {b}, linked + {Snoc(n.path, b)}, done)
    {
      ReachedOneMore(at.Keys, n.path, keys, linked, b);
      var c := LinkChild(n, b, done + linked);
      ListsOneMore(at, linked, cs, c);
      assert done + linked + {c.path} == done + (linked + {c.path});
      more := cs + [c];
    }

    /** Links all children of a node, in any order, and returns them. */
    method Expand(n: AhoNode, ghost done: set<Bytes>) returns (cs: seq<AhoNode>)
      requires Shape() && Progress(done) && IsNode(at, n) && n.path != []
      requires forall q :: q in at && |q| <= |n.path| ==> q in done
      requires Below(at.Keys, n.path) !! done
      modifies nodes`fail, nodes`outputs
      ensures Progress(done + Below(at.Keys, n.path))
      ensures Lists(at, Below(at.Keys, n.path), cs)
    {
      cs := [];
      var keys := n.next.Keys;
      ghost var linked: set<Bytes> := {};
      assert done + linked == done;
      while keys != {}
        invariant Linking(n, cs, keys, linked, done)
      {
        var b :| b in keys;
        cs := LinkNext(n, b, cs, keys, linked, done);
        linked, keys := linked + {Snoc(n.path, b)}, keys - {b};
      }
      assert linked == Below(at.Keys, n.path);
    }

    /** The root's children fail to the root and keep the outputs they have. */
    method LinkRoot(ghost done: set<Bytes>) returns (cs: seq<AhoNode>)
      requires Shape() && Progress(done) && [] in done && Below(at.Keys, []) !! done
      modifies nodes`fail, nodes`outputs
      ensures Progress(done + Below(at.Keys, []))
      ensures Lists(at, Below(at.Keys, []), cs)
    {
      cs := [];
      var keys := root.next.Keys;
      ghost var linked: set<Bytes>, cur := {}, done;
      while keys != {}
        invariant keys <= root.next.Keys && Reached(at.Keys, [], keys, linked)
        invariant cur == done + linked && Progress(cur)
        invariant Lists(at, linked, cs)
      {
        var b :| b in keys;
        ReachedOneMore(at.Keys, [], keys, linked, b);
        var c := LinkRootChild(b, cur);
        ListsOneMore(at, linked, cs, c);
        linked, cur, keys, cs := linked + {c.path}, cur + {c.path}, keys - {b}, cs + [c];
      }
      assert linked == Below(at.Keys, []);
    }

    method LinkRootChild(b: byte, ghost done: set<Bytes>) returns (c: AhoNode)
      requires Shape() && Progress(done) && [] in done
      requires b in root.next && Snoc([], b) !in done
      modifies nodes`fail, nodes`outputs
      ensures c.path == Snoc([], b) && IsNode(at, c)
      ensures Progress(done + {c.path})
    {
      c := root.next[b];
      assert c == at[Snoc([], b)];
      FailOfChild(at.Keys, [], b);
      KeywordsArePaths(kws);
      Link(c, root, done);
    }

    /** The root needs no failure link and, as no keyword is empty, reports nothing. */
    lemma RootIsLinked()
      requires Shape() && Progress({})
      ensures Progress({[]})
    {
      assert Unlinked(at[[]]);
    }

    method BuildFailLinks()
      requires Shape() && Progress({})
      modifies nodes`fail, nodes`outputs
      ensures Valid()
    {
      RootIsLinked();
      assert Below(at.Keys, []) !! {[]};
      var queue := LinkRoot({[]});
      WaveStart(at.Keys, PathSeq(queue));
      ghost var expanded, done := {[]}, {[]} + Below(at.Keys, []);
      ghost var d: nat := 1;
      while |queue| > 0
        invariant Frontier(queue, expanded, done, d) && Progress(done)
        decreases at.Keys - expanded
      {
        ghost var p := queue[0].path;
        queue := ExpandFront(queue, expanded, done, d);
        expanded, done, d := expanded + {p}, done + Below(at.Keys, p), |p|;
      }
      AllLinked(queue, expanded, done, d);
    }

    lemma AllLinked(queue: seq<AhoNode>, expanded: set<Bytes>, done: set<Bytes>, d: nat)
      requires Shape() && queue == [] && Frontier(queue, expanded, done, d) && Progress(done)
      ensures Valid()
    {
      assert PathSeq(queue) == [];
      WaveEnd(at.Keys, expanded, done, d);
    }

    /** Takes the first node off the queue, links its children and appends them. */
    method ExpandFront(queue: seq<AhoNode>, ghost expanded: set<Bytes>, ghost done: set<Bytes>, ghost d: nat)
      returns (grown: seq<AhoNode>)
      requires Shape() && queue != [] && Frontier(queue, expanded, done, d) && Progress(done)
      modifies nodes`fail, nodes`outputs
      ensures queue[0].path in at.Keys - expanded
      ensures Progress(done + Below(at.Keys, queue[0].path))
      ensures Frontier(grown, expanded + {queue[0].path}, done + Below(at.Keys, queue[0].path), |queue[0].path|)
    {
      assert PathSeq(queue)[0] == queue[0].path && queue[0] in queue;
      WaveFront(at.Keys, PathSeq(queue), expanded, done, d);
      var cs := Expand(queue[0], done);
      FrontierMoves(queue, cs, expanded, done, d);
      grown := queue[1..] + cs;
    }

    ghost predicate Frontier(queue: seq<AhoNode>, expanded: set<Bytes>, done: set<Bytes>, d: nat)
      reads `at
    {
      && Wave(at.Keys, PathSeq(queue), expanded, done, d)
      && forall n :: n in queue ==> IsNode(at, n)
    }

    lemma FrontierMoves(queue: seq<AhoNode>, cs: seq<AhoNode>, expanded: set<Bytes>, done: set<Bytes>, d: nat)
      requires queue != [] && Frontier(queue, expanded, done, d)
      requires Lists(at, Below(at.Keys, queue[0].path), cs)
      ensures Frontier(queue[1..] + cs, expanded + {queue[0].path}, done + Below(at.Keys, queue[0].path),
        |queue[0].path|)
    {
      PathSeqMoves(queue, cs);
      WaveStep(at.Keys, PathSeq(queue), expanded, done, d, PathSeq(cs));
      assert forall n :: n in queue[1..] + cs ==> n in queue || n in cs;
    }

    /** The node reached from n on byte b, and how many failure links were followed to get there. */
    method Advance(n: AhoNode, b: byte) returns (m: AhoNode, ghost hops: nat)
      requires Valid() && IsNode(at, n)
      ensures IsNode(at, m) && m.path == Step(at.Keys, n.path, b)
      ensures hops + |m.path| <= |n.path| + 1
    {
      m, hops := n, 0;
      while true
        invariant IsNode(at, m) && Step(at.Keys, m.path, b) == Step(at.Keys, n.path, b)
        invariant hops + |m.path| <= |n.path|
        decreases |m.path|
      {
        if b in m.next {
          m := m.next[b];
          return;
        }
        if m == root {
          return;
        }
        assert Linked(at[m.path]) && Unfold(m.path);
        m := m.fail;
        hops := hops + 1;
      }
    }

    /** From the longest suffix of the first i bytes to that of the first i + 1. */
    method ReadByte(n: AhoNode, ghost low: Bytes, ghost i: nat, b: byte) returns (m: AhoNode, ghost hops: nat)
      requires Valid() && i < |low| && b == low[i]
      requires IsNode(at, n) && n.path == LongestSuffix(at.Keys, low[..i])
      ensures IsNode(at, m) && m.path == LongestSuffix(at.Keys, low[..i + 1])
      ensures hops + |m.path| <= |n.path| + 1
      ensures forall k :: k in m.outputs <==> k in Outs(kws, low[..i + 1])
    {
      StepIsLongestSuffix(at.Keys, low[..i], b);
      PrefixSnoc(low, i);
      m, hops := Advance(n, b);
      ReportsSuffixes(m, low[..i + 1]);
    }

    /** The node of the longest suffix that is a path reports every keyword that is a suffix. */
    lemma ReportsSuffixes(m: AhoNode, t: Bytes)
      requires Valid() && IsNode(at, m) && m.path == LongestSuffix(at.Keys, t)
      ensures forall k :: k in m.outputs <==> k in Outs(kws, t)
    {
      KeywordsArePaths(kws);
      OutsOfLongest(at.Keys, kws, t);
      assert Linked(at[m.path]) && Unfold(m.path);
    }

    /** Reads the text once; the current node is always the longest suffix read that is a trie path. */
    method Search(text: Bytes) returns (found: set<Bytes>, ghost hops: nat)
      requires Valid()
      ensures found == set k | k in kws && Mentions(text, k)
      ensures hops <= |text|
    {
      ghost var low := Lower(text);
      found, hops := {}, 0;
      var n := root;
      for i := 0 to |text|
        invariant IsNode(at, n) && n.path == LongestSuffix(at.Keys, low[..i])
        invariant found == SeenBy(kws, low, i)
        invariant hops + |n.path| <= i
      {
        ghost var h;
        n, h := ReadByte(n, low, i, ToLower(text[i]));
        hops := hops + h;
        SeenByNext(kws, low, i);
        found := AddAll(found, n.outputs, Outs(kws, low[..i + 1]));
      }
      assert low[..|text|] == low;
      SeenByAll(kws, low);
      forall k | k in kws ensures Occurs(Lower(k), low) <==> Mentions(text, k) {
        MentionsFolds(text, k);
      }
    }

    /** The deduplicated keywords found in the text, in any order; nil has none. */
    static method MatchKeywords(t: AhoTrie?, text: Bytes) returns (out: seq<Bytes>, ghost hops: nat)
      requires t != null ==> t.Valid()
      ensures NoDuplicates(out) && hops <= |text|
      ensures t == null ==> out == []
      ensures t != null ==> forall k :: k in out <==> k in t.kws && Mentions(text, k)
    {
      if t == null {
        return [], 0;
      }
      var found;
      found, hops := t.Search(text);
      ghost var all := found;
      out := [];
      while found != {}
        invariant found <= all && NoDuplicates(out)
        invariant forall k :: k in out <==> k in all - found
      {
        var k :| k in found;
        assert k !in out;
        out, found := out + [k], found - {k};
      }
    }
  }

  method AddAll(found: set<Bytes>, outputs: seq<Bytes>, ghost reported: set<Bytes>) returns (r: set<Bytes>)
    requires forall k :: k in outputs <==> k in reported
    ensures r == found + reported
  {
    r := found;
    for j := 0 to |outputs|
      invariant r == found + set o | o in outputs[..j]
    {
      r := r + {outputs[j]};
    }
    assert outputs[..|outputs|] == outputs;
  }

  ghost function NonEmpty(keywords: seq<Bytes>): set<Bytes> {
    set k | k in keywords && k != []
  }

  lemma NonEmptyOneMore(keywords: seq<Bytes>, i: nat)
    requires i < |keywords|
    ensures NonEmpty(keywords[..i + 1]) == NonEmpty(keywords[..i]) + if keywords[i] == [] then {} else {keywords[i]}
  {
  }

  /** Builds the automaton for the non-empty keywords; no keywords at all, no automaton. */
  method BuildAho(keywords: seq<Bytes>) returns (t: AhoTrie?)
    ensures keywords == [] <==> t == null
    ensures t != null ==> fresh(t) && fresh(t.nodes) && t.Valid()
    ensures t != null ==> t.kws == NonEmpty(keywords)
  {
    if |keywords| == 0 {
      return null;
    }
    t := InsertAll(keywords);
    t.BuildFailLinks();
  }

  /** The trie of the distinct non-empty keywords, before its failure links are set. */
  method InsertAll(keywords: seq<Bytes>) returns (t: AhoTrie)
    ensures fresh(t) && fresh(t.nodes) && t.Shape() && t.Progress({}) && t.kws == NonEmpty(keywords)
  {
    t := new AhoTrie();
    var seen: set<Bytes> := {};
    for i := 0 to |keywords|
      invariant fresh(t) && fresh(t.nodes) && t.Shape() && t.Progress({})
      invariant seen == t.kws == NonEmpty(keywords[..i])
    {
      var k := keywords[i];
      NonEmptyOneMore(keywords, i);
      if k != [] && k !in seen {
        seen := seen + {k};
        t.Insert(k);
      }
    }
    assert keywords[..|keywords|] == keywords;
  }
}
