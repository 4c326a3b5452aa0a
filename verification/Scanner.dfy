/** The secrets scanner: the keyword index, the prefiltered scan and its reference, which runs every rule. */
module Scanner {
  import opened Ascii
  import opened AhoCorasick
  import AhoWave
  import opened Spans

  datatype Rule = Rule(id: string, keywords: seq<Bytes>, confidence: real, entropyMin: real, validators: seq<string>)

  /** The parts of the scan that are not modelled: the regex engine, the entropy measure and the
      structural validators, as functions of what the source passes them. */
  datatype Engine = Engine(
    find: (Rule, Bytes) -> seq<(nat, nat)>,
    entropy: Bytes -> real,
    accepts: (string, Bytes) -> bool)
  {
    ghost predicate InRange(r: Rule, text: Bytes) {
      forall i :: 0 <= i < |find(r, text)| ==> find(r, text)[i].0 <= find(r, text)[i].1 <= |text|
    }

    predicate Accepts(names: seq<string>, m: Bytes) {
      forall n :: n in names ==> accepts(n, m)
    }

    /** The candidate one match gives, if it passes the entropy, validator and threshold tests. */
    function Candidate(r: Rule, text: Bytes, threshold: real, loc: (nat, nat)): (c: seq<Span>)
      requires loc.0 <= loc.1 <= |text|
      ensures forall x :: x in c ==> x.confidence >= threshold
      ensures r.entropyMin <= 0.0 && r.confidence < threshold ==> c == []
    {
      var m := text[loc.0..loc.1];
      var h := entropy(m);
      var raised := r.confidence + (h - r.entropyMin) / 10.0;
      var conf := if r.entropyMin > 0.0 then (if raised < 1.0 then raised else 1.0) else r.confidence;
      if r.entropyMin > 0.0 && h < r.entropyMin then []
      else if !Accepts(r.validators, m) then []
      else if conf < threshold then []
      else [Span(loc.0, loc.1, r.id, conf)]
    }

    function CandidatesTo(r: Rule, text: Bytes, threshold: real, n: nat): seq<Span>
      requires InRange(r, text) && n <= |find(r, text)|
    {
      if n == 0 then []
      else CandidatesTo(r, text, threshold, n - 1) + Candidate(r, text, threshold, find(r, text)[n - 1])
    }

    /** Everything one rule contributes when it is run. */
    function Candidates(r: Rule, text: Bytes, threshold: real): seq<Span>
      requires InRange(r, text)
    {
      CandidatesTo(r, text, threshold, |find(r, text)|)
    }

    /** x is the span of a match, under its rule's label: the entropy reaches the rule's minimum if it has
        one, every validator accepts, and the confidence, raised by a tenth of the excess entropy up to
        1, reaches the threshold. */
    predicate GivesSpan(r: Rule, text: Bytes, threshold: real, loc: (nat, nat), x: Span)
      requires loc.0 <= loc.1 <= |text|
    {
      var m := text[loc.0..loc.1];
      && (r.entropyMin > 0.0 ==> entropy(m) >= r.entropyMin)
      && (forall v :: v in r.validators ==> accepts(v, m))
      && x.start == loc.0 && x.end == loc.1 && x.tag == r.id && x.confidence >= threshold
      && (r.entropyMin <= 0.0 ==> x.confidence == r.confidence)
      && (r.entropyMin > 0.0 ==> var c := r.confidence + (entropy(m) - r.entropyMin) / 10.0;
        x.confidence == c <= 1.0 || x.confidence == 1.0 < c)
    }

    lemma CandidateGives(r: Rule, text: Bytes, threshold: real, loc: (nat, nat), x: Span)
      requires loc.0 <= loc.1 <= |text|
      ensures x in Candidate(r, text, threshold, loc) <==> GivesSpan(r, text, threshold, loc, x)
    {
    }

    /** The candidates of a rule are the spans that its matches give. */
    lemma {:induction false} WhoIsACandidate(r: Rule, text: Bytes, threshold: real, n: nat, x: Span)
      requires InRange(r, text) && n <= |find(r, text)|
      ensures x in CandidatesTo(r, text, threshold, n) <==>
        exists i :: 0 <= i < n && GivesSpan(r, text, threshold, find(r, text)[i], x)
    {
      if n > 0 {
        WhoIsACandidate(r, text, threshold, n - 1, x);
        CandidateGives(r, text, threshold, find(r, text)[n - 1], x);
      }
    }

    /** Skipping a rule below the threshold before running it drops nothing. */
    lemma EarlySkipDropsNothing(r: Rule, text: Bytes, threshold: real, n: nat)
      requires InRange(r, text) && n <= |find(r, text)|
      requires r.confidence < threshold && r.entropyMin == 0.0
      ensures CandidatesTo(r, text, threshold, n) == []
    {
    }

    ghost predicate AllInRange(rules: seq<Rule>, text: Bytes) {
      forall i :: 0 <= i < |rules| ==> InRange(rules[i], text)
    }

    /** What each rule contributes, as a multiset: the order of candidates is left open. */
    ghost function Yields(rules: seq<Rule>, text: Bytes, threshold: real): (ys: seq<multiset<Span>>)
      requires AllInRange(rules, text)
      ensures |ys| == |rules|
    {
      seq(|rules|, i requires 0 <= i < |rules| => multiset(Candidates(rules[i], text, threshold)))
    }

    /** The candidates of every rule: the scan without its prefilter. */
    ghost function Everything(rules: seq<Rule>, text: Bytes, threshold: real): multiset<Span>
      requires AllInRange(rules, text)
    {
      Total(Yields(rules, text, threshold), |rules|)
    }

    /** The candidates of the rules the prefilter selects. */
    ghost function Prefiltered(rules: seq<Rule>, text: Bytes, threshold: real): multiset<Span>
      requires AllInRange(rules, text)
    {
      Chosen(Yields(rules, text, threshold), SelectedRules(rules, text), |rules|)
    }
  }

  ghost function Total(ys: seq<multiset<Span>>, n: nat): multiset<Span>
    requires n <= |ys|
  {
    if n == 0 then multiset{} else Total(ys, n - 1) + ys[n - 1]
  }

  ghost function Chosen(ys: seq<multiset<Span>>, chosen: set<nat>, n: nat): multiset<Span>
    requires n <= |ys|
  {
    if n == 0 then multiset{}
    else if n - 1 in chosen then Chosen(ys, chosen, n - 1) + ys[n - 1]
    else Chosen(ys, chosen, n - 1)
  }

  lemma {:induction false} ChooseOneMore(ys: seq<multiset<Span>>, chosen: set<nat>, i: nat, n: nat)
    requires n <= |ys| && i !in chosen && i < |ys|
    ensures i < n ==> Chosen(ys, chosen + {i}, n) == Chosen(ys, chosen, n) + ys[i]
    ensures i >= n ==> Chosen(ys, chosen + {i}, n) == Chosen(ys, chosen, n)
  {
    if n > 0 {
      ChooseOneMore(ys, chosen, i, n - 1);
    }
  }

  ghost predicate OnlySilentLeftOut(ys: seq<multiset<Span>>, chosen: set<nat>, n: nat)
    requires n <= |ys|
  {
    forall i :: 0 <= i < n && ys[i] != multiset{} ==> i in chosen
  }

  /** Leaving rules out never adds a candidate, and loses some exactly when a rule left out had any. */
  lemma {:induction false} LeavingOut(ys: seq<multiset<Span>>, chosen: set<nat>, n: nat)
    requires n <= |ys|
    ensures Chosen(ys, chosen, n) <= Total(ys, n)
    ensures Chosen(ys, chosen, n) == Total(ys, n) <==> OnlySilentLeftOut(ys, chosen, n)
  {
    if n > 0 {
      LeavingOut(ys, chosen, n - 1);
      SumsEqual(Chosen(ys, chosen, n - 1), Total(ys, n - 1), ys[n - 1]);
    }
  }

  lemma SumsEqual(a: multiset<Span>, b: multiset<Span>, c: multiset<Span>)
    requires a <= b
    ensures a == b + c <==> a == b && c == multiset{}
    ensures a + c == b + c <==> a == b
  {
    if a == b + c {
      assert |a| == |b| + |c|;
      assert b == a + (b - a);
      assert |b| == |a| + |b - a|;
    }
    assert (a + c) - c == a && (b + c) - c == b;
  }

  /** The rule has no keywords, or the text mentions a non-empty one of them. */
  ghost predicate Selected(r: Rule, text: Bytes) {
    r.keywords == [] || exists k :: k in r.keywords && Mentions(text, k)
  }

  ghost function SelectedRules(rules: seq<Rule>, text: Bytes): set<nat> {
    set i: nat | i < |rules| && Selected(rules[i], text)
  }

  /** The prefilter loses nothing exactly when every rule with a candidate is a global rule or has a
      non-empty keyword that the text mentions. */
  lemma PrefilterIsLossless(e: Engine, rules: seq<Rule>, text: Bytes, threshold: real)
    requires e.AllInRange(rules, text)
    ensures e.Prefiltered(rules, text, threshold) == e.Everything(rules, text, threshold)
      <==> forall i :: 0 <= i < |rules| && e.Candidates(rules[i], text, threshold) != [] ==> Selected(rules[i], text)
  {
    var ys, chosen := e.Yields(rules, text, threshold), SelectedRules(rules, text);
    LeavingOut(ys, chosen, |rules|);
    forall i | 0 <= i < |rules|
      ensures ys[i] == multiset{} <==> e.Candidates(rules[i], text, threshold) == []
      ensures i in chosen <==> Selected(rules[i], text)
    {
      assert |ys[i]| == |e.Candidates(rules[i], text, threshold)|;
    }
  }

  /** A rule whose only keywords are empty strings never runs, whatever its regex matches. */
  lemma EmptyKeywordsNeverRun(r: Rule, text: Bytes)
    requires r.keywords != [] && forall k :: k in r.keywords ==> k == []
    ensures !Selected(r, text)
  {
  }

  ghost function KeywordsOf(rules: seq<Rule>): set<Bytes> {
    set i, k | 0 <= i < |rules| && k in rules[i].keywords :: k
  }

  ghost predicate Fans(index: map<Bytes, seq<nat>>, k: Bytes, i: nat) {
    k in index && i in index[k]
  }

  /** The index with one more rule under a keyword. */
  function Fanned(index: map<Bytes, seq<nat>>, k: Bytes, n: nat): (r: map<Bytes, seq<nat>>)
    ensures forall k', i: nat :: Fans(r, k', i) <==> Fans(index, k', i) || (i == n && k' == k)
  {
    index[k := (if k in index then index[k] else []) + [n]]
  }

  /** The inner loop of loading: a rule under each of its keywords. */
  method IndexRule(index: map<Bytes, seq<nat>>, known: seq<Bytes>, keywords: seq<Bytes>, n: nat)
    returns (byKeyword: map<Bytes, seq<nat>>, allKeywords: seq<Bytes>)
    ensures forall k, i: nat :: Fans(byKeyword, k, i) <==> Fans(index, k, i) || (i == n && k in keywords)
    ensures allKeywords == known + keywords
  {
    byKeyword, allKeywords := index, known;
    for j := 0 to |keywords|
      invariant allKeywords == known + keywords[..j]
      invariant forall k, i: nat ::
        Fans(byKeyword, k, i) <==> Fans(index, k, i) || (i == n && k in keywords[..j])
    {
      byKeyword := Fanned(byKeyword, keywords[j], n);
      allKeywords := allKeywords + [keywords[j]];
    }
    assert keywords[..|keywords|] == keywords;
  }

  class Scanner {
    const engine: Engine
    const rules: seq<Rule>
    var prefilter: AhoTrie?
    var byKeyword: map<Bytes, seq<nat>>
    var global: seq<nat>

    ghost predicate Indexed(n: nat)
      requires n <= |rules|
      reads `byKeyword, `global
    {
      && (forall i: nat :: i in global <==> i < n && rules[i].keywords == [])
      && (forall k, i: nat :: Fans(byKeyword, k, i) <==> i < n && k in rules[i].keywords)
    }

    ghost predicate Valid()
      reads this, prefilter, if prefilter == null then {} else prefilter.nodes
    {
      && Indexed(|rules|)
      && (prefilter == null ==> KeywordsOf(rules) == {})
      && (prefilter != null ==> prefilter.Valid() && prefilter.kws == KeywordsOf(rules) - {[]})
    }

    constructor Load(engine: Engine, rules: seq<Rule>)
      ensures Valid() && this.engine == engine && this.rules == rules
    {
      this.engine, this.rules := engine, rules;
      byKeyword, global, prefilter := map[], [], null;
      new;
      var allKeywords: seq<Bytes> := [];
      for n := 0 to |rules|
        invariant Indexed(n) && prefilter == null
        invariant forall k :: k in allKeywords <==> exists i :: 0 <= i < n && k in rules[i].keywords
      {
        if rules[n].keywords == [] {
          global := global + [n];
        } else {
          byKeyword, allKeywords := IndexRule(byKeyword, allKeywords, rules[n].keywords, n);
        }
      }
      prefilter := BuildAho(allKeywords);
      assert forall k :: k in KeywordsOf(rules) <==> k in allKeywords;
    }

    /** The rules to run: those of every keyword found, and the global ones. */
    method Hits(text: Bytes) returns (hits: set<nat>)
      requires Valid()
      ensures hits == SelectedRules(rules, text)
    {
      hits := {};
      ghost var hops;
      var found;
      found, hops := AhoTrie.MatchKeywords(prefilter, text);
      for j := 0 to |found|
        invariant forall i :: i in hits <==> exists m :: 0 <= m < j && Fans(byKeyword, found[m], i)
      {
        if found[j] in byKeyword {
          hits := AddRules(hits, byKeyword[found[j]]);
        }
      }
      hits := AddRules(hits, global);
      forall i: nat ensures i in hits <==> i < |rules| && Selected(rules[i], text) {
        if i < |rules| && Selected(rules[i], text) && rules[i].keywords != [] {
          var k :| k in rules[i].keywords && Mentions(text, k);
          assert k in KeywordsOf(rules) && k in found;
          var m :| 0 <= m < |found| && found[m] == k;
          assert Fans(byKeyword, found[m], i);
        }
        if i in hits && i !in global {
          var m :| 0 <= m < |found| && Fans(byKeyword, found[m], i);
          assert found[m] in found;
        }
      }
    }

    method AddRules(hits: set<nat>, more: seq<nat>) returns (r: set<nat>)
      ensures forall i :: i in r <==> i in hits || i in more
    {
      r := hits;
      for j := 0 to |more|
        invariant forall i :: i in r <==> i in hits || i in more[..j]
      {
        r := r + {more[j]};
      }
    }

    /** Runs one rule; its matches are taken in the order the regex engine gives them. */
    method RunRule(r: Rule, text: Bytes, threshold: real) returns (out: seq<Span>)
      requires engine.InRange(r, text)
      ensures out == engine.Candidates(r, text, threshold)
    {
      out := [];
      var locs := engine.find(r, text);
      if r.confidence < threshold && r.entropyMin == 0.0 {
        engine.EarlySkipDropsNothing(r, text, threshold, |locs|);
        return;
      }
      for j := 0 to |locs|
        invariant out == engine.CandidatesTo(r, text, threshold, j)
      {
        var start, end := locs[j].0, locs[j].1;
        var m, conf := text[start..end], r.confidence;
        if r.entropyMin > 0.0 {
          var h := engine.entropy(m);
          if h < r.entropyMin {
            continue;
          }
          conf := r.confidence + (h - r.entropyMin) / 10.0;
          if conf >= 1.0 {
            conf := 1.0;
          }
        }
        if !engine.Accepts(r.validators, m) || conf < threshold {
          continue;
        }
        out := out + [Span(start, end, r.id, conf)];
      }
    }

    /** Runs the selected rules in any order and removes overlaps in place. */
    method Scan(text: Bytes, threshold: real) returns (kept: seq<Span>)
      requires Valid() && engine.AllInRange(rules, text)
      ensures text == [] ==> kept == []
      ensures text != [] ==> Deduped(GoBefore, engine.Prefiltered(rules, text, threshold), kept)
    {
      if |text| == 0 {
        return [];
      }
      var hits := Hits(text);
      ghost var ys, done: set<nat> := engine.Yields(rules, text, threshold), {};
      ChooseNone(ys, |rules|);
      var out: seq<Span> := [];
      while hits != {}
        invariant done + hits == SelectedRules(rules, text) && done !! hits
        invariant multiset(out) == Chosen(ys, done, |rules|)
      {
        var i :| i in hits;
        var cs := RunRule(rules[i], text, threshold);
        ChooseOneMore(ys, done, i, |rules|);
        out, hits, done := out + cs, hits - {i}, done + {i};
      }
      var spans := new Span[|out|](j requires 0 <= j < |out| => out[j]);
      assert spans[..] == out;
      var n := DedupOverlapsGo(spans);
      kept := spans[..n];
    }
  }

  lemma {:induction false} ChooseNone(ys: seq<multiset<Span>>, n: nat)
    requires n <= |ys|
    ensures Chosen(ys, {}, n) == multiset{}
  {
    if n > 0 {
      ChooseNone(ys, n - 1);
    }
  }

  /** When every rule's matches contain one of its non-empty keywords, the reported score is that of
      the scan that runs every rule, whatever order rules, matches and ties are taken in. */
  lemma ScanScore(e: Engine, rules: seq<Rule>, text: Bytes, threshold: real, kept: seq<Span>, all: seq<Span>)
    requires e.AllInRange(rules, text)
    requires forall i :: 0 <= i < |rules| && e.Candidates(rules[i], text, threshold) != [] ==> Selected(rules[i], text)
    requires Deduped(GoBefore, e.Prefiltered(rules, text, threshold), kept)
    requires multiset(all) == e.Everything(rules, text, threshold)
    ensures Score(kept) == Score(all)
  {
    PrefilterIsLossless(e, rules, text, threshold);
    DedupScore(GoBefore, all, kept);
  }

  /** What the backend reports for the spans of a scan. */
  function Verdict(kept: seq<Span>): string {
    if Score(kept) > 0.0 then "FAIL" else "PASS"
  }

  /** Whatever a scan keeps, score and verdict are one for the input: two scans of one text with one set
      of rules agree, and fail exactly when some candidate has a positive confidence. */
  lemma SameVerdict(e: Engine, rules: seq<Rule>, text: Bytes, threshold: real, kept: seq<Span>, again: seq<Span>)
    requires e.AllInRange(rules, text)
    requires Deduped(GoBefore, e.Prefiltered(rules, text, threshold), kept)
    requires Deduped(GoBefore, e.Prefiltered(rules, text, threshold), again)
    ensures Score(kept) == Score(again) && Verdict(kept) == Verdict(again)
    ensures Verdict(kept) == "FAIL" <==>
      exists x :: x in e.Prefiltered(rules, text, threshold) && x.confidence > 0.0
  {
    var candidates := e.Prefiltered(rules, text, threshold);
    var sorted :| SweptFrom(GoBefore, candidates, sorted, kept);
    DedupScore(GoBefore, sorted, kept);
    DedupScore(GoBefore, sorted, again);
    ScoreIsMax(sorted, |sorted|);
    assert forall i :: 0 <= i < |sorted| ==> sorted[i] in multiset(sorted);
    if x :| x in candidates && x.confidence > 0.0 {
      assert x in multiset(sorted);
      var i :| 0 <= i < |sorted| && sorted[i] == x;
    }
  }
}
