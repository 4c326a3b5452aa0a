/** Bundle distribution: builds on the server, the gateway's poller, the one-slot update channel and the
    consumer that installs. One action is one atomic step; any interleaving is a run. */
module Distribution {
  import opened Utf8

  /** parses: every policy document in it decodes into an object (or is null), so that an index can be built. */
  datatype Manifest = Manifest(bundleSeq: int, policies: set<string>, parses: bool)

  datatype Answer = Envelope(m: Manifest) | UpToDate | Nothing

  /** Where the poller is: between polls, with a request under way, and in the three steps of the
      coalescing send. */
  datatype Poller = Resting | Asked(answer: Answer)
    | Offering(m: Manifest) | Emptying(m: Manifest) | Putting(m: Manifest)

  datatype State = State(
    published: seq<Manifest>,        // of this tenant and environment
    poller: Poller,
    lastSeq: int,
    lastKnownOK: Option<Manifest>,
    slot: Option<Manifest>,          // the channel of capacity one
    taken: Option<Manifest>,         // by the consumer, not yet installed
    index: Option<Manifest>,         // the manifest behind the policy index in force
    installed: seq<int>)             // bundle sequence numbers in the order installed

  const START := State([], Resting, 0, None, None, None, None, [])

  datatype Action =
    | Build(policies: set<string>, parses: bool)
    | Ask
    | Fail          // transport error, bad status, undecodable or unverifiable envelope
    | Deliver
    | Offer
    | Empty
    | Put
    | Take
    | Install

  /** pull: the newest bundle when it is newer than what the caller has. */
  function Reply(published: seq<Manifest>, since: int): Answer {
    if published == [] then Nothing
    else if published[|published| - 1].bundleSeq <= since then UpToDate
    else Envelope(published[|published| - 1])
  }

  /** One more than the largest number so far. */
  function NextSeq(published: seq<Manifest>): (n: int)
    ensures forall i :: 0 <= i < |published| ==> published[i].bundleSeq < n
  {
    if published == [] then 1
    else
      var n := NextSeq(published[..|published| - 1]);
      if published[|published| - 1].bundleSeq >= n then published[|published| - 1].bundleSeq + 1 else n
  }

  predicate Enabled(s: State, a: Action) {
    match a
    case Build(_, _) => true
    case Ask => s.poller.Resting?
    case Fail => s.poller.Asked?
    case Deliver => s.poller.Asked? && !s.poller.answer.Nothing?
    case Offer => s.poller.Offering?
    case Empty => s.poller.Emptying?
    case Put => s.poller.Putting? && s.slot.None?
    case Take => s.slot.Some? && s.taken.None?
    case Install => s.taken.Some?
  }

  function Next(s: State, a: Action): State
    requires Enabled(s, a)
  {
    match a
    case Build(policies, parses) =>
      s.(published := s.published + [Manifest(NextSeq(s.published), policies, parses)])
    case Ask => s.(poller := Asked(Reply(s.published, s.lastSeq)))
    case Fail => s.(poller := Resting)
    case Deliver =>
      if s.poller.answer.UpToDate? then s.(poller := Resting)
      else
        var m := s.poller.answer.m;
        s.(poller := Offering(m), lastSeq := m.bundleSeq, lastKnownOK := Some(m))
    case Offer => if s.slot.None? then s.(slot := Some(s.poller.m), poller := Resting)
      else s.(poller := Emptying(s.poller.m))
    case Empty => s.(slot := None, poller := Putting(s.poller.m))
    case Put => s.(slot := Some(s.poller.m), poller := Resting)
    case Take => s.(taken := s.slot, slot := None)
    case Install =>
      var m := s.taken.value;
      if m.parses then s.(taken := None, index := Some(m), installed := s.installed + [m.bundleSeq])
        else s.(taken := None)
  }

  function Run(s: State, actions: seq<Action>): Option<State>
    decreases |actions|
  {
    if actions == [] then Some(s)
    else if Enabled(s, actions[0]) then Run(Next(s, actions[0]), actions[1..])
    else None
  }

  // ---- what every step keeps ----

  /** The manifest the poller is about to send, if any. */
  function Sending(s: State): Option<Manifest> {
    match s.poller
    case Resting => None
    case Asked(_) => None
    case Offering(m) => Some(m)
    case Emptying(m) => Some(m)
    case Putting(m) => Some(m)
  }

  function SeqOf(m: Option<Manifest>, otherwise: int): int {
    if m.Some? then m.value.bundleSeq else otherwise
  }

  function LastInstalled(s: State): int {
    if s.installed == [] then 0 else s.installed[|s.installed| - 1]
  }

  predicate Increasing(ns: seq<int>) {
    forall i, j :: 0 <= i < j < |ns| ==> ns[i] < ns[j]
  }

  ghost predicate Numbered(published: seq<Manifest>) {
    forall i :: 0 <= i < |published| ==> published[i].bundleSeq == i + 1
  }

  /** The pipeline holds ever newer manifests towards the poller. */
  predicate Ordered(s: State) {
    && LastInstalled(s) <= s.lastSeq
    && (s.taken.Some? ==> LastInstalled(s) < s.taken.value.bundleSeq <= s.lastSeq)
    && (s.slot.Some? ==> SeqOf(s.taken, LastInstalled(s)) < s.slot.value.bundleSeq <= s.lastSeq)
    && (Sending(s).Some? ==> SeqOf(s.slot, SeqOf(s.taken, LastInstalled(s))) < Sending(s).value.bundleSeq)
  }

  /** The newest manifest fetched is on its way or has reached the consumer. */
  predicate OnItsWay(s: State) {
    s.lastKnownOK.Some? ==>
      || Sending(s) == s.lastKnownOK
      || (Sending(s).None? && s.slot == s.lastKnownOK)
      || (Sending(s).None? && s.slot.None? && s.taken == s.lastKnownOK)
      || (Sending(s).None? && s.slot.None? && s.taken.None? && (s.lastKnownOK.value.parses ==> s.index == s.lastKnownOK)
          && (!s.lastKnownOK.value.parses ==> s.index != s.lastKnownOK))
  }

  ghost predicate Sound(s: State) {
    && Numbered(s.published)
    && 0 <= s.lastSeq <= |s.published|
    && (s.lastKnownOK.None? ==> s.lastSeq == 0 && Sending(s).None? && s.slot.None? && s.taken.None? && s.index.None?)
    && (s.lastKnownOK.Some? ==> s.lastSeq > 0 && s.lastKnownOK.value == s.published[s.lastSeq - 1])
    && (s.poller.Asked? && s.poller.answer.Envelope? ==>
          s.poller.answer.m in s.published && s.poller.answer.m.bundleSeq > s.lastSeq)
    && (s.index.None? ==> s.installed == [])
    && (s.index.Some? ==> s.installed != [] && LastInstalled(s) == s.index.value.bundleSeq && s.index.value.parses)
    && (Sending(s).Some? ==> Sending(s) == s.lastKnownOK)
    && (s.poller.Putting? ==> s.slot.None?)
    && Ordered(s) && OnItsWay(s) && Increasing(s.installed)
  }

  lemma NextSeqOfNumbered(published: seq<Manifest>)
    requires Numbered(published)
    ensures NextSeq(published) == |published| + 1
  {
    if published != [] {
      NextSeqOfNumbered(published[..|published| - 1]);
    }
  }

  lemma BuildStaysSound(s: State, policies: set<string>, parses: bool)
    requires Sound(s)
    ensures Sound(Next(s, Build(policies, parses)))
  {
    NextSeqOfNumbered(s.published);
    var t := Next(s, Build(policies, parses));
    assert s.lastKnownOK.Some? ==> t.published[s.lastSeq - 1] == s.published[s.lastSeq - 1];
  }

  lemma PollStaysSound(s: State, a: Action)
    requires Enabled(s, a) && Sound(s) && (a.Ask? || a.Fail? || a.Deliver?)
    ensures Sound(Next(s, a))
  {
  }

  lemma SendStaysSound(s: State, a: Action)
    requires Enabled(s, a) && Sound(s) && (a.Offer? || a.Empty? || a.Put?)
    ensures Sound(Next(s, a))
  {
  }

  lemma ConsumerStaysSound(s: State, a: Action)
    requires Enabled(s, a) && Sound(s) && (a.Take? || a.Install?)
    ensures Sound(Next(s, a))
  {
  }

  lemma StepStaysSound(s: State, a: Action)
    requires Enabled(s, a) && Sound(s)
    ensures Sound(Next(s, a))
  {
    match a
    case Build(policies, parses) => BuildStaysSound(s, policies, parses);
    case Take => ConsumerStaysSound(s, a);
    case Install => ConsumerStaysSound(s, a);
    case Offer => SendStaysSound(s, a);
    case Empty => SendStaysSound(s, a);
    case Put => SendStaysSound(s, a);
    case _ => PollStaysSound(s, a);
  }

  lemma {:induction false} RunStaysSound(s: State, actions: seq<Action>)
    requires Sound(s) && Run(s, actions).Some?
    ensures Sound(Run(s, actions).value)
    decreases |actions|
  {
    if actions != [] {
      StepStaysSound(s, actions[0]);
      RunStaysSound(Next(s, actions[0]), actions[1..]);
    }
  }

  // ---- longer runs ----

  lemma RunOne(s: State, a: Action, rest: seq<Action>)
    requires Enabled(s, a)
    ensures Run(s, [a] + rest) == Run(Next(s, a), rest)
  {
    assert ([a] + rest)[1..] == rest;
  }

  lemma {:induction false} RunConcat(s: State, a: seq<Action>, b: seq<Action>)
    ensures Run(s, a + b) == if Run(s, a).None? then None else Run(Run(s, a).value, b)
    decreases |a|
  {
    if a == [] {
      assert a + b == b;
    } else {
      assert (a + b)[1..] == a[1..] + b;
      if Enabled(s, a[0]) {
        RunConcat(Next(s, a[0]), a[1..], b);
      }
    }
  }

  // ---- the results ----

  /** In every reachable state: bundles were installed in strictly increasing order, what is in force is
      the last of them and was published, and a poller about to put a manifest into the channel finds
      it empty, so its send never blocks. */
  lemma InstalledInOrder(actions: seq<Action>)
    requires Run(START, actions).Some?
    ensures var s := Run(START, actions).value;
      && Increasing(s.installed)
      && (s.index.Some? ==> s.installed != [] && s.index.value.bundleSeq == s.installed[|s.installed| - 1])
      && (s.poller.Putting? ==> Enabled(s, Put))
  {
    RunStaysSound(START, actions);
  }

  /** Actions of the server and the consumer. */
  predicate NotThePoller(a: Action) {
    a.Build? || a.Take? || a.Install?
  }

  /** They neither see nor touch the poller. */
  lemma {:induction false} RunBesideThePoller(s: State, p: Poller, actions: seq<Action>)
    requires forall i :: 0 <= i < |actions| ==> NotThePoller(actions[i])
    ensures var r := Run(s, actions);
      Run(s.(poller := p), actions) == if r.None? then None else Some(r.value.(poller := p))
    ensures Run(s, actions).Some? ==> Run(s, actions).value.poller == s.poller
    decreases |actions|
  {
    if actions != [] {
      var a := actions[0];
      assert NotThePoller(a);
      assert Enabled(s.(poller := p), a) <==> Enabled(s, a);
      if Enabled(s, a) {
        assert Next(s.(poller := p), a) == Next(s, a).(poller := p);
        RunBesideThePoller(Next(s, a), p, actions[1..]);
      }
    }
  }

  /** A poll that fails, whatever was built or installed meanwhile and however the run goes on, leaves
      no mark: the run without it is possible exactly when this one is, and ends in the same state. */
  lemma FailedPollIsInvisible(s: State, during: seq<Action>, after: seq<Action>)
    requires s.poller.Resting? && forall i :: 0 <= i < |during| ==> NotThePoller(during[i])
    ensures Run(s, [Ask] + during + [Fail] + after) == Run(s, during + after)
  {
    var asked := Next(s, Ask);
    RunBesideThePoller(s, asked.poller, during);
    assert [Ask] + during + [Fail] + after == [Ask] + (during + ([Fail] + after));
    RunOne(s, Ask, during + ([Fail] + after));
    RunConcat(asked, during, [Fail] + after);
    RunConcat(s, during, after);
    if Run(s, during).Some? {
      var t := Run(asked, during).value;
      RunOne(t, Fail, after);
      assert Next(t, Fail) == Run(s, during).value;
    }
  }

  /** The poller rests and nothing is on its way. */
  predicate Quiet(s: State) {
    s.poller.Resting? && s.slot.None? && s.taken.None?
  }

  /** When all is quiet and the gateway has the number of the last bundle built, the newest manifest was
      fetched, and it is in force exactly when an index can be built from it. */
  lemma QuietMeansNewest(actions: seq<Action>)
    requires Run(START, actions).Some?
    requires var s := Run(START, actions).value; Quiet(s) && s.published != [] && s.lastSeq == |s.published|
    ensures var s := Run(START, actions).value;
      && s.lastKnownOK == Some(s.published[|s.published| - 1])
      && (s.index == s.lastKnownOK <==> s.published[|s.published| - 1].parses)
  {
    RunStaysSound(START, actions);
  }

  /** From any reachable quiet state one good poll brings the newest bundle into force. */
  lemma OneGoodPollInstalls(s: State)
    requires Sound(s) && Quiet(s) && s.lastSeq < |s.published| && s.published[|s.published| - 1].parses
    ensures var t := Run(s, [Ask, Deliver, Offer, Take, Install]);
      t.Some? && t.value.index == Some(s.published[|s.published| - 1]) && Quiet(t.value)
  {
    var s1 := Next(s, Ask);
    var s2 := Next(s1, Deliver);
    var s3 := Next(s2, Offer);
    var s4 := Next(s3, Take);
    RunOne(s4, Install, []);
    RunOne(s3, Take, [Install]);
    RunOne(s2, Offer, [Take, Install]);
    RunOne(s1, Deliver, [Offer, Take, Install]);
    RunOne(s, Ask, [Deliver, Offer, Take, Install]);
  }

  /** What the server answers a poll from a sound state: nothing to deliver while nothing was built, the
      last bundle when the gateway has an older one, and else that it is up to date. */
  lemma AskedAndAnswered(s: State)
    requires Sound(s) && s.poller.Resting?
    ensures var t := Next(s, Ask);
      && (Enabled(t, Deliver) <==> s.published != [])
      && (s.published != [] && s.lastSeq < |s.published| ==>
        t.poller == Asked(Envelope(s.published[|s.published| - 1])) && Next(t, Deliver).lastSeq == |s.published|)
      && (s.published != [] && s.lastSeq == |s.published| ==> Next(t, Deliver) == s)
  {
  }

  /** A manifest no index can be built from is not tried again: until another bundle is built the old
      index stays in force, whatever is polled. */
  lemma {:induction false} UnparsableIsNotRetried(s: State, actions: seq<Action>)
    requires Sound(s) && s.slot.None? && s.taken.None? && Sending(s).None? && s.lastSeq == |s.published|
    requires Run(s, actions).Some? && forall i :: 0 <= i < |actions| ==> !actions[i].Build?
    ensures Run(s, actions).value.index == s.index
    decreases |actions|
  {
    if actions != [] {
      StepStaysSound(s, actions[0]);
      UnparsableIsNotRetried(Next(s, actions[0]), actions[1..]);
    }
  }
}
