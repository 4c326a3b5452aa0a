/** The poller's methods as they run when the consumer does not interfere: each is a run of the
    distribution state machine. */
module Poller {
  import opened Utf8
  import opened Distribution

  lemma RunTwo(s: State, a: Action, b: Action)
    requires Enabled(s, a) && Enabled(Next(s, a), b)
    ensures Run(s, [a, b]) == Some(Next(Next(s, a), b))
  {
    RunOne(Next(s, a), b, []);
    RunOne(s, a, [b]);
  }

  class Client {
    var lastSeq: int
    var lastKnownOK: Option<Manifest>
    var slot: Option<Manifest>          // updatesCh
    ghost var s: State

    ghost predicate Valid()
      reads this
    {
      && Sound(s) && s.poller.Resting?
      && lastSeq == s.lastSeq && lastKnownOK == s.lastKnownOK && slot == s.slot
    }

    constructor ()
      ensures Valid() && s == START
    {
      lastSeq, lastKnownOK, slot := 0, None, None;
      s := START;
    }

    /** PollOnce: None stands for an error, Some(None) for up to date. The answer is the server's; it
        arrives and verifies unless failed. */
    method PollOnce(answer: Answer, failed: bool) returns (m: Option<Option<Manifest>>, ghost run: seq<Action>)
      requires Valid() && answer == Reply(s.published, lastSeq)
      modifies this
      ensures run == if failed || answer.Nothing? then [Ask, Fail] else [Ask, Deliver]
      ensures Run(old(s), run) == Some(s) && Sound(s)
      ensures m == (if failed || answer.Nothing? then None
        else if answer.UpToDate? then Some(None) else Some(Some(answer.m)))
      ensures lastSeq == s.lastSeq && slot == s.slot == old(s).slot && lastKnownOK == old(lastKnownOK)
      ensures s.lastKnownOK == if m.Some? && m.value.Some? then m.value else old(s).lastKnownOK
      ensures s.poller == if m.Some? && m.value.Some? then Offering(m.value.value) else Resting
    {
      if failed || answer.Nothing? {
        run := [Ask, Fail];
        RunTwo(s, Ask, Fail);
        m := None;
      } else {
        run := [Ask, Deliver];
        RunTwo(s, Ask, Deliver);
        if answer.UpToDate? {
          m := Some(None);
        } else {
          lastSeq := answer.m.bundleSeq;
          m := Some(Some(answer.m));
        }
      }
      RunStaysSound(s, run);
      s := Run(s, run).value;
    }

    /** tick: one poll, and the coalescing send. The last send finds the channel empty, so it cannot
        block. */
    method Tick(answer: Answer, failed: bool) returns (ghost run: seq<Action>)
      requires Valid() && answer == Reply(s.published, lastSeq)
      modifies this
      ensures Valid() && Run(old(s), run) == Some(s)
      ensures failed || !answer.Envelope? ==>
        slot == old(slot) && lastSeq == old(lastSeq) && lastKnownOK == old(lastKnownOK)
      ensures !failed && answer.Envelope? ==> slot == lastKnownOK == Some(answer.m) && lastSeq == answer.m.bundleSeq
    {
      ghost var start := s;
      var m;
      m, run := PollOnce(answer, failed);
      if m.None? || m.value.None? {
        return;
      }
      lastKnownOK := m.value;
      ghost var more := if slot.None? then [Offer] else [Offer, Empty, Put];
      if slot.None? {
        RunOne(s, Offer, []);
      } else {
        RunTwo(Next(s, Offer), Empty, Put);
        RunOne(s, Offer, [Empty, Put]);
        assert [Offer] + [Empty, Put] == [Offer, Empty, Put];
        slot := None;
      }
      slot := m.value;
      RunConcat(start, run, more);
      RunStaysSound(s, more);
      s := Run(s, more).value;
      run := run + more;
    }
  }
}
