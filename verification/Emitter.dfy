/** The evidence emitter: callers, a flush worker and a replay worker that share a bounded queue and a
    spool file. One action is one step between two synchronisation points; any interleaving is a run. */
module Emitter {
  import opened Utf8

  /** storable: the ingestion endpoint finds nothing wrong with the event itself. */
  datatype Event = Event(id: string, storable: bool)

  const CAPACITY: nat := 4096
  const BATCH: nat := 50
  const SERVER_MAX: nat := 500   // the largest batch the ingestion endpoint accepts

  /** What ingestion takes, whole or not at all: event ids are the primary key of what it holds. */
  predicate Acceptable(held: set<string>, events: seq<Event>) {
    && 1 <= |events| <= SERVER_MAX
    && (forall i :: 0 <= i < |events| ==> events[i].storable && events[i].id !in held)
    && forall i, j :: 0 <= i < j < |events| ==> events[i].id != events[j].id
  }

  /** A full batch of new events is never too long for the server. */
  lemma FullBatchIsAcceptable(held: set<string>, events: seq<Event>)
    requires 1 <= |events| <= BATCH && forall i :: 0 <= i < |events| ==> events[i].storable && events[i].id !in held
    requires forall i, j :: 0 <= i < j < |events| ==> events[i].id != events[j].id
    ensures Acceptable(held, events)
  {
  }

  function Ids(events: seq<Event>): set<string> {
    set i | 0 <= i < |events| :: events[i].id
  }

  /** What the flush worker is doing with its batch. */
  datatype Flusher = Idle | Posting | Spooling | Gone

  /** Whether it has noticed the stop signal, and then whether it found the queue empty. */
  datatype Mode = Normal | Draining | Leaving

  /** The replay worker holds the spool lock while it sends and while it clears. */
  datatype Replayer = Waiting | Sending | Clearing | Left

  datatype State = State(
    queue: seq<Event>,
    inHand: seq<Event>,      // of callers that found the queue full and wait for the spool lock
    batch: seq<Event>,
    flusher: Flusher,
    mode: Mode,
    spool: seq<Event>,
    replayer: Replayer,
    stopped: bool,           // Close was called
    closed: bool,            // the spool file is closed
    held: set<string>,       // the event ids that the server holds
    // what happened, for the statements below
    emitted: multiset<Event>,
    accepted: multiset<Event>,
    repeated: multiset<Event>, // accepted although the sender saw a failure
    lost: multiset<Event>,
    overlap: bool)           // some Emit had not returned when Close was called

  const START := State([], [], [], Idle, Normal, [], Waiting, false, false, {},
                       multiset{}, multiset{}, multiset{}, multiset{}, false)

  datatype Action =
    | Emit(e: Event)
    | SpoolInHand(i: nat)
    | Take
    | Tick
    | Stop
    | NoticeStop
    | FindEmpty
    | PostOk
    | PostFail(applied: bool)
    | SpoolBatch
    | ReplayBegin
    | ReplayOk
    | ReplayFail(applied: bool)
    | ReplayClear
    | ReplayLeave
    | CloseFile
    | StoredElsewhere(id: string)  // another sender's event reaches the server

  function Bag(s: seq<Event>): multiset<Event> {
    multiset(s)
  }

  predicate LockFree(s: State) {
    s.replayer.Waiting? || s.replayer.Left?
  }

  /** After its batch is dealt with the worker goes on, or is gone when it was leaving. */
  function Resumed(s: State): Flusher {
    if s.mode.Leaving? then Gone else Idle
  }

  /** The server stores a batch. */
  function Stored(s: State, events: seq<Event>): State {
    s.(accepted := s.accepted + Bag(events), held := s.held + Ids(events))
  }

  predicate Enabled(s: State, a: Action) {
    match a
    case Emit(_) => true
    case SpoolInHand(i) => i < |s.inHand| && LockFree(s)
    case Take => s.flusher.Idle? && s.queue != []
    case Tick => s.flusher.Idle? && s.mode.Normal? && s.batch != []
    case Stop => !s.stopped
    case NoticeStop => s.flusher.Idle? && s.mode.Normal? && s.stopped
    case FindEmpty => s.flusher.Idle? && s.mode.Draining? && s.queue == []
    case PostOk => s.flusher.Posting? && Acceptable(s.held, s.batch)
    case PostFail(applied) => s.flusher.Posting? && (applied ==> Acceptable(s.held, s.batch))
    case SpoolBatch => s.flusher.Spooling? && LockFree(s)
    case ReplayBegin => s.replayer.Waiting?
    case ReplayOk => s.replayer.Sending? && Acceptable(s.held, s.spool)
    case ReplayFail(applied) => s.replayer.Sending? && (applied ==> Acceptable(s.held, s.spool))
    case ReplayClear => s.replayer.Clearing?
    case ReplayLeave => s.replayer.Waiting? && s.stopped
    case CloseFile => s.stopped && s.flusher.Gone? && s.replayer.Left? && !s.closed
    case StoredElsewhere(_) => true
  }

  function Next(s: State, a: Action): State
    requires Enabled(s, a)
  {
    match a
    case Emit(e) =>
      var t := s.(emitted := s.emitted + multiset{e}, overlap := s.overlap || s.stopped);
      if |s.queue| < CAPACITY then t.(queue := s.queue + [e]) else t.(inHand := s.inHand + [e])
    case SpoolInHand(i) =>
      var t := s.(inHand := s.inHand[..i] + s.inHand[i + 1..]);
      if s.closed then t.(lost := s.lost + multiset{s.inHand[i]}) else t.(spool := s.spool + [s.inHand[i]])
    case Take =>
      s.(queue := s.queue[1..], batch := s.batch + [s.queue[0]],
         flusher := if |s.batch| + 1 >= BATCH then Posting else Idle)
    case Tick => s.(flusher := Posting)
    case Stop => s.(stopped := true, overlap := s.overlap || s.inHand != [])
    case NoticeStop => s.(mode := Draining)
    case FindEmpty => s.(mode := Leaving, flusher := if s.batch == [] then Gone else Posting)
    case PostOk => Stored(s, s.batch).(batch := [], flusher := Resumed(s))
    case PostFail(applied) =>
      if applied then Stored(s, s.batch).(flusher := Spooling, repeated := s.repeated + Bag(s.batch))
      else s.(flusher := Spooling)
    case SpoolBatch => s.(spool := s.spool + s.batch, batch := [], flusher := Resumed(s))
    case ReplayBegin => if s.spool == [] then s else s.(replayer := Sending)
    case ReplayOk => Stored(s, s.spool).(replayer := Clearing)
    case ReplayFail(applied) =>
      if applied then Stored(s, s.spool).(replayer := Waiting, repeated := s.repeated + Bag(s.spool))
      else s.(replayer := Waiting)
    case ReplayClear => s.(spool := [], replayer := Waiting)
    case ReplayLeave => s.(replayer := Left)
    case CloseFile => s.(closed := true)
    case StoredElsewhere(id) => s.(held := s.held + {id})
  }

  /** The state after a run; None when some action was not possible. */
  function Run(s: State, actions: seq<Action>): Option<State>
    decreases |actions|
  {
    if actions == [] then Some(s)
    else if Enabled(s, actions[0]) then Run(Next(s, actions[0]), actions[1..])
    else None
  }

  // ---- composing runs ----

  lemma {:induction false} RunConcat(s: State, a: seq<Action>, b: seq<Action>)
    requires Run(s, a).Some?
    ensures Run(s, a + b) == Run(Run(s, a).value, b)
    decreases |a|
  {
    if a == [] {
      assert a + b == b;
    } else {
      assert (a + b)[1..] == a[1..] + b;
      RunConcat(Next(s, a[0]), a[1..], b);
    }
  }

  lemma RunTwo(s: State, a: Action, b: Action)
    requires Enabled(s, a) && Enabled(Next(s, a), b)
    ensures Run(s, [a, b]) == Some(Next(Next(s, a), b))
  {
    assert [a, b][1..] == [b];
    RunOnce(Next(s, a), b);
  }

  lemma RunOnce(s: State, a: Action)
    requires Enabled(s, a)
    ensures Run(s, [a]) == Some(Next(s, a))
  {
    assert [a][1..] == [];
  }

  // ---- what every step keeps ----

  /** The spooled events still to be delivered: none while a delivered spool waits to be cleared. */
  function Pending(s: State): seq<Event> {
    if s.replayer.Clearing? then [] else s.spool
  }

  /** Every emitted event is in exactly one place, except for those the server took although the
      sender saw a failure: they are somewhere else once more. */
  ghost predicate Conserved(s: State) {
    s.emitted + s.repeated ==
      s.accepted + Bag(s.queue) + Bag(s.inHand) + Bag(s.batch) + Bag(Pending(s)) + s.lost
  }

  ghost predicate Orderly(s: State) {
    && |s.queue| <= CAPACITY
    && |s.batch| <= BATCH
    && (s.flusher.Posting? || s.flusher.Spooling? ==> s.batch != [])
    && (s.flusher.Idle? ==> |s.batch| < BATCH && !s.mode.Leaving?)
    && (s.flusher.Gone? ==> s.batch == [] && s.mode.Leaving?)
    && (!s.mode.Normal? ==> s.stopped)
    && (s.replayer.Left? ==> s.stopped)
    && (s.closed ==> s.flusher.Gone? && s.replayer.Left?)
    && (!s.overlap ==> s.lost == multiset{})
    && (!s.overlap && s.stopped ==> s.inHand == [])
    && (!s.overlap && s.mode.Leaving? ==> s.queue == [])
  }

  /** The copies of one event in one place. */
  function Copies(s: seq<Event>, e: Event): nat {
    if s == [] then 0 else Copies(s[..|s| - 1], e) + Ones(s[|s| - 1], e)
  }

  function Ones(f: Event, e: Event): nat {
    if f == e then 1 else 0
  }

  lemma {:induction false} CopiesInBag(s: seq<Event>, e: Event)
    ensures Copies(s, e) == Bag(s)[e]
  {
    if s != [] {
      CopiesInBag(s[..|s| - 1], e);
      assert s == s[..|s| - 1] + [s[|s| - 1]];
    }
  }

  /** Every copy of one event, by place. */
  ghost predicate ConservedAt(s: State, e: Event) {
    s.emitted[e] + s.repeated[e] == s.accepted[e] + Copies(s.queue, e) + Copies(s.inHand, e) + Copies(s.batch, e)
      + Copies(Pending(s), e) + s.lost[e]
  }

  lemma ConservedEverywhere(s: State)
    ensures Conserved(s) <==> forall e :: ConservedAt(s, e)
  {
    var all := s.accepted + Bag(s.queue) + Bag(s.inHand) + Bag(s.batch) + Bag(Pending(s)) + s.lost;
    forall e ensures ConservedAt(s, e) <==> (s.emitted + s.repeated)[e] == all[e] {
      CopiesInBag(s.queue, e);
      CopiesInBag(s.inHand, e);
      CopiesInBag(s.batch, e);
      CopiesInBag(Pending(s), e);
    }
    if forall e :: ConservedAt(s, e) {
      assert s.emitted + s.repeated == all;
    }
  }

  lemma CopiesPlus(a: seq<Event>, f: Event, e: Event)
    ensures Copies(a + [f], e) == Copies(a, e) + Ones(f, e)
  {
    assert (a + [f])[..|a|] == a;
  }

  lemma {:induction false} CopiesOf(a: seq<Event>, b: seq<Event>, e: Event)
    ensures Copies(a + b, e) == Copies(a, e) + Copies(b, e)
  {
    if b == [] {
      assert a + b == a;
    } else {
      var c := b[..|b| - 1];
      assert a + b == (a + c) + [b[|b| - 1]];
      CopiesOf(a, c, e);
      CopiesPlus(a + c, b[|b| - 1], e);
    }
  }

  lemma CopiesMinus(a: seq<Event>, i: nat, e: Event)
    requires i < |a|
    ensures Copies(a, e) == Copies(a[..i] + a[i + 1..], e) + Ones(a[i], e)
  {
    assert a == (a[..i] + [a[i]]) + a[i + 1..];
    CopiesPlus(a[..i], a[i], e);
    CopiesOf(a[..i] + [a[i]], a[i + 1..], e);
    CopiesOf(a[..i], a[i + 1..], e);
  }

  lemma QueuedConserves(s: State, f: Event, e: Event)
    requires ConservedAt(s, e) && |s.queue| < CAPACITY
    ensures ConservedAt(Next(s, Emit(f)), e)
  {
    var t := Next(s, Emit(f));
    assert t == s.(emitted := s.emitted + multiset{f}, queue := s.queue + [f], overlap := t.overlap);
    CopiesPlus(s.queue, f, e);
    assert t.emitted[e] == s.emitted[e] + Ones(f, e);
  }

  lemma InHandConserves(s: State, f: Event, e: Event)
    requires ConservedAt(s, e) && |s.queue| >= CAPACITY
    ensures ConservedAt(Next(s, Emit(f)), e)
  {
    var t := Next(s, Emit(f));
    assert t == s.(emitted := s.emitted + multiset{f}, inHand := s.inHand + [f], overlap := t.overlap);
    CopiesPlus(s.inHand, f, e);
    assert t.emitted[e] == s.emitted[e] + Ones(f, e);
  }

  lemma SpoolInHandConserves(s: State, i: nat, e: Event)
    requires Enabled(s, SpoolInHand(i)) && ConservedAt(s, e)
    ensures ConservedAt(Next(s, SpoolInHand(i)), e)
  {
    var t, f := Next(s, SpoolInHand(i)), s.inHand[i];
    assert t == s.(inHand := s.inHand[..i] + s.inHand[i + 1..], spool := t.spool, lost := t.lost);
    CopiesMinus(s.inHand, i, e);
    if s.closed {
      assert t.lost[e] == s.lost[e] + Ones(f, e) && t.spool == s.spool;
    } else {
      CopiesPlus(s.spool, f, e);
      assert t.lost == s.lost && Pending(t) == Pending(s) + [f];
    }
  }

  lemma CopiesTail(a: seq<Event>, e: Event)
    requires a != []
    ensures Copies(a, e) == Copies(a[1..], e) + Ones(a[0], e)
  {
    CopiesMinus(a, 0, e);
    assert a[..0] + a[1..] == a[1..];
  }

  lemma TakeConserves(s: State, e: Event)
    requires Enabled(s, Take) && ConservedAt(s, e)
    ensures ConservedAt(Next(s, Take), e)
  {
    var t := Next(s, Take);
    assert t == s.(queue := s.queue[1..], batch := s.batch + [s.queue[0]], flusher := t.flusher);
    CopiesTail(s.queue, e);
    CopiesPlus(s.batch, s.queue[0], e);
  }

  lemma SpoolBatchConserves(s: State, e: Event)
    requires Enabled(s, SpoolBatch) && ConservedAt(s, e)
    ensures ConservedAt(Next(s, SpoolBatch), e)
  {
    CopiesOf(s.spool, s.batch, e);
  }

  lemma PostOkConserves(s: State, e: Event)
    requires Enabled(s, PostOk) && ConservedAt(s, e)
    ensures ConservedAt(Next(s, PostOk), e)
  {
    CopiesInBag(s.batch, e);
  }

  lemma PostFailConserves(s: State, applied: bool, e: Event)
    requires Enabled(s, PostFail(applied)) && ConservedAt(s, e)
    ensures ConservedAt(Next(s, PostFail(applied)), e)
  {
    CopiesInBag(s.batch, e);
  }

  lemma ReplayConserves(s: State, a: Action, e: Event)
    requires Enabled(s, a) && (a.ReplayBegin? || a.ReplayOk? || a.ReplayFail? || a.ReplayClear?) && ConservedAt(s, e)
    ensures ConservedAt(Next(s, a), e)
  {
    CopiesInBag(s.spool, e);
  }

  lemma SignalConserves(s: State, a: Action, e: Event)
    requires Enabled(s, a) && ConservedAt(s, e)
    requires a.Tick? || a.Stop? || a.NoticeStop? || a.FindEmpty? || a.ReplayLeave? || a.CloseFile? || a.StoredElsewhere?
    ensures ConservedAt(Next(s, a), e)
  {
  }

  lemma StepConservesAt(s: State, a: Action, e: Event)
    requires Enabled(s, a) && ConservedAt(s, e)
    ensures ConservedAt(Next(s, a), e)
  {
    match a
    case Emit(f) =>
      if |s.queue| < CAPACITY {
        QueuedConserves(s, f, e);
      } else {
        InHandConserves(s, f, e);
      }
    case SpoolInHand(i) => SpoolInHandConserves(s, i, e);
    case Take => TakeConserves(s, e);
    case SpoolBatch => SpoolBatchConserves(s, e);
    case PostOk => PostOkConserves(s, e);
    case PostFail(applied) => PostFailConserves(s, applied, e);
    case ReplayBegin => ReplayConserves(s, a, e);
    case ReplayOk => ReplayConserves(s, a, e);
    case ReplayFail(_) => ReplayConserves(s, a, e);
    case ReplayClear => ReplayConserves(s, a, e);
    case _ => SignalConserves(s, a, e);
  }

  lemma StepConserves(s: State, a: Action)
    requires Enabled(s, a) && Conserved(s)
    ensures Conserved(Next(s, a))
  {
    ConservedEverywhere(s);
    forall e ensures ConservedAt(Next(s, a), e) {
      StepConservesAt(s, a, e);
    }
    ConservedEverywhere(Next(s, a));
  }

  lemma CallersStayOrderly(s: State, a: Action)
    requires Enabled(s, a) && Orderly(s) && (a.Emit? || a.SpoolInHand? || a.Stop? || a.CloseFile? || a.StoredElsewhere?)
    ensures Orderly(Next(s, a))
  {
  }

  lemma FlusherStaysOrderly(s: State, a: Action)
    requires Enabled(s, a) && Orderly(s)
    requires a.Take? || a.Tick? || a.NoticeStop? || a.FindEmpty? || a.PostOk? || a.PostFail? || a.SpoolBatch?
    ensures Orderly(Next(s, a))
  {
  }

  lemma ReplayerStaysOrderly(s: State, a: Action)
    requires Enabled(s, a) && Orderly(s)
    requires a.ReplayBegin? || a.ReplayOk? || a.ReplayFail? || a.ReplayClear? || a.ReplayLeave?
    ensures Orderly(Next(s, a))
  {
  }

  lemma StepStaysOrderly(s: State, a: Action)
    requires Enabled(s, a) && Orderly(s)
    ensures Orderly(Next(s, a))
  {
    if a.Emit? || a.SpoolInHand? || a.Stop? || a.CloseFile? || a.StoredElsewhere? {
      CallersStayOrderly(s, a);
    } else if a.Take? || a.Tick? || a.NoticeStop? || a.FindEmpty? || a.PostOk? || a.PostFail? || a.SpoolBatch? {
      FlusherStaysOrderly(s, a);
    } else {
      ReplayerStaysOrderly(s, a);
    }
  }

  /** Over every run nothing is lost or made up, and no event is lost unless Close overlaps an Emit. */
  lemma {:induction false} RunConserves(s: State, actions: seq<Action>)
    requires Conserved(s) && Orderly(s) && Run(s, actions).Some?
    ensures Conserved(Run(s, actions).value) && Orderly(Run(s, actions).value)
    decreases |actions|
  {
    if actions != [] {
      StepConserves(s, actions[0]);
      StepStaysOrderly(s, actions[0]);
      RunConserves(Next(s, actions[0]), actions[1..]);
    }
  }

  // ---- what the server holds ----

  /** The server holds every event it accepted, and accepted at most one of each id, once. */
  ghost predicate Once(accepted: multiset<Event>, held: set<string>) {
    && (forall e :: e in accepted ==> accepted[e] == 1 && e.id in held)
    && forall e, f :: e in accepted && f in accepted && e.id == f.id ==> e == f
  }

  lemma StoredOnce(accepted: multiset<Event>, held: set<string>, events: seq<Event>)
    requires Once(accepted, held) && Acceptable(held, events)
    ensures Once(accepted + Bag(events), held + Ids(events))
  {
    var all := accepted + Bag(events);
    forall e | e in all ensures all[e] == 1 && e.id in held + Ids(events) {
      if e in Bag(events) {
        var i := PlaceOf(events, e);
        DistinctIdsOnce(events, i);
        assert events[i].id !in held;
      }
    }
    forall e, f | e in all && f in all && e.id == f.id ensures e == f {
      if e in Bag(events) {
        var i := PlaceOf(events, e);
        if f in Bag(events) {
          var j := PlaceOf(events, f);
        }
      } else if f in Bag(events) {
        var j := PlaceOf(events, f);
      }
    }
  }

  lemma PlaceOf(events: seq<Event>, e: Event) returns (i: nat)
    requires e in Bag(events)
    ensures i < |events| && events[i] == e
  {
    assert e in events;
    i :| 0 <= i < |events| && events[i] == e;
  }

  lemma DistinctIdsOnce(events: seq<Event>, i: nat)
    requires i < |events| && forall i, j :: 0 <= i < j < |events| ==> events[i].id != events[j].id
    ensures Bag(events)[events[i]] == 1
  {
    assert events == events[..i] + ([events[i]] + events[i + 1..]);
    assert events[i] !in events[..i] && events[i] !in events[i + 1..];
  }

  /** What a step makes the server store. */
  function StoredBy(s: State, a: Action): seq<Event> {
    match a
    case PostOk => s.batch
    case PostFail(applied) => if applied then s.batch else []
    case ReplayOk => s.spool
    case ReplayFail(applied) => if applied then s.spool else []
    case _ => []
  }

  lemma StepStores(s: State, a: Action)
    requires Enabled(s, a)
    ensures StoredBy(s, a) != [] ==> Acceptable(s.held, StoredBy(s, a))
    ensures Next(s, a).accepted == s.accepted + Bag(StoredBy(s, a))
    ensures s.held + Ids(StoredBy(s, a)) <= Next(s, a).held
  {
  }

  /** Whatever the failures meant, the server takes no event twice, on any run. */
  lemma {:induction false} RunOnlyOnce(s: State, actions: seq<Action>)
    requires Once(s.accepted, s.held) && Run(s, actions).Some?
    ensures Once(Run(s, actions).value.accepted, Run(s, actions).value.held)
    decreases |actions|
  {
    if actions != [] {
      var events := StoredBy(s, actions[0]);
      StepStores(s, actions[0]);
      if events != [] {
        StoredOnce(s.accepted, s.held, events);
      }
      RunOnlyOnce(Next(s, actions[0]), actions[1..]);
    }
  }

  /** Each emitted event is in at least one place whatever the failures meant, the server took none
      twice, and it made none up when every failed post was a post not taken. */
  lemma EventsAreSomewhere(actions: seq<Action>, e: Event)
    requires Run(START, actions).Some?
    ensures var s := Run(START, actions).value;
      e in s.emitted ==> e in s.accepted || e in s.queue || e in s.inHand || e in s.batch || e in s.spool || e in s.lost
    ensures var s := Run(START, actions).value; s.accepted[e] <= 1
    ensures var s := Run(START, actions).value; s.repeated == multiset{} ==> s.accepted <= s.emitted
  {
    RunConserves(START, actions);
    RunOnlyOnce(START, actions);
    var s := Run(START, actions).value;
    var all := s.accepted + Bag(s.queue) + Bag(s.inHand) + Bag(s.batch) + Bag(Pending(s)) + s.lost;
    if e in s.emitted {
      assert e in s.emitted + s.repeated;
      assert e in all;
    }
    if s.repeated == multiset{} {
      assert s.emitted == s.emitted + s.repeated;
    }
  }

  ghost predicate Finished(s: State) {
    s.closed && s.inHand == []
  }

  /** After a shutdown that overlapped no Emit, every event is accepted or in the spool file, and
      those the server did not report are all in the file. */
  lemma ShutdownLosesNothing(actions: seq<Action>)
    requires Run(START, actions).Some? && Finished(Run(START, actions).value) && !Run(START, actions).value.overlap
    ensures var s := Run(START, actions).value; s.emitted + s.repeated == s.accepted + Bag(s.spool)
  {
    RunConserves(START, actions);
  }

  /** An Emit that overlaps Close can lose its event: it is left in the queue when the flush worker has
      gone, neither accepted nor spooled, though no post failed. */
  lemma OverlappingEmitLosesTheEvent(e: Event)
    ensures var s := Run(START, [Stop, NoticeStop, FindEmpty, Emit(e), ReplayLeave, CloseFile]);
      && s.Some? && Finished(s.value)
      && e in s.value.emitted && s.value.accepted == multiset{} && s.value.spool == [] && s.value.queue == [e]
  {
    var s4 := EmitAfterLastCheck(e);
    var six := [Stop, NoticeStop, FindEmpty, Emit(e), ReplayLeave, CloseFile];
    RunTwo(s4, ReplayLeave, CloseFile);
    RunConcat(START, [Stop, NoticeStop, FindEmpty, Emit(e)], [ReplayLeave, CloseFile]);
    assert [Stop, NoticeStop, FindEmpty, Emit(e)] + [ReplayLeave, CloseFile] == six;
  }

  /** The event enters the queue after the flusher has found it empty for the last time. */
  lemma EmitAfterLastCheck(e: Event) returns (s: State)
    ensures Run(START, [Stop, NoticeStop, FindEmpty, Emit(e)]) == Some(s)
    ensures s == START.(stopped := true, mode := Leaving, flusher := Gone, emitted := multiset{e}, queue := [e],
      overlap := true)
  {
    var s2 := Next(Next(START, Stop), NoticeStop);
    s := Next(Next(s2, FindEmpty), Emit(e));
    RunTwo(START, Stop, NoticeStop);
    RunTwo(s2, FindEmpty, Emit(e));
    RunConcat(START, [Stop, NoticeStop], [FindEmpty, Emit(e)]);
    assert [Stop, NoticeStop] + [FindEmpty, Emit(e)] == [Stop, NoticeStop, FindEmpty, Emit(e)];
  }

  // ---- the spool that cannot be replayed ----

  predicate IsPrefix(a: seq<Event>, b: seq<Event>) {
    |a| <= |b| && b[..|a|] == a
  }

  lemma Longer(a: seq<Event>, b: seq<Event>)
    ensures IsPrefix(a, a) && IsPrefix(a, a + b)
  {
  }

  lemma StepKeepsStuck(s: State, a: Action)
    requires Enabled(s, a) && s.spool != [] && !s.replayer.Clearing? && !Acceptable(s.held, s.spool)
    ensures var t := Next(s, a); IsPrefix(s.spool, t.spool) && s.held <= t.held && !t.replayer.Clearing?
  {
    var t := Next(s, a);
    match a
    case SpoolInHand(i) => Longer(s.spool, [s.inHand[i]]);
    case SpoolBatch => Longer(s.spool, s.batch);
    case _ => Longer(s.spool, []);
  }

  lemma StaysUnacceptable(held: set<string>, events: seq<Event>, more: set<string>, longer: seq<Event>)
    requires events != [] && !Acceptable(held, events) && held <= more && IsPrefix(events, longer)
    ensures !Acceptable(more, longer)
  {
    if Acceptable(more, longer) {
      forall i | 0 <= i < |events| ensures events[i] == longer[i] {
        assert longer[..|events|][i] == longer[i];
      }
      assert false;
    }
  }

  /** A spool that the server does not accept as one batch is never replayed: in every continuation it
      only grows, and so does what the server holds, so it is never accepted. */
  lemma {:induction false} UnacceptableSpoolIsStuck(s: State, actions: seq<Action>)
    requires s.spool != [] && !s.replayer.Clearing? && !Acceptable(s.held, s.spool) && Run(s, actions).Some?
    ensures var t := Run(s, actions).value; IsPrefix(s.spool, t.spool) && !t.replayer.Clearing?
    ensures var t := Run(s, actions).value; s.held <= t.held && !Acceptable(t.held, t.spool)
    decreases |actions|
  {
    if actions != [] {
      var t := Next(s, actions[0]);
      StepKeepsStuck(s, actions[0]);
      StaysUnacceptable(s.held, s.spool, t.held, t.spool);
      UnacceptableSpoolIsStuck(t, actions[1..]);
      var u := Run(s, actions).value;
      PrefixTransitive(s.spool, t.spool, u.spool);
    }
  }

  lemma PrefixTransitive(a: seq<Event>, b: seq<Event>, c: seq<Event>)
    requires IsPrefix(a, b) && IsPrefix(b, c)
    ensures IsPrefix(a, c)
  {
    assert c[..|a|] == c[..|b|][..|a|];
  }

  ghost predicate CanDrain(s: State) {
    exists actions :: Run(s, actions).Some? && Run(s, actions).value.spool == []
  }

  /** A waiting spool can still be drained exactly when the server would accept it as one batch now. */
  lemma SpoolDrainsIff(s: State)
    requires s.spool != [] && s.replayer.Waiting?
    ensures CanDrain(s) <==> Acceptable(s.held, s.spool)
    ensures Run(s, [ReplayBegin, ReplayOk, ReplayClear]) ==
      if Acceptable(s.held, s.spool) then Some(Stored(s, s.spool).(spool := [])) else None
  {
    var t := Next(s, ReplayBegin);
    RunOnce(s, ReplayBegin);
    RunConcat(s, [ReplayBegin], [ReplayOk, ReplayClear]);
    assert [ReplayBegin] + [ReplayOk, ReplayClear] == [ReplayBegin, ReplayOk, ReplayClear];
    if Acceptable(s.held, s.spool) {
      RunTwo(t, ReplayOk, ReplayClear);
    } else {
      WedgedCannotDrain(s);
    }
  }

  ghost predicate Wedged(s: State) {
    s.spool != [] && !s.replayer.Clearing? && !Acceptable(s.held, s.spool)
  }

  lemma WedgedCannotDrain(s: State)
    requires Wedged(s)
    ensures !CanDrain(s)
  {
    if CanDrain(s) {
      var actions :| Run(s, actions).Some? && Run(s, actions).value.spool == [];
      UnacceptableSpoolIsStuck(s, actions);
      assert false;
    }
  }

  /** The server holds e, and e is in the batch about to be spooled or in a spool that is to be kept. */
  ghost predicate Doomed(s: State, e: Event) {
    && e.id in s.held
    && ((s.flusher.Spooling? && e in s.batch) || (e in s.spool && !s.replayer.Clearing?))
  }

  lemma DoomedIsWedged(s: State, e: Event)
    requires Doomed(s, e) && !s.flusher.Spooling?
    ensures Wedged(s) && !CanDrain(s)
  {
    var i :| 0 <= i < |s.spool| && s.spool[i] == e;
    WedgedCannotDrain(s);
  }

  lemma DoomedStays(s: State, a: Action, e: Event)
    requires Enabled(s, a) && Doomed(s, e)
    ensures Doomed(Next(s, a), e)
  {
    if e in s.spool && !s.replayer.Clearing? {
      var i :| 0 <= i < |s.spool| && s.spool[i] == e;
      StepKeepsStuck(s, a);
      assert Next(s, a).spool[..|s.spool|][i] == e;
    } else if a == SpoolBatch {
      assert e in s.spool + s.batch;
    }
  }

  lemma {:induction false} DoomedForGood(s: State, actions: seq<Action>, e: Event)
    requires Doomed(s, e) && Run(s, actions).Some?
    ensures Doomed(Run(s, actions).value, e)
    decreases |actions|
  {
    if actions != [] {
      DoomedStays(s, actions[0], e);
      DoomedForGood(Next(s, actions[0]), actions[1..], e);
    }
  }

  /** After a post that the server applied although the sender saw a failure, whatever happens next: the
      batch is still to be spooled, or the spool repeats ids that the server holds and can never be
      drained. */
  lemma LostReplyWedgesTheSpool(s: State, actions: seq<Action>)
    requires Enabled(s, PostFail(true)) && Run(Next(s, PostFail(true)), actions).Some?
    ensures var t := Run(Next(s, PostFail(true)), actions).value; t.flusher.Spooling? || (Wedged(t) && !CanDrain(t))
  {
    var t, e := Next(s, PostFail(true)), s.batch[0];
    DoomedForGood(t, actions, e);
    var u := Run(t, actions).value;
    if !u.flusher.Spooling? {
      DoomedIsWedged(u, e);
    }
  }

  /** The same after a replay whose reply was lost, at once. */
  lemma LostReplayWedgesTheSpool(s: State, actions: seq<Action>)
    requires Enabled(s, ReplayFail(true)) && Run(Next(s, ReplayFail(true)), actions).Some?
    ensures var t := Run(Next(s, ReplayFail(true)), actions).value; Wedged(t) && !CanDrain(t)
  {
    var t := Next(s, ReplayFail(true));
    assert s.spool[0].id in t.held;
    UnacceptableSpoolIsStuck(t, actions);
    WedgedCannotDrain(Run(t, actions).value);
  }

  /** It happens: one event, one tick and one lost reply. */
  lemma ALostReply(e: Event)
    requires e.storable
    ensures var s := Run(START, [Emit(e), Take, Tick, PostFail(true), SpoolBatch]);
      s.Some? && s.value.spool == [e] && s.value.accepted == multiset{e} && Wedged(s.value)
  {
    var s := BatchOfOne(e);
    assert Acceptable({}, [e]);
    RunTwo(s, PostFail(true), SpoolBatch);
    RunConcat(START, [Emit(e), Take, Tick], [PostFail(true), SpoolBatch]);
    assert [Emit(e), Take, Tick] + [PostFail(true), SpoolBatch] == [Emit(e), Take, Tick, PostFail(true), SpoolBatch];
    var t := Next(Next(s, PostFail(true)), SpoolBatch);
    assert t.spool[0].id in t.held;
  }

  lemma BatchOfOne(e: Event) returns (s: State)
    ensures Run(START, [Emit(e), Take, Tick]) == Some(s)
    ensures s == START.(emitted := multiset{e}, batch := [e], flusher := Posting)
  {
    var s1 := Next(START, Emit(e));
    s := Next(Next(s1, Take), Tick);
    RunOnce(START, Emit(e));
    RunTwo(s1, Take, Tick);
    RunConcat(START, [Emit(e)], [Take, Tick]);
    assert [Emit(e)] + [Take, Tick] == [Emit(e), Take, Tick];
  }
}
