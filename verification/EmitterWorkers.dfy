/** The emitter's methods as they run when nothing interferes: each is a run of the state machine, so
    what holds over every interleaving holds of them. */
module EmitterWorkers {
  import opened Utf8
  import opened Emitter

  /** What the network does to one request. */
  datatype Net = Delivered | Dropped | ReplyLost

  /** How one post goes: taken, not taken, or taken although the sender sees a failure. */
  datatype Post = Accepted | Refused | Unclear

  function Outcome(held: set<string>, events: seq<Event>, net: Net): Post {
    if net.Dropped? || !Acceptable(held, events) then Refused
    else if net.Delivered? then Accepted
    else Unclear
  }

  function PostRun(p: Post): seq<Action> {
    match p
    case Accepted => [PostOk]
    case Refused => [PostFail(false), SpoolBatch]
    case Unclear => [PostFail(true), SpoolBatch]
  }

  function ReplayRun(p: Post): seq<Action> {
    match p
    case Accepted => [ReplayOk, ReplayClear]
    case Refused => [ReplayFail(false)]
    case Unclear => [ReplayFail(true)]
  }

  lemma EmitIntoQueue(s: State, e: Event)
    requires |s.queue| < CAPACITY
    ensures Run(s, [Action.Emit(e)]) ==
      Some(s.(emitted := s.emitted + multiset{e}, overlap := s.overlap || s.stopped, queue := s.queue + [e]))
  {
    RunOnce(s, Action.Emit(e));
  }

  /** What emitting onto a full queue does when the spool lock is free. */
  lemma EmitOntoFullQueue(s: State, e: Event)
    requires |s.queue| >= CAPACITY && s.inHand == [] && LockFree(s)
    ensures var t := s.(emitted := s.emitted + multiset{e}, overlap := s.overlap || s.stopped);
      Run(s, [Action.Emit(e), SpoolInHand(0)]) == Some(
        if s.closed then t.(lost := s.lost + multiset{e}) else t.(spool := s.spool + [e]))
  {
    var u := Next(s, Action.Emit(e));
    assert u.inHand == [e] && u.inHand[..0] + u.inHand[1..] == [];
    RunTwo(s, Action.Emit(e), SpoolInHand(0));
  }

  /** What the server makes of a batch. */
  function Taken(s: State, events: seq<Event>, p: Post): State {
    match p
    case Accepted => Stored(s, events)
    case Refused => s
    case Unclear => Stored(s, events).(repeated := s.repeated + Bag(events))
  }

  /** What becomes of a batch. */
  lemma AcceptedBatch(s: State)
    requires s.flusher.Posting? && Acceptable(s.held, s.batch)
    ensures Run(s, PostRun(Accepted)) == Some(Stored(s, s.batch).(batch := [], flusher := Resumed(s)))
  {
    RunOnce(s, PostOk);
  }

  lemma SpooledBatch(s: State, p: Post)
    requires p != Accepted && s.flusher.Posting? && LockFree(s) && (p == Unclear ==> Acceptable(s.held, s.batch))
    ensures Run(s, PostRun(p)) ==
      Some(Taken(s, s.batch, p).(batch := [], flusher := Resumed(s), spool := s.spool + s.batch))
  {
    RunTwo(s, PostFail(p == Unclear), SpoolBatch);
  }

  /** What becomes of a spool that is replayed. */
  lemma AcceptedReplay(s: State)
    requires s.replayer.Waiting? && s.spool != [] && Acceptable(s.held, s.spool)
    ensures Run(s, [ReplayBegin] + ReplayRun(Accepted)) == Some(Stored(s, s.spool).(spool := []))
  {
    SpoolDrainsIff(s);
    assert [ReplayBegin] + ReplayRun(Accepted) == [ReplayBegin, ReplayOk, ReplayClear];
  }

  lemma FailedReplay(s: State, p: Post)
    requires p != Accepted && s.replayer.Waiting? && s.spool != [] && (p == Unclear ==> Acceptable(s.held, s.spool))
    ensures Run(s, [ReplayBegin] + ReplayRun(p)) == Some(Taken(s, s.spool, p))
  {
    RunTwo(s, ReplayBegin, ReplayFail(p == Unclear));
    assert [ReplayBegin] + ReplayRun(p) == [ReplayBegin, ReplayFail(p == Unclear)];
  }

  class HTTPEmitter {
    var queue: seq<Event>
    var batch: seq<Event>
    var spool: seq<Event>
    var fileOpen: bool
    var held: set<string>   // at the service on the other end
    ghost var s: State

    /** Between calls: the fields are those of the state, and no other goroutine is in the middle of
        something. */
    ghost predicate Valid()
      reads this
    {
      && Orderly(s) && Conserved(s) && LockFree(s) && s.inHand == []
      && queue == s.queue && batch == s.batch && spool == s.spool && (fileOpen <==> !s.closed) && held == s.held
    }

    constructor ()
      ensures Valid() && s == START
    {
      queue, batch, spool, fileOpen, held := [], [], [], true, {};
      s := START;
    }

    /** spoolAppend: on a closed file the write fails and the events are lost. */
    method SpoolAppend(events: seq<Event>)
      modifies this`spool
      ensures spool == if fileOpen then old(spool) + events else old(spool)
    {
      if fileOpen {
        spool := spool + events;
      }
    }

    /** Emit: into the queue, or when that is full into the spool. */
    method Emit(evt: Event) returns (ghost run: seq<Action>)
      requires Valid()
      modifies this
      ensures Valid() && Run(old(s), run) == Some(s)
      ensures run == if |old(queue)| < 4096 then [Action.Emit(evt)] else [Action.Emit(evt), SpoolInHand(0)]
    {
      if |queue| < CAPACITY {
        queue := queue + [evt];
        run := [Action.Emit(evt)];
        EmitIntoQueue(s, evt);
        RunConserves(s, run);
        s := Run(s, run).value;
      } else {
        run := EmitToSpool(evt);
      }
    }

    /** The default branch of Emit. */
    method EmitToSpool(evt: Event) returns (ghost run: seq<Action>)
      requires Valid() && |queue| >= CAPACITY
      modifies this
      ensures Valid() && Run(old(s), run) == Some(s) && run == [Action.Emit(evt), SpoolInHand(0)]
    {
      SpoolAppend([evt]);
      run := [Action.Emit(evt), SpoolInHand(0)];
      EmitOntoFullQueue(s, evt);
      RunConserves(s, run);
      s := Run(s, run).value;
    }

    /** postBatch: an error unless the server took the batch and said so. */
    method PostBatch(events: seq<Event>, net: Net) returns (ok: bool)
      modifies this`held
      ensures var p := Outcome(old(held), events, net);
        ok == p.Accepted? && held == if p.Refused? then old(held) else old(held) + Ids(events)
    {
      var p := Outcome(held, events, net);
      if !p.Refused? {
        held := held + Ids(events);
      }
      return p.Accepted?;
    }

    /** drain: posts the batch; on failure it goes to the spool. */
    method Drain(net: Net) returns (ghost run: seq<Action>)
      requires Valid() && s.flusher.Posting?
      modifies this
      ensures Valid() && run == PostRun(Outcome(old(held), old(batch), net)) && Run(old(s), run) == Some(s)
      ensures batch == [] && queue == old(queue) && s.flusher == Resumed(old(s))
      ensures s.mode == old(s).mode && s.stopped == old(s).stopped && s.replayer == old(s).replayer
      ensures spool == old(spool) + if Outcome(old(held), old(batch), net).Accepted? then [] else old(batch)
    {
      ghost var p := Outcome(held, batch, net);
      run := PostRun(p);
      var ok := PostBatch(batch, net);
      if ok {
        AcceptedBatch(s);
      } else {
        SpooledBatch(s, p);
        SpoolAppend(batch);
      }
      RunConserves(s, run);
      s := Run(s, run).value;
      batch := [];
    }

    /** The case of the flush loop for the ticker. */
    method FlushOnTick(net: Net) returns (ghost run: seq<Action>)
      requires Valid() && s.flusher.Idle? && s.mode.Normal?
      modifies this
      ensures Valid() && Run(old(s), run) == Some(s)
      ensures run == if old(batch) == [] then [] else [Tick] + PostRun(Outcome(old(held), old(batch), net))
    {
      if batch == [] {
        return [];
      }
      StepConserves(s, Tick);
      StepStaysOrderly(s, Tick);
      ghost var start := s;
      s := Next(s, Tick);
      RunOnce(start, Tick);
      run := Drain(net);
      RunConcat(start, [Tick], run);
      run := [Tick] + run;
    }

    /** The case for an event in the queue; a full batch is posted at once. */
    method FlushOne(net: Net) returns (ghost run: seq<Action>)
      requires Valid() && s.flusher.Idle? && queue != []
      modifies this
      ensures Valid() && Run(old(s), run) == Some(s)
      ensures run == if |old(batch)| + 1 >= 50
        then [Take] + PostRun(Outcome(old(held), old(batch) + [old(queue)[0]], net)) else [Take]
      ensures s.flusher.Idle? && s.mode == old(s).mode && s.stopped == old(s).stopped && queue == old(queue)[1..]
    {
      StepConserves(s, Take);
      StepStaysOrderly(s, Take);
      RunOnce(s, Take);
      ghost var start := s;
      queue, batch := queue[1..], batch + [queue[0]];
      s := Next(s, Take);
      run := [Take];
      if |batch| >= BATCH {
        var more := Drain(net);
        RunConcat(start, [Take], more);
        run := [Take] + more;
      }
    }

    /** The case for the stop signal: drains the queue and leaves nothing behind. */
    method FlushOnStop(nets: nat -> Net) returns (ghost run: seq<Action>)
      requires Valid() && s.flusher.Idle? && s.mode.Normal? && s.stopped
      modifies this
      ensures Valid() && Run(old(s), run) == Some(s)
      ensures queue == [] && batch == [] && s.flusher.Gone?
    {
      ghost var start := s;
      StepStaysOrderly(s, NoticeStop);
      RunOnce(s, NoticeStop);
      s := Next(s, NoticeStop);
      run := [NoticeStop];
      var n: nat := 0;
      while queue != []
        invariant Valid() && Run(start, run) == Some(s)
        invariant s.flusher.Idle? && s.mode.Draining?
        decreases |queue|
      {
        var more := FlushOne(nets(n));
        RunConcat(start, run, more);
        run := run + more;
        n := n + 1;
      }
      StepStaysOrderly(s, FindEmpty);
      RunOnce(s, FindEmpty);
      RunConcat(start, run, [FindEmpty]);
      run := run + [FindEmpty];
      s := Next(s, FindEmpty);
      if batch != [] {
        var more := Drain(nets(n));
        RunConcat(start, run, more);
        run := run + more;
      }
    }

    /** replayOnce: posts the whole spool as one batch and truncates the file when that succeeds. */
    method ReplayOnce(net: Net) returns (ghost run: seq<Action>)
      requires Valid() && s.replayer.Waiting?
      modifies this
      ensures Valid() && Run(old(s), run) == Some(s)
      ensures run == [ReplayBegin] + if old(spool) == [] then [] else ReplayRun(Outcome(old(held), old(spool), net))
      ensures spool == if Outcome(old(held), old(spool), net).Accepted? then [] else old(spool)
    {
      if spool == [] {
        run := [ReplayBegin];
        RunOnce(s, ReplayBegin);
        return;
      }
      ghost var p := Outcome(held, spool, net);
      run := [ReplayBegin] + ReplayRun(p);
      var ok := PostBatch(spool, net);
      if ok {
        AcceptedReplay(s);
        spool := [];
      } else {
        FailedReplay(s, p);
      }
      RunConserves(s, run);
      s := Run(s, run).value;
    }
  }
}
