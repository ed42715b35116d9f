/** What a threaded run that returns can have lost: exactly when the file can be empty, and exactly when it
    is sure to be whole. */
module ThreadReturn {
  import opened Bytes
  import opened Ring
  import opened Threads
  import opened ThreadSafety
  import opened ThreadDelivery
  import opened ThreadLiveness
  import opened ThreadTurns
  import opened ThreadHang
  import opened ThreadCoarse

  // ---- An empty file ----

  /** As long as nothing has been released, a rejection keeps writing down, and with it the producer from
      stopping the run; and the consumer has nothing with which to open writing again. */
  ghost predicate NothingReleased(s: State) {
    s.delivered == [] ==>
      && (s.ring.reading || s.p.pc == PAnnounce ==> s.accepted != [])
      && (s.c.pc in {CGetHead, CCopy, CSetHead, CStoreHead} ==> s.c.size > 0)
      && s.c.pc !in {COpen, CLoadTail, CClose}
      && (|s.accepted| < |s.fate| ==> !s.ring.writing && s.p.pc !in {PStopStore, PDone})
  }

  lemma ProducerReleasesNothing(cfg: Config, s: State)
    requires Typed(cfg, s) && NothingReleased(s)
    ensures NothingReleased(ProducerStep(cfg, s))
  {
    hide ProducerStep, NothingReleased;
    if s.p.pc in {PReject, PPublish, PAnnounce} {
      ProducerPushes(cfg, s);
    } else if InPushLoop(s.p) {
      ProducerLoads(cfg, s);
    } else {
      ProducerMoves(cfg, s);
    }
  }

  lemma ProducerPushes(cfg: Config, s: State)
    requires Typed(cfg, s) && NothingReleased(s) && s.p.pc in {PReject, PPublish, PAnnounce}
    ensures NothingReleased(ProducerStep(cfg, s))
  {
    hide ConsumerStep, NothingReleased;
    PushReleasesNothing(s, ProducerStep(cfg, s));
  }

  lemma ProducerLoads(cfg: Config, s: State)
    requires Typed(cfg, s) && NothingReleased(s) && s.p.pc in {PLoadTail, PLoadHead, PStore}
    ensures NothingReleased(ProducerStep(cfg, s))
  {
    hide ConsumerStep, NothingReleased;
    MoveReleasesNothing(s, ProducerStep(cfg, s));
  }

  lemma ProducerMoves(cfg: Config, s: State)
    requires Typed(cfg, s) && NothingReleased(s) && !InPushLoop(s.p)
    ensures NothingReleased(ProducerStep(cfg, s))
  {
    hide ConsumerStep, NothingReleased, Free;
    MoveReleasesNothing(s, ProducerStep(cfg, s));
  }

  lemma PushReleasesNothing(s: State, s': State)
    requires NothingReleased(s) && s.p.pc in {PReject, PPublish, PAnnounce}
    requires s'.c == s.c && s'.delivered == s.delivered && s'.p.pc in {PLoadTail, PAnnounce}
    requires s.p.pc == PReject ==> s'.accepted == s.accepted && !s'.ring.writing && s'.ring.reading == s.ring.reading
    requires s.p.pc == PPublish ==> |s'.accepted| == |s.accepted| + 1 && |s'.fate| == |s.fate| + 1
    requires s.p.pc == PAnnounce ==> s'.accepted == s.accepted && s'.fate == s.fate
    requires s.p.pc != PReject ==> s'.ring.writing == s.ring.writing
    requires s'.p.pc == PAnnounce ==> s.p.pc == PPublish
    ensures NothingReleased(s')
  {}

  lemma MoveReleasesNothing(s: State, s': State)
    requires NothingReleased(s)
    requires s'.c == s.c && s'.delivered == s.delivered && s'.accepted == s.accepted && s'.fate == s.fate
    requires s'.ring.writing == s.ring.writing && s'.ring.reading == s.ring.reading && s'.p.pc != PAnnounce
    requires s'.p.pc == PStopStore ==> s.ring.writing
    requires s'.p.pc == PDone ==> s.p.pc in {PStopStore, PDone}
    ensures NothingReleased(s')
  {}

  lemma ConsumerReleasesFirst(cfg: Config, s: State)
    requires RingInv(cfg, s) && ConsumerInv(cfg, s) && NothingReleased(s)
    ensures NothingReleased(ConsumerStep(cfg, s))
  {
    hide ConsumerStep, ConsumerInv, NothingReleased;
    if s.c.pc == CSizeTail {
      SizeReleasesFirst(cfg, s);
    } else if s.c.pc == CStoreHead {
      StoreReleasesFirst(cfg, s);
    } else {
      ConsumerMoves(cfg, s);
    }
  }

  /** While reading is up over a ring nothing was released from, there is something to take. */
  lemma SizeReleasesFirst(cfg: Config, s: State)
    requires RingInv(cfg, s) && ConsumerInv(cfg, s) && NothingReleased(s) && s.c.pc == CSizeTail
    ensures NothingReleased(ConsumerStep(cfg, s))
  {
    hide ProducerStep, RingInv;
    SizeKeepsConsumer(cfg, s);
  }

  lemma StoreReleasesFirst(cfg: Config, s: State)
    requires Typed(cfg, s) && NothingReleased(s) && s.c.pc == CStoreHead
    ensures NothingReleased(ConsumerStep(cfg, s))
  {
    hide ProducerStep;
  }

  lemma ConsumerMoves(cfg: Config, s: State)
    requires Typed(cfg, s) && NothingReleased(s) && s.c.pc !in {CSizeTail, CStoreHead}
    ensures NothingReleased(ConsumerStep(cfg, s))
  {
    hide ProducerStep, NothingReleased;
    LoopReleasesFirst(s, ConsumerStep(cfg, s));
  }

  lemma LoopReleasesFirst(s: State, s': State)
    requires NothingReleased(s) && s.c.pc != CStoreHead
    requires s'.p == s.p && s'.delivered == s.delivered && s'.accepted == s.accepted && s'.fate == s.fate
    requires s'.ring.reading ==> s.ring.reading
    requires s'.ring.writing ==> s.ring.writing || s.c.pc == COpen
    requires s'.c.pc in {CGetHead, CCopy, CSetHead, CStoreHead} ==>
               s.c.pc in {CGetHead, CCopy, CSetHead} && s'.c.size == s.c.size
    requires s'.c.pc in {COpen, CLoadTail, CClose} ==> s.c.pc in {COpen, CLoadTail}
    ensures NothingReleased(s')
  {}

  lemma {:induction false} RunReleasesFirst(cfg: Config, s: State, schedule: Schedule)
    requires Inv(cfg, s) && NothingReleased(s)
    ensures NothingReleased(Run(cfg, s, schedule))
    decreases |schedule|
  {
    hide ProducerStep, ConsumerStep, NothingReleased, ProducerInv, ConsumerInv, SourceInv, ChunkInv;
    if schedule == [] {
    } else {
      match schedule[0] {
        case Producing => ProducerReleasesNothing(cfg, s);
        case Consuming => ConsumerReleasesFirst(cfg, s);
      }
      StepInv(cfg, s, schedule[0]);
      RunReleasesFirst(cfg, Step(cfg, s, schedule[0]), schedule[1..]);
    }
  }

  /** A source that does not fit never comes back as an empty file. */
  lemma LargeSourceLeavesSomething(cfg: Config, schedule: Schedule)
    requires ValidConfig(cfg) && |cfg.source| >= cfg.capacity
    requires Finished(Outcome(cfg, schedule))
    ensures Outcome(cfg, schedule).output != []
  {
    hide Run, ProducerStep, ConsumerStep;
    InitInv(cfg);
    RunReleasesFirst(cfg, Init(cfg), schedule);
    OutcomeInv(cfg, schedule);
  }

  /** A run can return with an empty file exactly when the source is shorter than the buffer has slots. */
  lemma EmptyReturnIff(cfg: Config)
    requires ValidConfig(cfg)
    ensures (exists schedule :: Finished(Outcome(cfg, schedule)) && Outcome(cfg, schedule).output == [])
              <==> |cfg.source| < cfg.capacity
  {
    if |cfg.source| < cfg.capacity {
      var schedule := TotalLossSchedule(cfg);
      assert Finished(Outcome(cfg, schedule)) && Outcome(cfg, schedule).output == [];
    } else {
      forall schedule | Finished(Outcome(cfg, schedule))
        ensures Outcome(cfg, schedule).output != []
      {
        LargeSourceLeavesSomething(cfg, schedule);
      }
    }
  }

  // ---- A whole file ----

  function Rejected(s: State): int {
    |s.fate| - |s.accepted|
  }

  lemma RejectedStays(cfg: Config, s: State, t: Thread)
    requires Typed(cfg, s)
    ensures Rejected(Step(cfg, s, t)) >= Rejected(s)
  {
    hide ProducerStep, ConsumerStep;
    ConsumerLeavesProducer(cfg, s);
    ProducerRejects(cfg, s);
  }

  lemma ProducerRejects(cfg: Config, s: State)
    requires Typed(cfg, s)
    ensures Rejected(ProducerStep(cfg, s)) >= Rejected(s)
  {}

  /** A rejected byte stays rejected. */
  lemma {:induction false} RejectedForever(cfg: Config, s: State, schedule: Schedule)
    requires Typed(cfg, s)
    ensures Rejected(Run(cfg, s, schedule)) >= Rejected(s)
    decreases |schedule|
  {
    hide Step, Rejected;
    if schedule == [] {
    } else {
      RejectedStays(cfg, s, schedule[0]);
      RejectedForever(cfg, Step(cfg, s, schedule[0]), schedule[1..]);
    }
  }

  /** With a single slot the ring is full and empty at once, and takes nothing. */
  lemma {:induction false} OneSlotTakesNothing(cfg: Config, s: State, schedule: Schedule)
    requires Inv(cfg, s) && cfg.capacity == 1 && s.accepted == []
    ensures Run(cfg, s, schedule).accepted == []
    decreases |schedule|
  {
    hide ConsumerStep, ConsumerInv, SourceInv, ChunkInv;
    if schedule == [] {
    } else {
      StepInv(cfg, s, schedule[0]);
      OneSlotStep(cfg, s, schedule[0]);
      OneSlotTakesNothing(cfg, Step(cfg, s, schedule[0]), schedule[1..]);
    }
  }

  lemma OneSlotStep(cfg: Config, s: State, t: Thread)
    requires RingInv(cfg, s) && ProducerInv(cfg, s) && cfg.capacity == 1 && s.accepted == []
    ensures Step(cfg, s, t).accepted == []
  {}

  lemma OneSlotNeverReturns(cfg: Config, schedule: Schedule)
    requires ValidConfig(cfg) && cfg.capacity == 1 && cfg.source != []
    ensures !Finished(Outcome(cfg, schedule))
  {
    hide Run, ProducerStep, ConsumerStep;
    if Finished(Outcome(cfg, schedule)) {
      InitInv(cfg);
      OneSlotTakesNothing(cfg, Init(cfg), schedule);
      WholeRun(cfg, schedule);
      LargeSourceLeavesSomething(cfg, schedule);
    }
  }

  /** The producer alone fills the ring and has a byte rejected, while nobody is inside the ring. */
  lemma RejectSchedule(cfg: Config) returns (schedule: Schedule)
    requires ValidConfig(cfg) && |cfg.source| >= cfg.capacity
    ensures var s := Outcome(cfg, schedule);
            Inv(cfg, s) && Coarse(s) && Rejected(s) > 0
  {
    hide Run, ProducerStep, ConsumerStep, Filling, Coarse, Rejected;
    hide RingInv, ProducerInv, ConsumerInv, SourceInv, ChunkInv;
    InitInv(cfg);
    StartsFilling(cfg);
    var fill := FillTheRing(cfg, Init(cfg));
    var s1 := Outcome(cfg, fill);
    LastByteIsRejected(cfg, s1);
    var s2 := Run(cfg, s1, [Producing]);
    RunInv(cfg, s2, [Producing]);
    RejectionIsCoarse(cfg, s1, s2);
    schedule := fill + ([Producing] + [Producing]);
    RunAppend(cfg, Init(cfg), fill, [Producing] + [Producing]);
    RunAppend(cfg, s1, [Producing], [Producing]);
  }

  lemma RejectionIsCoarse(cfg: Config, s1: State, s2: State)
    requires RingInv(cfg, s1) && Filling(cfg, s1) && AtLastByte(cfg, s1)
    requires s2 == s1.(p := s1.p.(pc := PReject)) && Typed(cfg, s2)
    requires s1.ring.reading == (s1.accepted != []) && |s1.accepted| == cfg.capacity - 1
    ensures var s3 := Run(cfg, s2, [Producing]);
            Coarse(s3) && Rejected(s3) > 0
  {
    hide Run, RingInv;
    RunOne(cfg, s2, Producing);
    ContentsFact(cfg, s1);
  }

  /** From there uninterrupted moves, taken in turns, bring both threads home, without that byte. */
  lemma ReturnWithLoss(cfg: Config) returns (schedule: Schedule)
    requires ValidConfig(cfg) && |cfg.source| >= cfg.capacity >= 2
    ensures var s := Outcome(cfg, schedule);
            Finished(s) && |s.output| < |cfg.source|
  {
    hide Run, Step, ProducerStep, ConsumerStep, RingInv, ProducerInv, ConsumerInv, SourceInv, ChunkInv, Expand;
    var fill := RejectSchedule(cfg);
    var s := Outcome(cfg, fill);
    WorkIsNatural(cfg, s);
    var rounds := seq(Work(cfg, s) + 1, _ => [Producing, Consuming]);
    var rest := Expand(cfg, s, Flatten(rounds));
    RoundsExpand(cfg, s, rounds);
    RoundsEnd(cfg, s, ExpandRounds(cfg, s, rounds));
    MovesKeepCoarse(cfg, s, Flatten(rounds));
    RejectedForever(cfg, s, rest);
    schedule := fill + rest;
    RunAppend(cfg, Init(cfg), fill, rest);
    WholeRun(cfg, schedule);
  }

  /** Every run that returns leaves a whole copy exactly when the source is empty, or when the buffer has a
      single slot, in which case no run with anything to send returns at all. */
  lemma WholeReturnIff(cfg: Config)
    requires ValidConfig(cfg)
    ensures (forall schedule :: Finished(Outcome(cfg, schedule)) ==> Outcome(cfg, schedule).output == cfg.source)
              <==> cfg.source == [] || cfg.capacity == 1
  {
    hide Run, ProducerStep, ConsumerStep;
    if cfg.source == [] {
      forall schedule | Finished(Outcome(cfg, schedule))
        ensures Outcome(cfg, schedule).output == cfg.source
      {
        WholeRun(cfg, schedule);
      }
    } else if cfg.capacity == 1 {
      forall schedule
        ensures !Finished(Outcome(cfg, schedule))
      {
        OneSlotNeverReturns(cfg, schedule);
      }
    } else if |cfg.source| < cfg.capacity {
      var schedule := TotalLossSchedule(cfg);
      assert Finished(Outcome(cfg, schedule)) && Outcome(cfg, schedule).output != cfg.source;
    } else {
      var schedule := ReturnWithLoss(cfg);
      assert Finished(Outcome(cfg, schedule)) && Outcome(cfg, schedule).output != cfg.source;
    }
  }

  // ---- A whole file can be had ----

  /** Between uninterrupted moves, nothing rejected so far, and no stop before everything is in the file. */
  ghost predicate InStep(cfg: Config, s: State) {
    && Typed(cfg, s) && Inv(cfg, s) && Coarse(s)
    && s.ring.writing && Rejected(s) == 0
    && (s.p.pc == PDone ==> s.output == cfg.source)
  }

  /** There is something for the consumer to take or to write out. */
  ghost predicate ConsumerTurn(s: State) {
    Stored(s) > 0 || s.c.pc == CWrite || s.p.pc == PDone
  }

  /** As long as the producer moves only while the ring is empty, every byte is accepted. */
  lemma ProducerMoveInStep(cfg: Config, s: State)
    requires InStep(cfg, s) && cfg.capacity >= 2 && !ConsumerTurn(s)
    ensures InStep(cfg, AfterMove(cfg, s, Producing)) && !Spinning(s, Producing)
  {
    hide Run, ProducerStep, ConsumerStep, RingInv, ProducerInv, ConsumerInv, SourceInv, ChunkInv, Coarse, WriteByte;
    var s' := AfterMove(cfg, s, Producing);
    MoveKeepsCoarse(cfg, s, Producing);
    RunInv(cfg, s, Move(cfg, s, Producing));
    SizeFact(cfg, s);
    if AtPush(s) {
      WriteTurn(cfg, s);
      WriteIsBoundedPush(s.ring, s.p.chunk[s.p.i]);
      FatesFromPlace(cfg, s);
      FatesFromPlace(cfg, s');
    } else {
      assert Times(Producing, 1) == [Producing];
      RunOne(cfg, s, Producing);
      SmallProducerMove(cfg, s);
    }
  }

  /** How many bytes have had their fate decided follows from where the producer is in the source. */
  lemma FatesFromPlace(cfg: Config, s: State)
    requires Typed(cfg, s) && SourceInv(cfg, s) && s.p.pc == PLoadTail
    ensures |s.fate| == s.p.pos - |s.p.chunk| + s.p.i
  {}

  lemma SmallProducerMove(cfg: Config, s: State)
    requires InStep(cfg, s) && !ConsumerTurn(s) && !AtPush(s)
    ensures var s' := ProducerStep(cfg, s);
            && s'.ring.writing && Rejected(s') == 0
            && (s'.p.pc == PDone ==> s'.output == cfg.source)
  {
    hide ConsumerStep, ChunkInv, Kept;
    if s.p.pc == PStopStore {
      WholeSource(cfg, s);
    }
  }

  lemma WholeSource(cfg: Config, s: State)
    requires RingInv(cfg, s) && ConsumerInv(cfg, s) && SourceInv(cfg, s)
    requires Rejected(s) == 0 && Stored(s) == 0 && s.p.pc == PStopStore
    requires s.c.pc in {CRun, CGate, CGateSpin, CGateRun, CSizeHead, CDone}
    ensures s.output == cfg.source
  {
    hide ProducerStep, ConsumerStep, Kept;
    KeptWhole(cfg.source[..|s.fate|], s.fate);
  }

  lemma {:induction false} ConsumersLeave(cfg: Config, s: State, n: nat)
    requires Typed(cfg, s)
    ensures var s' := Run(cfg, s, Times(Consuming, n));
            && s'.p == s.p && s'.accepted == s.accepted && s'.fate == s.fate
            && (s.ring.writing ==> s'.ring.writing)
    decreases n
  {
    hide Run, ProducerStep, ConsumerStep;
    if n == 0 {
      RunNone(cfg, s, Consuming);
    } else {
      RunTimes(cfg, s, Consuming, n - 1);
      ConsumerLeavesProducer(cfg, s);
      ConsumerKeepsWriting(cfg, s);
      ConsumersLeave(cfg, ConsumerStep(cfg, s), n - 1);
    }
  }

  lemma ConsumerMoveInStep(cfg: Config, s: State)
    requires InStep(cfg, s) && ConsumerTurn(s) && !Finished(s)
    ensures InStep(cfg, AfterMove(cfg, s, Consuming)) && !Spinning(s, Consuming)
  {
    hide Run, ProducerStep, ConsumerStep, RingInv, SourceInv, ChunkInv, Coarse;
    var move := Move(cfg, s, Consuming);
    MoveKeepsCoarse(cfg, s, Consuming);
    RunInv(cfg, s, move);
    ConsumersLeave(cfg, s, |move|);
    assert move == Times(Consuming, |move|);
    ReadingWhenStored(cfg, s);
    if s.p.pc == PDone {
      AcceptedGrows(cfg, s, move);
      FileFitsSource(cfg, s);
      FileFitsSource(cfg, AfterMove(cfg, s, Consuming));
    }
  }

  lemma ReadingWhenStored(cfg: Config, s: State)
    requires RingInv(cfg, s) && Coarse(s)
    ensures Stored(s) > 0 ==> s.ring.reading
  {
    hide ProducerStep, ConsumerStep;
    ContentsFact(cfg, s);
  }

  /** The file never outgrows the source. */
  lemma FileFitsSource(cfg: Config, s: State)
    requires Inv(cfg, s)
    ensures |s.output| <= |cfg.source|
  {
    hide ProducerStep, ConsumerStep, ChunkInv;
    KeptWhole(cfg.source[..|s.fate|], s.fate);
  }

  /** The two threads take turns: a byte in, a byte out. */
  lemma {:induction false} TakeTurns(cfg: Config, s: State) returns (schedule: Schedule)
    requires InStep(cfg, s) && cfg.capacity >= 2
    ensures var s' := Run(cfg, s, schedule);
            Finished(s') && s'.output == cfg.source
    decreases Work(cfg, s)
  {
    hide Run, Step, ProducerStep, ConsumerStep, Move, Work, Spinning, ConsumerTurn;
    hide ProducerInv, ConsumerInv, SourceInv, ChunkInv, Coarse;
    if Finished(s) {
      schedule := [];
      RunNothing(cfg, s);
    } else {
      var t := if ConsumerTurn(s) then Consuming else Producing;
      var move := Move(cfg, s, t);
      if ConsumerTurn(s) {
        ConsumerMoveInStep(cfg, s);
      } else {
        ProducerMoveInStep(cfg, s);
      }
      var s' := AfterMove(cfg, s, t);
      RoundWorks(cfg, s, t, move);
      WorkIsNatural(cfg, s');
      var rest := TakeTurns(cfg, s');
      RunAppend(cfg, s, move, rest);
      schedule := move + rest;
    }
  }

  /** Some run returns with a whole copy exactly when there is nothing to send or room for a byte. */
  lemma DeliveryReachableIff(cfg: Config)
    requires ValidConfig(cfg)
    ensures (exists schedule :: Finished(Outcome(cfg, schedule)) && Outcome(cfg, schedule).output == cfg.source)
              <==> cfg.source == [] || cfg.capacity >= 2
  {
    hide Run, ProducerStep, ConsumerStep, Coarse;
    if cfg.capacity >= 2 {
      InitInv(cfg);
      InitCoarse(cfg);
      var schedule := TakeTurns(cfg, Init(cfg));
      assert Finished(Outcome(cfg, schedule)) && Outcome(cfg, schedule).output == cfg.source;
    } else if cfg.source == [] {
      var schedule := TotalLossSchedule(cfg);
      assert Finished(Outcome(cfg, schedule)) && Outcome(cfg, schedule).output == cfg.source;
    } else {
      forall schedule
        ensures !Finished(Outcome(cfg, schedule))
      {
        OneSlotNeverReturns(cfg, schedule);
      }
    }
  }

  // ---- What the stop cuts off ----

  /** Once the producer has stopped the run, what the file will come to hold is settled: a consumer that has begun to
      read finishes with what it found, and any other takes nothing more, whatever is stored and however far it got
      past its gate. */
  ghost function FinalFile(s: State): seq<byte>
    requires s.c.pc in {CGetHead, CCopy, CSetHead, CStoreHead} ==> |s.delivered| + s.c.size <= |s.accepted|
  {
    if s.c.pc in {CSizeHead, CSizeTail} then s.accepted
    else if s.c.pc in {CGetHead, CCopy, CSetHead, CStoreHead} then s.accepted[..|s.delivered| + s.c.size]
    else s.delivered
  }

  lemma StoppedStep(cfg: Config, s: State, t: Thread)
    requires Inv(cfg, s) && !s.running
    ensures var s' := Step(cfg, s, t);
            Inv(cfg, s') && !s'.running && FinalFile(s') == FinalFile(s)
  {
    hide ProducerStep, ConsumerStep, SourceInv, ChunkInv;
    StepInv(cfg, s, t);
    StoppedForGood(cfg, s);
    if t == Consuming {
      ConsumerLeavesProducer(cfg, s);
      StoppedConsumer(cfg, s);
    }
  }

  lemma StoppedForGood(cfg: Config, s: State)
    requires Typed(cfg, s) && ProducerInv(cfg, s) && !s.running
    ensures ProducerStep(cfg, s) == s
  {}

  lemma StoppedConsumer(cfg: Config, s: State)
    requires RingInv(cfg, s) && ConsumerInv(cfg, s) && ConsumerInv(cfg, ConsumerStep(cfg, s)) && !s.running
    ensures FinalFile(ConsumerStep(cfg, s)) == FinalFile(s)
  {
    hide ProducerStep, RingInv;
    if s.c.pc == CSizeTail {
      SizeKeepsConsumer(cfg, s);
      assert s.accepted[..|s.accepted|] == s.accepted;
    } else if s.c.pc == CStoreHead {
      ReleasedFront(cfg, s);
    }
  }

  lemma ReleasedFront(cfg: Config, s: State)
    requires RingInv(cfg, s) && ConsumerInv(cfg, s) && s.c.pc == CStoreHead
    ensures s.delivered + s.c.buffer == s.accepted[..|s.delivered| + s.c.size]
  {
    ReleaseKeepsPrefix(s.accepted, |s.delivered|, s.c.size);
    assert s.c.buffer[..s.c.size] == s.c.buffer;
  }

  /** Whatever the schedule after the stop, the file gets no further than that, and holds exactly that once the
      consumer has returned. */
  lemma {:induction false} StopSettlesFile(cfg: Config, s: State, schedule: Schedule)
    requires Inv(cfg, s) && !s.running
    ensures var s' := Run(cfg, s, schedule);
            && s'.output <= FinalFile(s)
            && (Finished(s') ==> s'.output == FinalFile(s))
            && (s.c.pc in {CRun, CGate, CGateSpin, CGateRun, CDone} ==>
                  s'.output == s.output && s'.delivered == s.delivered)
    decreases |schedule|
  {
    hide Step, ProducerInv, SourceInv, ChunkInv;
    if schedule == [] {
      FileBelowFinal(cfg, s);
    } else {
      StoppedStep(cfg, s, schedule[0]);
      if s.c.pc in {CRun, CGate, CGateSpin, CGateRun, CDone} {
        StoppedOutside(cfg, s, schedule[0]);
      }
      StopSettlesFile(cfg, Step(cfg, s, schedule[0]), schedule[1..]);
    }
  }

  lemma FileBelowFinal(cfg: Config, s: State)
    requires RingInv(cfg, s) && ConsumerInv(cfg, s)
    ensures s.output <= FinalFile(s)
    ensures s.c.pc == CDone ==> s.output == FinalFile(s)
  {}

  lemma StoppedOutside(cfg: Config, s: State, t: Thread)
    requires Typed(cfg, s) && ProducerInv(cfg, s) && !s.running && s.c.pc in {CRun, CGate, CGateSpin, CGateRun, CDone}
    ensures var s' := Step(cfg, s, t);
            && s'.c.pc in {CRun, CGate, CGateSpin, CGateRun, CDone}
            && s'.output == s.output && s'.delivered == s.delivered
  {}

  /** The producer alone, with a source that fits, up to the store that stops the run. */
  lemma {:induction false} ProducerToStop(cfg: Config, s: State) returns (schedule: Schedule)
    requires Inv(cfg, s) && FlagInv(s) && NeverFull(s) && |cfg.source| < cfg.capacity && s.p.pc != PDone
    ensures var s' := Run(cfg, s, schedule);
            && Inv(cfg, s') && FlagInv(s') && NeverFull(s')
            && s'.p.pc == PStopStore && s'.c == s.c && s'.delivered == s.delivered && s'.output == s.output
    decreases Work(cfg, s)
  {
    hide ConsumerStep, ProducerStep, Work, ProducerInv, ConsumerInv, SourceInv, ChunkInv, FlagInv;
    if s.p.pc == PStopStore {
      schedule := [];
    } else {
      WorkIsNatural(cfg, s);
      InvTurns(cfg, s);
      ProducerWorks(cfg, s);
      ProducerStepInv(cfg, s);
      NeverFullStep(cfg, s, Producing);
      FreshProducerKeepsFlags(cfg, s);
      ProducerLeavesReader(cfg, s);
      var rest := ProducerToStop(cfg, Step(cfg, s, Producing));
      schedule := [Producing] + rest;
      assert schedule[1..] == rest;
    }
  }

  lemma ProducerLeavesReader(cfg: Config, s: State)
    requires Typed(cfg, s)
    ensures var s' := ProducerStep(cfg, s);
            && s'.c == s.c && s'.delivered == s.delivered && s'.output == s.output
            && (s.p.pc !in {PStopStore, PDone} ==> s'.p.pc != PDone)
  {}

  /** Everything is stored and announced, and the consumer has passed its gate because of it; then the run stops, and
      the file stays empty. */
  ghost predicate StoppedPastGate(cfg: Config, before: Schedule, after: Schedule)
    requires ValidConfig(cfg)
  {
    var s, s' := Outcome(cfg, before), Outcome(cfg, before + after);
    && s.c.pc == CGateRun && s.ring.reading && s.accepted == cfg.source && s.running
    && Finished(s') && s'.output == []
  }

  /** Such a run exists exactly when there is something to send and all of it fits. */
  lemma LossPastGateIff(cfg: Config)
    requires ValidConfig(cfg)
    ensures (exists before, after :: StoppedPastGate(cfg, before, after)) <==> 0 < |cfg.source| < cfg.capacity
  {
    hide Run;
    if 0 < |cfg.source| < cfg.capacity {
      LossPastGate(cfg);
    }
    if before, after :| StoppedPastGate(cfg, before, after) {
      PastGateFits(cfg, before, after);
    }
  }

  lemma PastGateFits(cfg: Config, before: Schedule, after: Schedule)
    requires ValidConfig(cfg) && StoppedPastGate(cfg, before, after)
    ensures 0 < |cfg.source| < cfg.capacity
  {
    hide Run, ProducerStep, ConsumerStep, ProducerInv, SourceInv, ChunkInv;
    var s := Outcome(cfg, before);
    InitInv(cfg);
    RunReleasesFirst(cfg, Init(cfg), before);
    OutcomeInv(cfg, before);
    RunAppend(cfg, Init(cfg), before, after);
    AcceptedGrows(cfg, s, after);
  }

  lemma LossPastGate(cfg: Config)
    requires ValidConfig(cfg) && 0 < |cfg.source| < cfg.capacity
    ensures exists before, after :: StoppedPastGate(cfg, before, after)
  {
    hide Run, Inv, FlagInv, NeverFull, ProducerStep;
    var s0 := Init(cfg);
    InitInv(cfg);
    StartsInStep(cfg);
    var s1 := Run(cfg, s0, [Consuming]);
    RunOne(cfg, s0, Consuming);
    RunInv(cfg, s0, [Consuming]);
    StartsInGate(cfg, s1);
    var fill := ProducerToStop(cfg, s1);
    var s2 := Run(cfg, s1, fill);
    AllAnnounced(cfg, s2);
    var s3 := Run(cfg, s2, [Consuming]);
    RunOne(cfg, s2, Consuming);
    var after := [Producing] + Times(Consuming, 2);
    StopAtGate(cfg, s3);
    var before := [Consuming] + (fill + [Consuming]);
    RunAppend(cfg, s0, [Consuming], fill + [Consuming]);
    RunAppend(cfg, s1, fill, [Consuming]);
    RunAppend(cfg, s0, before, after);
    assert StoppedPastGate(cfg, before, after);
  }

  lemma StartsInStep(cfg: Config)
    requires ValidConfig(cfg)
    ensures FlagInv(Init(cfg)) && NeverFull(Init(cfg))
  {}

  lemma StartsInGate(cfg: Config, s: State)
    requires ValidConfig(cfg) && s == ConsumerStep(cfg, Init(cfg))
    ensures Typed(cfg, s) && FlagInv(s) && NeverFull(s) && s.c.pc == CGate && s.p.pc == PRead
    ensures s.delivered == [] && s.output == []
  {}

  lemma AllAnnounced(cfg: Config, s: State)
    requires Inv(cfg, s) && FlagInv(s) && NeverFull(s) && s.p.pc == PStopStore && s.delivered == [] && cfg.source != []
    ensures Typed(cfg, s) && s.ring.reading && s.accepted == cfg.source && s.running
  {
    hide ProducerStep, ConsumerStep, ChunkInv, ConsumerInv, Kept;
    SizeFact(cfg, s);
    KeptWhole(cfg.source[..|s.fate|], s.fate);
  }

  lemma StopAtGate(cfg: Config, s: State)
    requires Typed(cfg, s) && s.p.pc == PStopStore && s.c.pc == CGateRun
    ensures var s' := Run(cfg, s, [Producing] + Times(Consuming, 2));
            Finished(s') && s'.output == s.output
  {
    hide Run;
    var s1 := ProducerStep(cfg, s);
    RunAppend(cfg, s, [Producing], Times(Consuming, 2));
    RunOne(cfg, s, Producing);
    RunTwo(cfg, s1, Consuming);
  }
}
