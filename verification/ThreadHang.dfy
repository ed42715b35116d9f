/** When the threaded transfer can hang, and when it can lose everything: exact conditions, with the
    schedules that do it. */
module ThreadHang {
  import opened Ring
  import opened Threads
  import opened ThreadSafety
  import opened ThreadDelivery
  import opened ThreadLiveness
  import opened ThreadTurns

  function Least(a: int, b: int): int {
    if a < b then a else b
  }

  /** The consumer has not moved yet. */
  ghost predicate ConsumerIdle(s: State) {
    s.c.pc == CRun && s.delivered == [] && s.output == []
  }

  /** The producer alone, on its way to the last byte of the chunk that overfills the ring. */
  ghost predicate Filling(cfg: Config, s: State) {
    var p := s.p;
    && ConsumerIdle(s)
    && |cfg.source| >= cfg.capacity
    && p.pc !in {PStop, PStopStore, PDone}
    && p.pos - |p.chunk| < cfg.capacity
    && (p.pc == PRead ==> p.pos < cfg.capacity)
    && (p.pos >= cfg.capacity && InPushLoop(p) ==>
          p.i < |p.chunk| && (p.i == |p.chunk| - 1 ==> p.pc in {PLoadTail, PLoadHead}))
    && |s.accepted| == Least(|s.fate|, cfg.capacity - 1)
    && (p.pc == PReject ==> |s.accepted| == cfg.capacity - 1)
    && (s.ring.writing || |s.fate| >= cfg.capacity)
    && (s.ring.reading || s.accepted == [] || p.pc == PAnnounce)
    && (s.ring.reading || p.pc == PAnnounce ==> s.accepted != [])
  }

  /** The last byte of that chunk is about to be compared against a full ring. */
  ghost predicate AtLastByte(cfg: Config, s: State) {
    s.p.pc == PLoadHead && s.p.i == |s.p.chunk| - 1 && s.p.pos >= cfg.capacity
  }

  lemma FillingGate(cfg: Config, s: State)
    requires Typed(cfg, s) && Turning(cfg, s) && Filling(cfg, s) && !InPushLoop(s.p)
    ensures Filling(cfg, ProducerStep(cfg, s))
    ensures !Spinning(s, Producing)
  {
    hide Kept;
    if s.p.pc == PRead {
      FillingRead(cfg, s);
    } else {
      FillingWait(cfg, s);
    }
  }

  lemma FillingRead(cfg: Config, s: State)
    requires Typed(cfg, s) && SourceInv(cfg, s) && Filling(cfg, s) && s.p.pc == PRead
    ensures Filling(cfg, ProducerStep(cfg, s))
  {
    hide Kept;
  }

  /** Writing is down only once the ring has been full, and then the last chunk of interest is already under way. */
  lemma FillingWait(cfg: Config, s: State)
    requires Typed(cfg, s) && SourceInv(cfg, s) && Filling(cfg, s) && s.running
    requires s.p.pc in {PGate, PGateSpin, PGateRun}
    ensures s.ring.writing && Filling(cfg, ProducerStep(cfg, s))
  {
    hide Kept, ConsumerStep;
    WritingStillUp(cfg, s);
    FillingGateMove(cfg, s, ProducerStep(cfg, s));
  }

  lemma WritingStillUp(cfg: Config, s: State)
    requires Typed(cfg, s) && SourceInv(cfg, s) && Filling(cfg, s) && s.p.pc in {PGate, PGateSpin, PGateRun}
    ensures s.ring.writing && s.p.i == 0 && s.p.chunk != []
  {
    hide Kept;
  }

  lemma FillingGateMove(cfg: Config, s: State, s': State)
    requires Filling(cfg, s) && s.p.pc in {PGate, PGateSpin, PGateRun} && s.p.i == 0 && s.p.chunk != []
    requires s' == s.(p := s'.p) && s'.p == s.p.(pc := s'.p.pc, base := s'.p.base, room := s'.p.room)
    requires s'.p.pc in {PGate, PGateSpin, PGateRun, PLoadTail}
    ensures Filling(cfg, s')
  {}

  lemma FillingLoadTail(cfg: Config, s: State)
    requires Typed(cfg, s) && SourceInv(cfg, s) && Filling(cfg, s) && s.p.pc == PLoadTail
    ensures Filling(cfg, ProducerStep(cfg, s))
  {
    hide Kept;
  }

  lemma FillingLoadHead(cfg: Config, s: State)
    requires Typed(cfg, s) && ProducerInv(cfg, s) && Filling(cfg, s) && s.p.pc == PLoadHead && !AtLastByte(cfg, s)
    requires (s.ring.tail + 1) % cfg.capacity == s.ring.head <==> |s.accepted| == cfg.capacity - 1
    ensures Filling(cfg, ProducerStep(cfg, s))
  {}

  lemma FillingPush(cfg: Config, s: State)
    requires Typed(cfg, s) && ProducerInv(cfg, s) && SourceInv(cfg, s) && Filling(cfg, s)
    requires s.p.pc in {PReject, PStore, PPublish, PAnnounce}
    ensures Filling(cfg, ProducerStep(cfg, s))
  {
    hide Kept;
  }

  lemma FillingStep(cfg: Config, s: State)
    requires Inv(cfg, s) && Filling(cfg, s) && !AtLastByte(cfg, s)
    ensures Inv(cfg, ProducerStep(cfg, s)) && Filling(cfg, ProducerStep(cfg, s))
    ensures Work(cfg, ProducerStep(cfg, s)) < Work(cfg, s)
  {
    hide ProducerStep, Work, ProducerInv, ConsumerInv, SourceInv, ChunkInv, Filling;
    ProducerStepInv(cfg, s);
    InvTurns(cfg, s);
    ProducerWorks(cfg, s);
    if !InPushLoop(s.p) {
      FillingGate(cfg, s);
    } else if s.p.pc == PLoadTail {
      FillingLoadTail(cfg, s);
    } else if s.p.pc == PLoadHead {
      FillingFull(cfg, s);
      FillingLoadHead(cfg, s);
    } else {
      FillingPush(cfg, s);
    }
    PushingNeverSpins(s);
  }

  lemma FillingFull(cfg: Config, s: State)
    requires RingInv(cfg, s) && Filling(cfg, s)
    ensures (s.ring.tail + 1) % cfg.capacity == s.ring.head <==> |s.accepted| == cfg.capacity - 1
  {
    FullFact(cfg, s);
  }

  lemma InvTurns(cfg: Config, s: State)
    requires Inv(cfg, s)
    ensures Turning(cfg, s)
  {}

  lemma PushingNeverSpins(s: State)
    ensures InPushLoop(s.p) ==> !Spinning(s, Producing)
  {}

  /** The producer alone gets there. */
  lemma {:induction false} FillTheRing(cfg: Config, s: State) returns (schedule: Schedule)
    requires Inv(cfg, s) && Filling(cfg, s)
    ensures var s' := Run(cfg, s, schedule);
            Inv(cfg, s') && Filling(cfg, s') && AtLastByte(cfg, s')
    decreases Work(cfg, s)
  {
    hide ProducerStep, ConsumerStep;
    if AtLastByte(cfg, s) {
      schedule := [];
    } else {
      WorkIsNatural(cfg, s);
      FillingStep(cfg, s);
      var rest := FillTheRing(cfg, Step(cfg, s, Producing));
      schedule := [Producing] + rest;
      assert schedule[1..] == rest;
    }
  }

  /** The producer has decided the ring is full; meanwhile the consumer goes once round its loop, finds whatever
      there is, and is back waiting at its gate with reading down. */
  lemma ConsumerGoesRound(cfg: Config, s: State) returns (schedule: Schedule)
    requires Inv(cfg, s) && ConsumerIdle(s) && s.running
    requires s.ring.reading == (s.accepted != [])
    ensures var s' := Run(cfg, s, schedule);
            && s'.p == s.p && s'.running && s'.accepted == s.accepted && s'.fate == s.fate
            && s'.c.pc == CGate && !s'.ring.reading
  {
    hide Run, ProducerStep;
    if s.accepted == [] {
      schedule := [Consuming];
      RunOne(cfg, s, Consuming);
    } else {
      var s3 := Run(cfg, s, Times(Consuming, 3));
      RunThree(cfg, s, Consuming);
      assert s3 == s.(c := s.c.(pc := CSizeHead));
      RunInv(cfg, s, Times(Consuming, 3));
      schedule := Times(Consuming, 3 + ReadSteps(s3) + 2);
      WholeRound(cfg, s, s3);
    }
  }

  lemma WholeRound(cfg: Config, s: State, s3: State)
    requires Typed(cfg, s) && Run(cfg, s, Times(Consuming, 3)) == s3
    requires Typed(cfg, s3) && WellFormed(s3.ring) && Inv(cfg, s3) && s3.c.pc == CSizeHead && s3.running
    ensures var s' := Run(cfg, s, Times(Consuming, 3 + ReadSteps(s3) + 2));
            && s'.p == s3.p && s'.running && s'.accepted == s3.accepted && s'.fate == s3.fate
            && s'.c.pc == CGate && !s'.ring.reading
  {
    hide Run, Step, ProducerStep, ConsumerStep, Inv, Typed, AdvanceHead;
    RunTimesChain(cfg, s, Consuming, 3, ReadSteps(s3), 2);
    EmptyAfterRead(cfg, s3);
    BackToGate(cfg, Run(cfg, s3, Times(Consuming, ReadSteps(s3))));
  }

  lemma EmptyAfterRead(cfg: Config, s: State)
    requires Typed(cfg, s) && Inv(cfg, s) && s.c.pc == CSizeHead
    ensures var s' := Run(cfg, s, Times(Consuming, ReadSteps(s)));
            && Typed(cfg, s')
            && s'.p == s.p && s'.running == s.running && s'.accepted == s.accepted && s'.fate == s.fate
            && s'.c.pc == CWrite && !s'.ring.reading
  {
    hide Run, Step, ProducerStep, ConsumerStep, Inv, AdvanceHead;
    ReadTurn(cfg, s);
    AdvanceIsDrop(s.ring, Size(s.ring));
  }

  lemma BackToGate(cfg: Config, s: State)
    requires Typed(cfg, s) && s.c.pc == CWrite && s.running
    ensures var s' := Run(cfg, s, Times(Consuming, 2));
            && s' == s.(c := s'.c, output := s'.output) && s'.c.pc == CGate
  {
    hide Run, ProducerStep;
    RunTwo(cfg, s, Consuming);
  }

  /** Then the stale decision lands: writing goes down over an empty ring, the chunk is over, and both spin. */
  lemma StaleStore(cfg: Config, s: State)
    requires Typed(cfg, s) && s.running && s.c.pc == CGate && !s.ring.reading
    requires s.p.pc == PReject && s.p.i == |s.p.chunk| - 1
    ensures var s' := Run(cfg, s, Times(Producing, 3));
            Stuck(s') && s'.accepted == s.accepted
  {
    hide Run, ConsumerStep;
    RunThree(cfg, s, Producing);
  }

  lemma HangSchedule(cfg: Config) returns (schedule: Schedule)
    requires ValidConfig(cfg) && |cfg.source| >= cfg.capacity
    ensures var s := Outcome(cfg, schedule);
            Stuck(s) && |s.accepted| < |cfg.source|
  {
    hide Run, ProducerStep, ConsumerStep, RingInv, ProducerInv, ConsumerInv, SourceInv, ChunkInv, Filling;
    InitInv(cfg);
    StartsFilling(cfg);
    var fill := FillTheRing(cfg, Init(cfg));
    var s1 := Outcome(cfg, fill);
    var s2 := Run(cfg, s1, [Producing]);
    LastByteIsRejected(cfg, s1);
    var round := ConsumerGoesRound(cfg, s2);
    var s3 := Run(cfg, s2, round);
    StaleStore(cfg, s3);
    schedule := fill + ([Producing] + (round + Times(Producing, 3)));
    RunAppend(cfg, Init(cfg), fill, [Producing] + (round + Times(Producing, 3)));
    RunAppend(cfg, s1, [Producing], round + Times(Producing, 3));
    RunAppend(cfg, s2, round, Times(Producing, 3));
  }

  lemma StartsFilling(cfg: Config)
    requires ValidConfig(cfg) && |cfg.source| >= cfg.capacity
    ensures Filling(cfg, Init(cfg))
  {}

  lemma LastByteIsRejected(cfg: Config, s: State)
    requires Inv(cfg, s) && Filling(cfg, s) && AtLastByte(cfg, s)
    ensures var s' := Run(cfg, s, [Producing]);
            && Inv(cfg, s') && s' == s.(p := s.p.(pc := PReject))
            && ConsumerIdle(s) && s.running && s.ring.reading == (s.accepted != [])
            && |s.accepted| == cfg.capacity - 1
  {
    hide Run, ProducerStep, ProducerInv, SourceInv, ConsumerInv, ChunkInv;
    RunOne(cfg, s, Producing);
    ProducerStepInv(cfg, s);
    FillingFull(cfg, s);
    FillingSoFar(cfg, s);
    RejectedStep(cfg, s);
  }

  lemma FillingSoFar(cfg: Config, s: State)
    requires Typed(cfg, s) && ProducerInv(cfg, s) && SourceInv(cfg, s) && Filling(cfg, s) && AtLastByte(cfg, s)
    ensures s.running && s.p.tail == s.ring.tail
    ensures s.ring.reading == (s.accepted != []) && |s.accepted| == cfg.capacity - 1
  {
    hide Kept;
  }

  lemma RejectedStep(cfg: Config, s: State)
    requires Typed(cfg, s) && s.p.pc == PLoadHead && (s.p.tail + 1) % cfg.capacity == s.ring.head
    ensures ProducerStep(cfg, s) == s.(p := s.p.(pc := PReject))
  {}

  /** A hang, both threads spinning forever, is reachable exactly when the source has at least as many
      bytes as the buffer has slots. */
  lemma HangReachableIff(cfg: Config)
    requires ValidConfig(cfg)
    ensures (exists schedule :: Stuck(Outcome(cfg, schedule))) <==> |cfg.source| >= cfg.capacity
  {
    if |cfg.source| >= cfg.capacity {
      var schedule := HangSchedule(cfg);
      assert Stuck(Outcome(cfg, schedule));
    } else {
      forall schedule
        ensures !Stuck(Outcome(cfg, schedule))
      {
        SmallSourceLosesNothingToRejection(cfg, schedule);
      }
    }
  }

  /** With a single slot the ring is always full and always empty, so no store is ever stale. */
  lemma {:induction false} OneSlotIsFresh(cfg: Config, s: State, schedule: Schedule)
    requires Typed(cfg, s) && cfg.capacity == 1
    ensures FreshRun(cfg, s, schedule)
    decreases |schedule|
  {
    hide Step;
    if schedule == [] {
    } else {
      OneSlotIsFresh(cfg, Step(cfg, s, schedule[0]), schedule[1..]);
    }
  }

  /** Even with every flag lowered while its condition holds, some run hangs exactly when there is a single slot and
      something to send. */
  lemma FreshHangReachableIff(cfg: Config)
    requires ValidConfig(cfg)
    ensures (exists schedule :: FreshRun(cfg, Init(cfg), schedule) && Stuck(Outcome(cfg, schedule)))
              <==> cfg.capacity == 1 && cfg.source != []
  {
    hide Run, FreshRun, Init;
    if cfg.capacity == 1 && cfg.source != [] {
      var schedule := HangSchedule(cfg);
      OneSlotIsFresh(cfg, Init(cfg), schedule);
      assert FreshRun(cfg, Init(cfg), schedule) && Stuck(Outcome(cfg, schedule));
    } else {
      forall schedule | FreshRun(cfg, Init(cfg), schedule)
        ensures !Stuck(Outcome(cfg, schedule))
      {
        if cfg.capacity >= 2 {
          NoLostWakeUp(cfg, schedule);
        } else {
          HangReachableIff(cfg);
        }
      }
    }
  }

  /** The producer alone, with a source that fits. */
  lemma {:induction false} ProducerAlone(cfg: Config, s: State) returns (schedule: Schedule)
    requires Inv(cfg, s) && NeverFull(s) && ConsumerIdle(s) && |cfg.source| < cfg.capacity
    ensures var s' := Run(cfg, s, schedule);
            Inv(cfg, s') && ConsumerIdle(s') && s'.p.pc == PDone
    decreases Work(cfg, s)
  {
    hide ConsumerStep, ProducerStep, Work, ProducerInv, ConsumerInv, SourceInv, ChunkInv;
    if s.p.pc == PDone {
      schedule := [];
    } else {
      WorkIsNatural(cfg, s);
      InvTurns(cfg, s);
      ProducerWorks(cfg, s);
      ProducerStepInv(cfg, s);
      NeverFullStep(cfg, s, Producing);
      ProducerLeavesConsumer(cfg, s);
      var rest := ProducerAlone(cfg, Step(cfg, s, Producing));
      schedule := [Producing] + rest;
      assert schedule[1..] == rest;
    }
  }

  lemma ProducerLeavesConsumer(cfg: Config, s: State)
    requires Typed(cfg, s) && ConsumerIdle(s)
    ensures ConsumerIdle(ProducerStep(cfg, s))
  {}

  /** If the producer finishes before the consumer starts, the run returns with an empty file. */
  lemma TotalLossSchedule(cfg: Config) returns (schedule: Schedule)
    requires ValidConfig(cfg) && |cfg.source| < cfg.capacity
    ensures var s := Outcome(cfg, schedule);
            Finished(s) && s.output == []
  {
    hide Run, ProducerStep;
    InitInv(cfg);
    var alone := ProducerAlone(cfg, Init(cfg));
    schedule := alone + [Consuming];
    RunAppend(cfg, Init(cfg), alone, [Consuming]);
    RunOne(cfg, Outcome(cfg, alone), Consuming);
  }

  ghost predicate CanStillDeliver(cfg: Config, schedule: Schedule)
    requires ValidConfig(cfg)
  {
    exists more :: Outcome(cfg, schedule + more).output == cfg.source
  }

  lemma AfterHang(cfg: Config, schedule: Schedule, more: Schedule)
    requires ValidConfig(cfg)
    requires Stuck(Outcome(cfg, schedule)) && |Outcome(cfg, schedule).accepted| < |cfg.source|
    ensures Outcome(cfg, schedule + more).output != cfg.source
  {
    hide ProducerStep, ConsumerStep;
    RunAppend(cfg, Init(cfg), schedule, more);
    StuckForever(cfg, Outcome(cfg, schedule), more);
    FirstInFirstOut(cfg, schedule);
  }

  lemma AfterReturn(cfg: Config, schedule: Schedule, more: Schedule)
    requires ValidConfig(cfg) && Finished(Outcome(cfg, schedule))
    ensures Outcome(cfg, schedule + more) == Outcome(cfg, schedule)
  {
    hide ProducerStep, ConsumerStep;
    RunAppend(cfg, Init(cfg), schedule, more);
    FinishedForever(cfg, Outcome(cfg, schedule), more);
  }

  /** Delivery can always still be completed only for the empty file: any other file has a schedule after which
      no continuation ever yields a whole copy. */
  lemma DeliveryAssuredIffEmpty(cfg: Config)
    requires ValidConfig(cfg)
    ensures (forall schedule :: CanStillDeliver(cfg, schedule)) <==> cfg.source == []
  {
    hide Run, ProducerStep, ConsumerStep;
    if cfg.source == [] {
      forall schedule
        ensures CanStillDeliver(cfg, schedule)
      {
        SmallSourceLosesNothingToRejection(cfg, schedule);
        assert schedule + [] == schedule;
        assert Outcome(cfg, schedule + []).output == cfg.source;
      }
    } else if |cfg.source| < cfg.capacity {
      var schedule := TotalLossSchedule(cfg);
      forall more
        ensures Outcome(cfg, schedule + more).output != cfg.source
      {
        AfterReturn(cfg, schedule, more);
      }
      assert !CanStillDeliver(cfg, schedule);
    } else {
      var schedule := HangSchedule(cfg);
      forall more
        ensures Outcome(cfg, schedule + more).output != cfg.source
      {
        AfterHang(cfg, schedule, more);
      }
      assert !CanStillDeliver(cfg, schedule);
    }
  }
}
