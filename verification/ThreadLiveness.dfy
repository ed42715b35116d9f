/** Every fair run of the two threads ends: with both threads returned, or with both spinning forever. */
module ThreadLiveness {
  import opened Bytes
  import opened Modular
  import opened Ring
  import opened Threads
  import opened ThreadSafety
  import opened ThreadDelivery

  /** Thread `t` can do nothing but spin, or has returned. */
  ghost predicate Spinning(s: State, t: Thread) {
    match t
    case Producing => s.p.pc == PDone || (s.p.pc in {PGate, PGateSpin, PStop} && !s.ring.writing)
    case Consuming => s.c.pc == CDone || (s.c.pc in {CGate, CGateSpin} && !s.ring.reading && s.running)
  }

  /** Steps the producer still has to make by itself. */
  ghost function ProducerWork(size: nat, p: Producer, writing: bool): int {
    var later := 12 * (size - p.pos) + 3;
    var rest := later + 7 * (|p.chunk| - p.i);
    match p.pc
    case PRead => later
    case PGate => rest + 3
    case PGateSpin => rest + if writing then 4 else 3
    case PGateRun => rest + 2
    case PLoadTail => rest + 1
    case PLoadHead => rest
    case PReject => rest - 1
    case PStore => rest - 1
    case PPublish => rest - 2
    case PAnnounce => rest - 3
    case PStop => 2
    case PStopStore => 1
    case PDone => 0
  }

  /** Where the consumer is in its loop. A turn that released bytes has already been paid for at `CStoreHead`. */
  ghost function ConsumerWork(c: Consumer, running: bool, reading: bool): nat {
    match c.pc
    case CRun => if running then 16 else 1
    case CGate => 15
    case CGateSpin => if !running then 14 else if reading then 16 else 15
    case CGateRun => 13
    case CSizeHead => 12
    case CSizeTail => 11
    case CGetHead => 10
    case CCopy => 9
    case CSetHead => 8
    case CStoreHead => 7
    case COpen => if c.size > 0 then 24 else 6
    case CLoadTail => if c.size > 0 then 22 else 4
    case CClose => if c.size > 0 then 21 else 3
    case CWrite => 20
    case CDone => 0
  }

  /** A byte arrived during a turn that had found the ring empty. */
  ghost predicate LateByte(c: Consumer, stored: int) {
    c.pc in {CGetHead, CCopy, CSetHead, CStoreHead, COpen, CLoadTail} && c.size == 0 && stored > 0
  }

  function Stored(s: State): int {
    |s.accepted| - |s.delivered|
  }

  /** Turns the consumer may still make: one for every stored byte, one for reading being up or about
      to go up, one for a late byte, and those three for every byte still to come. */
  ghost function TurnsLeft(cfg: Config, s: State): int {
    3 * (|cfg.source| - |s.fate|) + Stored(s)
    + One(s.ring.reading) + One(s.p.pc == PAnnounce) + One(LateByte(s.c, Stored(s)))
  }

  /** Copies still to make: every stored byte, and every byte still to come, is copied once. */
  ghost function CopiesLeft(cfg: Config, s: State): int {
    |cfg.source| - |s.fate| + Stored(s) - if s.c.pc in {CCopy, CSetHead, CStoreHead} then s.c.copied else 0
  }

  /** With 20 steps for a turn: a bound on the steps, other than spinning ones, that the two threads
      can still make together. */
  ghost function Work(cfg: Config, s: State): int {
    ProducerWork(|cfg.source|, s.p, s.ring.writing) + ConsumerWork(s.c, s.running, s.ring.reading)
    + 20 * TurnsLeft(cfg, s) + CopiesLeft(cfg, s)
  }

  lemma WorkIsNatural(cfg: Config, s: State)
    requires Inv(cfg, s)
    ensures Work(cfg, s) >= 0
  {}

  ghost predicate Turning(cfg: Config, s: State)
    requires Typed(cfg, s)
  {
    SourceInv(cfg, s) && s.running == (s.p.pc != PDone) && |s.delivered| <= |s.accepted|
  }

  /** Spinning leaves the work as it is; every other step of the producer takes some off. */
  lemma ProducerWorks(cfg: Config, s: State)
    requires Typed(cfg, s) && Turning(cfg, s)
    ensures Work(cfg, ProducerStep(cfg, s)) <= Work(cfg, s)
    ensures !Spinning(s, Producing) ==> Work(cfg, ProducerStep(cfg, s)) < Work(cfg, s)
  {
    if InPushLoop(s.p) {
      PushingWorks(cfg, s);
    } else {
      GatingWorks(cfg, s);
    }
  }

  lemma PushingWorks(cfg: Config, s: State)
    requires Typed(cfg, s) && Turning(cfg, s) && InPushLoop(s.p)
    ensures Work(cfg, ProducerStep(cfg, s)) < Work(cfg, s)
  {
    hide ProducerStep, Turning, Work;
    if s.p.pc == PReject {
      RejectingWorks(cfg, s);
    } else if s.p.pc == PPublish {
      PublishingWorks(cfg, s);
    } else if s.p.pc == PAnnounce {
      AnnouncingWorks(cfg, s);
    } else {
      LocalPushWorks(cfg, s);
    }
  }

  lemma RejectingWorks(cfg: Config, s: State)
    requires Typed(cfg, s) && Turning(cfg, s) && s.p.pc == PReject
    ensures Work(cfg, ProducerStep(cfg, s)) < Work(cfg, s)
  {
    hide ConsumerWork, Kept;
  }

  lemma PublishingWorks(cfg: Config, s: State)
    requires Typed(cfg, s) && Turning(cfg, s) && s.p.pc == PPublish
    ensures Work(cfg, ProducerStep(cfg, s)) < Work(cfg, s)
  {
    hide ConsumerWork, Kept;
  }

  lemma AnnouncingWorks(cfg: Config, s: State)
    requires Typed(cfg, s) && Turning(cfg, s) && s.p.pc == PAnnounce
    ensures Work(cfg, ProducerStep(cfg, s)) < Work(cfg, s)
  {
    hide ConsumerWork, Kept;
    RaisingWorks(s.c, s.running, s.ring.reading);
  }

  lemma LocalPushWorks(cfg: Config, s: State)
    requires Typed(cfg, s) && Turning(cfg, s) && s.p.pc in {PLoadTail, PLoadHead, PStore}
    ensures Work(cfg, ProducerStep(cfg, s)) < Work(cfg, s)
  {
    hide ConsumerWork, Kept;
  }

  /** Raising reading gives a waiting consumer one step more than it had. */
  lemma RaisingWorks(c: Consumer, running: bool, reading: bool)
    ensures ConsumerWork(c, running, true) <= ConsumerWork(c, running, reading) + 1
  {}

  lemma GatingWorks(cfg: Config, s: State)
    requires Typed(cfg, s) && Turning(cfg, s) && !InPushLoop(s.p)
    ensures Work(cfg, ProducerStep(cfg, s)) <= Work(cfg, s)
    ensures !Spinning(s, Producing) ==> Work(cfg, ProducerStep(cfg, s)) < Work(cfg, s)
  {
    hide ConsumerStep, Kept;
    var s' := ProducerStep(cfg, s);
    assert s'.c == s.c && s'.ring == s.ring;
    assert s'.delivered == s.delivered && s'.accepted == s.accepted && s'.fate == s.fate;
    assert TurnsLeft(cfg, s') == TurnsLeft(cfg, s) && CopiesLeft(cfg, s') == CopiesLeft(cfg, s);
    assert ConsumerWork(s'.c, s'.running, s'.ring.reading) <= ConsumerWork(s.c, s.running, s.ring.reading);
  }

  lemma ConsumerWorks(cfg: Config, s: State)
    requires Inv(cfg, s)
    ensures Work(cfg, ConsumerStep(cfg, s)) <= Work(cfg, s)
    ensures !Spinning(s, Consuming) ==> Work(cfg, ConsumerStep(cfg, s)) < Work(cfg, s)
  {
    if s.c.pc in {CStoreHead, COpen} {
      ReleasingWorks(cfg, s);
    } else if s.c.pc in {CLoadTail, CClose} {
      EmptyFact(cfg, s);
      ClosingWorks(cfg, s);
    } else if s.c.pc == CSizeTail {
      SizeKeepsConsumer(cfg, s);
      SizingWorks(cfg, s);
    } else if s.c.pc in {CSizeHead, CGetHead, CCopy, CSetHead} {
      CopyingWorks(cfg, s);
    } else {
      LoopingWorks(cfg, s);
    }
  }

  lemma ReleasingWorks(cfg: Config, s: State)
    requires Typed(cfg, s) && ConsumerInv(cfg, s) && s.c.pc in {CStoreHead, COpen}
    ensures Work(cfg, ConsumerStep(cfg, s)) < Work(cfg, s)
  {
    var s' := ConsumerStep(cfg, s);
    assert s'.p == s.p && s'.accepted == s.accepted && s'.fate == s.fate;
    assert s.c.pc == CStoreHead ==> |s'.delivered| == |s.delivered| + s.c.size;
  }

  lemma ClosingWorks(cfg: Config, s: State)
    requires Typed(cfg, s) && ConsumerInv(cfg, s) && s.c.pc in {CLoadTail, CClose}
    requires |s.delivered| <= |s.accepted| && (s.ring.head == s.ring.tail <==> |s.accepted| == |s.delivered|)
    ensures Work(cfg, ConsumerStep(cfg, s)) < Work(cfg, s)
  {}

  lemma SizingWorks(cfg: Config, s: State)
    requires Typed(cfg, s) && s.c.pc == CSizeTail
    requires ConsumerStep(cfg, s).c.size == |s.accepted| - |s.delivered|
    ensures Work(cfg, ConsumerStep(cfg, s)) < Work(cfg, s)
  {}

  lemma CopyingWorks(cfg: Config, s: State)
    requires Typed(cfg, s) && ConsumerInv(cfg, s) && s.c.pc in {CSizeHead, CGetHead, CCopy, CSetHead}
    ensures Work(cfg, ConsumerStep(cfg, s)) < Work(cfg, s)
  {}

  lemma LoopingWorks(cfg: Config, s: State)
    requires Typed(cfg, s) && ConsumerInv(cfg, s) && s.c.pc in {CRun, CGate, CGateSpin, CGateRun, CWrite, CDone}
    ensures Work(cfg, ConsumerStep(cfg, s)) <= Work(cfg, s)
    ensures !Spinning(s, Consuming) ==> Work(cfg, ConsumerStep(cfg, s)) < Work(cfg, s)
  {}

  lemma StepWorks(cfg: Config, s: State, t: Thread)
    requires Inv(cfg, s)
    ensures Work(cfg, Step(cfg, s, t)) <= Work(cfg, s)
    ensures !Spinning(s, t) ==> Work(cfg, Step(cfg, s, t)) < Work(cfg, s)
  {
    match t
    case Producing => ProducerWorks(cfg, s);
    case Consuming => ConsumerWorks(cfg, s);
  }

  /** A thread that has something to do keeps it until it runs: only it can put itself back to spinning. */
  lemma WorkPersists(cfg: Config, s: State, t: Thread, other: Thread)
    requires Typed(cfg, s) && !Spinning(s, t) && other != t
    ensures !Spinning(Step(cfg, s, other), t)
  {
    hide ProducerStep, ConsumerStep;
    ConsumerLeavesProducer(cfg, s);
    ConsumerKeepsWriting(cfg, s);
    ProducerKeepsReading(cfg, s);
  }

  lemma ConsumerKeepsWriting(cfg: Config, s: State)
    requires Typed(cfg, s)
    ensures s.ring.writing ==> ConsumerStep(cfg, s).ring.writing
  {}

  lemma ProducerKeepsReading(cfg: Config, s: State)
    requires Typed(cfg, s)
    ensures var s' := ProducerStep(cfg, s);
            s'.c == s.c && (s.ring.reading ==> s'.ring.reading) && (s'.running ==> s.running)
  {}

  /** Nothing but spinning is left exactly when both threads have returned or both spin forever. */
  lemma OnlySpinningIff(cfg: Config, s: State)
    requires Inv(cfg, s)
    ensures (Spinning(s, Producing) && Spinning(s, Consuming)) <==> (Finished(s) || Stuck(s))
  {}

  lemma {:induction false} WorkNeverGrows(cfg: Config, s: State, schedule: Schedule)
    requires Inv(cfg, s)
    ensures Work(cfg, Run(cfg, s, schedule)) <= Work(cfg, s)
    decreases |schedule|
  {
    if schedule == [] {
    } else {
      StepWorks(cfg, s, schedule[0]);
      StepInv(cfg, s, schedule[0]);
      WorkNeverGrows(cfg, Step(cfg, s, schedule[0]), schedule[1..]);
    }
  }

  lemma {:induction false} RoundWorks(cfg: Config, s: State, t: Thread, round: Schedule)
    requires Inv(cfg, s) && !Spinning(s, t) && t in round
    ensures Work(cfg, Run(cfg, s, round)) < Work(cfg, s)
    decreases |round|
  {
    var s' := Step(cfg, s, round[0]);
    StepWorks(cfg, s, round[0]);
    StepInv(cfg, s, round[0]);
    if round[0] == t {
      WorkNeverGrows(cfg, s', round[1..]);
    } else {
      WorkPersists(cfg, s, t, round[0]);
      RoundWorks(cfg, s', t, round[1..]);
    }
  }

  /** A fair schedule, cut into rounds in each of which both threads run, in any order and however often. */
  ghost predicate FairRounds(rounds: seq<Schedule>) {
    forall round | round in rounds :: Producing in round && Consuming in round
  }

  lemma {:induction false} FinishedForever(cfg: Config, s: State, schedule: Schedule)
    requires Typed(cfg, s) && Finished(s)
    ensures Run(cfg, s, schedule) == s
    decreases |schedule|
  {
    if schedule == [] {
    } else {
      FinishedForever(cfg, s, schedule[1..]);
    }
  }

  lemma {:induction false} RoundsEnd(cfg: Config, s: State, rounds: seq<Schedule>)
    requires Inv(cfg, s) && FairRounds(rounds) && |rounds| > Work(cfg, s)
    ensures var s' := Run(cfg, s, Flatten(rounds)); Finished(s') || Stuck(s')
    decreases |rounds|
  {
    WorkIsNatural(cfg, s);
    OnlySpinningIff(cfg, s);
    if Finished(s) {
      FinishedForever(cfg, s, Flatten(rounds));
    } else if Stuck(s) {
      StuckForever(cfg, s, Flatten(rounds));
    } else {
      var t := if Spinning(s, Producing) then Consuming else Producing;
      assert rounds[0] in rounds;
      RoundWorks(cfg, s, t, rounds[0]);
      RunInv(cfg, s, rounds[0]);
      RunAppend(cfg, s, rounds[0], Flatten(rounds[1..]));
      RoundsEnd(cfg, Run(cfg, s, rounds[0]), rounds[1..]);
    }
  }

  /** How many rounds are enough for a source of `size` bytes. */
  function EnoughRounds(size: nat): nat {
    73 * size + 20
  }

  /** Every fair run ends, after a number of rounds linear in the source: both threads have returned, or
      both spin forever. */
  lemma FairRunsEnd(cfg: Config, rounds: seq<Schedule>)
    requires ValidConfig(cfg) && FairRounds(rounds) && |rounds| >= EnoughRounds(|cfg.source|)
    ensures var s := Outcome(cfg, Flatten(rounds)); Finished(s) || Stuck(s)
  {
    InitInv(cfg);
    assert Work(cfg, Init(cfg)) == 73 * |cfg.source| + 19;
    RoundsEnd(cfg, Init(cfg), rounds);
  }

  /** With a source shorter than the capacity every fair run returns. */
  lemma SmallSourceFairRunsReturn(cfg: Config, rounds: seq<Schedule>)
    requires ValidConfig(cfg) && FairRounds(rounds) && |rounds| >= EnoughRounds(|cfg.source|)
    requires |cfg.source| < cfg.capacity
    ensures Finished(Outcome(cfg, Flatten(rounds)))
  {
    FairRunsEnd(cfg, rounds);
    SmallSourceLosesNothingToRejection(cfg, Flatten(rounds));
  }

  /** A flag is lowered only while the condition it was decided on still holds. */
  ghost predicate FreshStep(cfg: Config, s: State, t: Thread)
    requires Typed(cfg, s)
  {
    && (t == Producing && s.p.pc == PReject ==> Full(s.ring))
    && (t == Consuming && s.c.pc == CClose ==> Size(s.ring) == 0)
  }

  ghost predicate FreshRun(cfg: Config, s: State, schedule: Schedule)
    requires Typed(cfg, s)
    decreases |schedule|
  {
    schedule != [] ==> FreshStep(cfg, s, schedule[0]) && FreshRun(cfg, Step(cfg, s, schedule[0]), schedule[1..])
  }

  /** Reading is down over stored bytes only while the producer is about to raise it, and writing is down over
      free space only while the consumer is about to raise it. */
  ghost predicate FlagInv(s: State)
    requires WellFormed(s.ring)
  {
    && (Size(s.ring) > 0 && !s.ring.reading ==> s.p.pc == PAnnounce)
    && (!Full(s.ring) && !s.ring.writing ==> s.c.pc == COpen)
  }

  lemma FreshProducerKeepsFlags(cfg: Config, s: State)
    requires Inv(cfg, s) && FlagInv(s) && FreshStep(cfg, s, Producing)
    ensures FlagInv(ProducerStep(cfg, s))
  {
    ProducerKeepsRing(cfg, s);
    SizeFact(cfg, s);
    SizeFact(cfg, ProducerStep(cfg, s));
  }

  lemma FreshConsumerKeepsFlags(cfg: Config, s: State)
    requires Typed(cfg, s) && ConsumerInv(cfg, s) && FlagInv(s) && FreshStep(cfg, s, Consuming)
    ensures FlagInv(ConsumerStep(cfg, s))
  {
    hide Size, Full;
    if s.c.pc == CStoreHead {
      ReleaseKeepsFlags(cfg, s);
    } else {
      FlagStoresKeepFlags(cfg, s, ConsumerStep(cfg, s));
    }
  }

  /** Once head has moved the producer may have to be let in, which is what the consumer does next. */
  lemma ReleaseKeepsFlags(cfg: Config, s: State)
    requires Typed(cfg, s) && s.c.pc == CStoreHead && s.ring.reading
    ensures FlagInv(ConsumerStep(cfg, s))
  {
    hide Size, Full;
  }

  lemma FlagStoresKeepFlags(cfg: Config, s: State, s': State)
    requires WellFormed(s.ring) && FlagInv(s) && s'.p == s.p
    requires s'.ring == s.ring.(writing := s'.ring.writing, reading := s'.ring.reading)
    requires s.ring.reading && !s'.ring.reading ==> Size(s.ring) == 0
    requires s'.ring.writing == (s.ring.writing || s.c.pc == COpen)
    ensures FlagInv(s')
  {}

  lemma {:induction false} FreshRunKeepsFlags(cfg: Config, s: State, schedule: Schedule)
    requires Inv(cfg, s) && FlagInv(s) && FreshRun(cfg, s, schedule)
    ensures FlagInv(Run(cfg, s, schedule))
    decreases |schedule|
  {
    if schedule == [] {
    } else {
      match schedule[0] {
        case Producing => FreshProducerKeepsFlags(cfg, s);
        case Consuming => FreshConsumerKeepsFlags(cfg, s);
      }
      StepInv(cfg, s, schedule[0]);
      FreshRunKeepsFlags(cfg, Step(cfg, s, schedule[0]), schedule[1..]);
    }
  }

  /** Neither thread is inside one of the ring's methods. */
  ghost predicate OutsideRing(s: State) {
    && s.p.pc !in {PLoadHead, PReject, PStore, PPublish, PAnnounce}
    && s.c.pc !in {CSizeHead, CSizeTail, CGetHead, CCopy, CSetHead, CStoreHead, COpen, CLoadTail, CClose}
  }

  /** No lost wake-up without a stale store: if every lowering of a flag happens while its condition still
      holds, the two flags are never both down with both threads outside the ring, for capacity at least 2. */
  lemma NoLostWakeUp(cfg: Config, schedule: Schedule)
    requires ValidConfig(cfg) && cfg.capacity >= 2
    requires FreshRun(cfg, Init(cfg), schedule)
    ensures var s := Outcome(cfg, schedule);
            && (OutsideRing(s) ==> s.ring.writing || s.ring.reading)
            && !Stuck(s)
  {
    InitInv(cfg);
    FreshRunKeepsFlags(cfg, Init(cfg), schedule);
  }

  /** So without stale stores every fair run returns, whatever the size of the source. */
  lemma FreshFairRunsReturn(cfg: Config, rounds: seq<Schedule>)
    requires ValidConfig(cfg) && cfg.capacity >= 2
    requires FairRounds(rounds) && |rounds| >= EnoughRounds(|cfg.source|)
    requires FreshRun(cfg, Init(cfg), Flatten(rounds))
    ensures Finished(Outcome(cfg, Flatten(rounds)))
  {
    FairRunsEnd(cfg, rounds);
    NoLostWakeUp(cfg, Flatten(rounds));
  }
}
