/** The coarse view: a whole `CircularBuffer::Write` or `BufferReader::Read` as one move. It is not another
    machine but the schedules in which nobody is interrupted inside the ring, so all that holds of every
    schedule holds here; and here the flags mean what they say. */
module ThreadCoarse {
  import opened Bytes
  import opened Ring
  import opened Threads
  import opened ThreadSafety
  import opened ThreadLiveness
  import opened ThreadTurns

  /** The steps of one coarse move of thread `t`. */
  ghost function Move(cfg: Config, s: State, t: Thread): (steps: Schedule)
    requires Typed(cfg, s)
    ensures t in steps
  {
    if t == Producing && AtPush(s) then Times(Producing, WriteSteps(s))
    else if t == Consuming && s.c.pc == CSizeHead then Times(Consuming, ReadSteps(s))
    else Times(t, 1)
  }

  ghost function AfterMove(cfg: Config, s: State, t: Thread): (s': State)
    requires Typed(cfg, s)
    ensures Typed(cfg, s')
  {
    Run(cfg, s, Move(cfg, s, t))
  }

  /** The fine schedule a sequence of coarse moves stands for. */
  ghost function Expand(cfg: Config, s: State, moves: Schedule): Schedule
    requires Typed(cfg, s)
    decreases |moves|
  {
    if moves == [] then []
    else Move(cfg, s, moves[0]) + Expand(cfg, AfterMove(cfg, s, moves[0]), moves[1..])
  }

  /** Between moves nobody is inside the ring, reading is enabled exactly when something is stored, and
      writing is disabled only when the ring is full. */
  ghost predicate Coarse(s: State)
    requires WellFormed(s.ring)
  {
    && s.p.pc in {PRead, PGate, PGateSpin, PGateRun, PLoadTail, PStop, PStopStore, PDone}
    && s.c.pc in {CRun, CGate, CGateSpin, CGateRun, CSizeHead, CWrite, CDone}
    && (s.ring.reading <==> Contents(s.ring) != [])
    && (!s.ring.writing ==> |Contents(s.ring)| == |s.ring.data| - 1)
  }

  lemma InitCoarse(cfg: Config)
    requires ValidConfig(cfg)
    ensures Coarse(Init(cfg))
  {}

  lemma MoveKeepsCoarse(cfg: Config, s: State, t: Thread)
    requires Typed(cfg, s) && Inv(cfg, s) && Coarse(s)
    ensures Coarse(AfterMove(cfg, s, t))
  {
    hide Run, ProducerStep, ConsumerStep, RingInv, ProducerInv, ConsumerInv, SourceInv, ChunkInv;
    if t == Producing && AtPush(s) {
      PushKeepsCoarse(cfg, s);
    } else if t == Consuming && s.c.pc == CSizeHead {
      PullKeepsCoarse(cfg, s);
    } else {
      assert Times(t, 1) == [t];
      RunOne(cfg, s, t);
      SmallMoveKeepsCoarse(cfg, s, t);
    }
  }

  lemma PushKeepsCoarse(cfg: Config, s: State)
    requires Typed(cfg, s) && Coarse(s) && AtPush(s)
    ensures Coarse(Run(cfg, s, Times(Producing, WriteSteps(s))))
  {
    hide Run, ProducerStep, ConsumerStep, WriteByte;
    WriteTurn(cfg, s);
    WriteIsBoundedPush(s.ring, s.p.chunk[s.p.i]);
  }

  lemma PullKeepsCoarse(cfg: Config, s: State)
    requires Typed(cfg, s) && Inv(cfg, s) && Coarse(s) && s.c.pc == CSizeHead
    ensures Coarse(Run(cfg, s, Times(Consuming, ReadSteps(s))))
  {
    hide Run, ProducerStep, ConsumerStep, AdvanceHead, RingInv, ProducerInv, ConsumerInv, SourceInv, ChunkInv;
    ReadTurn(cfg, s);
    AdvanceIsDrop(s.ring, Size(s.ring));
  }

  lemma SmallMoveKeepsCoarse(cfg: Config, s: State, t: Thread)
    requires Typed(cfg, s) && Coarse(s)
    requires !(t == Producing && AtPush(s)) && !(t == Consuming && s.c.pc == CSizeHead)
    ensures Coarse(Step(cfg, s, t))
  {}

  lemma {:induction false} MovesKeepCoarse(cfg: Config, s: State, moves: Schedule)
    requires Typed(cfg, s) && Inv(cfg, s) && Coarse(s)
    ensures var s' := Run(cfg, s, Expand(cfg, s, moves));
            Typed(cfg, s') && Inv(cfg, s') && Coarse(s')
    decreases |moves|
  {
    hide Run, ProducerStep, ConsumerStep, RingInv, ProducerInv, ConsumerInv, SourceInv, ChunkInv, Coarse;
    if moves == [] {
      RunNothing(cfg, s);
    } else {
      var s1 := AfterMove(cfg, s, moves[0]);
      MoveKeepsCoarse(cfg, s, moves[0]);
      RunInv(cfg, s, Move(cfg, s, moves[0]));
      RunAppend(cfg, s, Move(cfg, s, moves[0]), Expand(cfg, s1, moves[1..]));
      MovesKeepCoarse(cfg, s1, moves[1..]);
    }
  }

  lemma RunNothing(cfg: Config, s: State)
    requires Typed(cfg, s)
    ensures Run(cfg, s, []) == s
  {}

  /** Flag meaning, after any sequence of uninterrupted moves; and for capacity at least 2 the two flags are
      never down together. */
  lemma FlagMeaning(cfg: Config, moves: Schedule)
    requires ValidConfig(cfg)
    ensures var s := Outcome(cfg, Expand(cfg, Init(cfg), moves));
            && (s.ring.reading <==> Contents(s.ring) != [])
            && (!s.ring.writing ==> |Contents(s.ring)| == cfg.capacity - 1)
            && (cfg.capacity >= 2 ==> s.ring.reading || s.ring.writing)
            && (cfg.capacity >= 2 ==> !Stuck(s))
  {
    hide Run, ProducerStep, ConsumerStep;
    InitInv(cfg);
    InitCoarse(cfg);
    MovesKeepCoarse(cfg, Init(cfg), moves);
  }

  /** Expanding coarse rounds gives fair fine rounds. */
  ghost function ExpandRounds(cfg: Config, s: State, rounds: seq<Schedule>): seq<Schedule>
    requires Typed(cfg, s)
    decreases |rounds|
  {
    if rounds == [] then []
    else
      var steps := Expand(cfg, s, rounds[0]);
      [steps] + ExpandRounds(cfg, Run(cfg, s, steps), rounds[1..])
  }

  lemma {:induction false} ExpandAppend(cfg: Config, s: State, a: Schedule, b: Schedule)
    requires Typed(cfg, s)
    ensures Expand(cfg, s, a + b) == Expand(cfg, s, a) + Expand(cfg, Run(cfg, s, Expand(cfg, s, a)), b)
    decreases |a|
  {
    hide Run, Step, ProducerStep, ConsumerStep, Move;
    if a == [] {
      assert a + b == b;
      RunNothing(cfg, s);
    } else {
      var s1 := AfterMove(cfg, s, a[0]);
      assert (a + b)[0] == a[0] && (a + b)[1..] == a[1..] + b;
      ExpandAppend(cfg, s1, a[1..], b);
      RunAppend(cfg, s, Move(cfg, s, a[0]), Expand(cfg, s1, a[1..]));
    }
  }

  lemma {:induction false} ExpandKeepsThread(cfg: Config, s: State, moves: Schedule, t: Thread)
    requires Typed(cfg, s) && t in moves
    ensures t in Expand(cfg, s, moves)
    decreases |moves|
  {
    hide Run, Step, ProducerStep, ConsumerStep, Move;
    if moves[0] != t {
      ExpandKeepsThread(cfg, AfterMove(cfg, s, moves[0]), moves[1..], t);
    }
  }

  lemma {:induction false} RoundsExpand(cfg: Config, s: State, rounds: seq<Schedule>)
    requires Typed(cfg, s) && FairRounds(rounds)
    ensures var fine := ExpandRounds(cfg, s, rounds);
            && |fine| == |rounds| && FairRounds(fine)
            && Flatten(fine) == Expand(cfg, s, Flatten(rounds))
    decreases |rounds|
  {
    hide Run, Step, ProducerStep, ConsumerStep, Move, AfterMove;
    if rounds == [] {
    } else {
      var steps := Expand(cfg, s, rounds[0]);
      var s1 := Run(cfg, s, steps);
      assert rounds[0] in rounds;
      ExpandKeepsThread(cfg, s, rounds[0], Producing);
      ExpandKeepsThread(cfg, s, rounds[0], Consuming);
      RoundsExpand(cfg, s1, rounds[1..]);
      ExpandAppend(cfg, s, rounds[0], Flatten(rounds[1..]));
      var fine := ExpandRounds(cfg, s, rounds);
      assert fine[0] == steps && fine[1..] == ExpandRounds(cfg, s1, rounds[1..]);
    }
  }

  /** With uninterrupted moves and capacity at least 2, every fair run returns, whatever the source. */
  lemma CoarseFairRunsReturn(cfg: Config, rounds: seq<Schedule>)
    requires ValidConfig(cfg) && cfg.capacity >= 2
    requires FairRounds(rounds) && |rounds| >= EnoughRounds(|cfg.source|)
    ensures Finished(Outcome(cfg, Expand(cfg, Init(cfg), Flatten(rounds))))
  {
    hide Run, ProducerStep, ConsumerStep;
    RoundsExpand(cfg, Init(cfg), rounds);
    FairRunsEnd(cfg, ExpandRounds(cfg, Init(cfg), rounds));
    FlagMeaning(cfg, Flatten(rounds));
  }
}
