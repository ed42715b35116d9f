/** Every fair run of the two processes settles: both return, or the last chunk is abandoned. */
module HandoffLiveness {
  import opened Bytes
  import opened Handoff
  import opened HandoffFile

  /** The first stop token has not been posted yet. */
  ghost predicate NoStopYet(s: State) {
    s.stop == 0 && s.r != RDone
  }

  ghost predicate Spinning(s: State, p: Process) {
    match p
    case Writer =>
      || s.w == WDone
      || (s.space == 0 && (s.w == WSpace || (s.w in {WPostStop, WTrySpace} && !NoStopYet(s))))
    case Reader => s.r == RDone || (s.r in {RTryStop, RTryData} && s.data == 0 && s.stop == 0)
  }

  ghost function WriterWork(left: int, s: State): int {
    match s.w
    case WFile => 22 * left + 4
    case WSpace => 22 * left + 21 + 2 * |s.chunk|
    case WResize => 22 * left + 20 + 2 * |s.chunk|
    case WCopy => 22 * left + 19 + 2 * |s.chunk| - s.filled
    case WData => 22 * left + 17 + |s.slot|
    case WPostStop => if NoStopYet(s) then 3 else 2
    case WTrySpace => if s.space > 0 then 1 else 2
    case WDone => 0
  }

  ghost function ReaderWork(s: State): int {
    match s.r
    case RTryStop => if s.stop > 0 then 1 else 4
    case RTryData => if s.stop > 0 then 2 else if s.data > 0 then 3 else 4
    case RTake => 10 + |s.slot|
    case RSpace => 9 + s.view
    case RWrite => 8 + s.view - s.viewed
    case RDone => 0
  }

  /** A bound on the steps, other than spinning ones, that the two processes can still make together. A chunk posted
      and not yet taken stands for the steps its reading takes. */
  ghost function Work(cfg: Config, s: State): int {
    WriterWork(|cfg.source| - s.pos, s) + ReaderWork(s) + if s.data > 0 then 10 + |s.slot| else 0
  }

  /** What the measure needs: one token, and counters that do not run past their ends. */
  ghost predicate Counting(cfg: Config, s: State) {
    && Typed(cfg, s) && OneToken(s)
    && (s.r == RSpace ==> s.viewed == 0)
    && (s.r == RWrite ==> s.viewed <= s.view)
    && (s.w in {WSpace, WResize, WCopy} ==> s.chunk != [])
    && (s.w in {WPostStop, WTrySpace, WDone} ==> s.pos == |cfg.source|)
    && StopInv(s)
  }

  lemma WriterWorks(cfg: Config, s: State)
    requires Counting(cfg, s)
    ensures Work(cfg, WriterStep(cfg, s)) <= Work(cfg, s)
    ensures !Spinning(s, Writer) ==> Work(cfg, WriterStep(cfg, s)) < Work(cfg, s)
  {
    if s.w in {WResize, WCopy, WData} {
      FillingWorks(cfg, s);
    } else {
      WaitingWorks(cfg, s);
    }
  }

  lemma FillingWorks(cfg: Config, s: State)
    requires Counting(cfg, s) && s.w in {WResize, WCopy, WData}
    ensures Work(cfg, WriterStep(cfg, s)) < Work(cfg, s)
  {
    hide StopInv;
    assert s.data == 0 && s.r != RTake;
  }

  lemma WaitingWorks(cfg: Config, s: State)
    requires Counting(cfg, s) && s.w !in {WResize, WCopy, WData}
    ensures Work(cfg, WriterStep(cfg, s)) <= Work(cfg, s)
    ensures !Spinning(s, Writer) ==> Work(cfg, WriterStep(cfg, s)) < Work(cfg, s)
  {
    hide ReaderWork;
    ReaderWaits(s, WriterStep(cfg, s));
  }

  /** Nor does what the writer does while the slot is not posted give the reader more to do. */
  lemma ReaderWaits(s: State, s': State)
    requires s'.r == s.r && s'.view == s.view && s'.viewed == s.viewed && s'.data == s.data
    requires s'.stop >= s.stop && (s.r == RTake ==> s'.slot == s.slot)
    ensures ReaderWork(s') <= ReaderWork(s)
  {}

  lemma ReaderWorks(cfg: Config, s: State)
    requires Counting(cfg, s)
    ensures Work(cfg, ReaderStep(cfg, s)) <= Work(cfg, s)
    ensures !Spinning(s, Reader) ==> Work(cfg, ReaderStep(cfg, s)) < Work(cfg, s)
  {
    if s.r in {RTryStop, RTryData} {
      TryingWorks(cfg, s);
    } else if s.r != RDone {
      ReadingWorks(cfg, s);
    }
  }

  lemma TryingWorks(cfg: Config, s: State)
    requires Counting(cfg, s) && s.r in {RTryStop, RTryData}
    ensures Work(cfg, ReaderStep(cfg, s)) <= Work(cfg, s)
    ensures !Spinning(s, Reader) ==> Work(cfg, ReaderStep(cfg, s)) < Work(cfg, s)
  {
    hide StopInv, WriterWork;
    WriterWaits(|cfg.source| - s.pos, s, ReaderStep(cfg, s));
  }

  lemma ReadingWorks(cfg: Config, s: State)
    requires Counting(cfg, s) && s.r in {RTake, RSpace, RWrite}
    ensures Work(cfg, ReaderStep(cfg, s)) < Work(cfg, s)
  {
    hide StopInv, WriterWork;
    WriterWaits(|cfg.source| - s.pos, s, ReaderStep(cfg, s));
  }

  /** Nothing the reader does gives the writer more to do. */
  lemma WriterWaits(left: int, s: State, s': State)
    requires s'.w == s.w && s'.chunk == s.chunk && s'.filled == s.filled && s'.slot == s.slot
    requires s'.space >= s.space && (NoStopYet(s') ==> NoStopYet(s))
    ensures WriterWork(left, s') <= WriterWork(left, s)
  {}

  /** What all steps keep, and the measure builds on. */
  ghost predicate Sound(cfg: Config, s: State) {
    Inv(cfg, s) && (s.r == RSpace ==> s.viewed == 0) && (s.r == RWrite ==> s.viewed <= s.view)
  }

  lemma StepSound(cfg: Config, s: State, p: Process)
    requires Sound(cfg, s)
    ensures Sound(cfg, Step(cfg, s, p))
  {
    hide WriterStep, OneToken, SlotInv, FileInv, StopInv;
    StepInv(cfg, s, p);
    if p == Writer {
      WriterLeavesView(cfg, s);
    }
  }

  lemma WriterLeavesView(cfg: Config, s: State)
    requires Typed(cfg, s)
    ensures var s' := WriterStep(cfg, s); s'.r == s.r && s'.view == s.view && s'.viewed == s.viewed
  {}

  lemma SoundCounts(cfg: Config, s: State)
    requires Sound(cfg, s)
    ensures Counting(cfg, s)
    ensures Work(cfg, s) >= 0
  {}

  lemma StepWorks(cfg: Config, s: State, p: Process)
    requires Sound(cfg, s)
    ensures Work(cfg, Step(cfg, s, p)) <= Work(cfg, s)
    ensures !Spinning(s, p) ==> Work(cfg, Step(cfg, s, p)) < Work(cfg, s)
  {
    hide Work, WriterStep, ReaderStep, Counting, Spinning;
    SoundCounts(cfg, s);
    assert Typed(cfg, s);
    match p
    case Writer => WriterWorks(cfg, s);
    case Reader => ReaderWorks(cfg, s);
  }

  /** A process that has something to do keeps it until it runs. */
  lemma WorkPersists(cfg: Config, s: State, p: Process, other: Process)
    requires Typed(cfg, s) && StopInv(s) && !Spinning(s, p) && other != p
    ensures !Spinning(Step(cfg, s, other), p)
  {}

  /** Nothing but spinning is left exactly when both processes have returned or the last chunk was abandoned. */
  lemma OnlySpinningIff(cfg: Config, s: State)
    requires Inv(cfg, s)
    ensures (Spinning(s, Writer) && Spinning(s, Reader)) <==> (Returned(s) || Abandoned(s))
  {
    hide FileInv, WriterStep, ReaderStep;
  }

  lemma {:induction false} WorkNeverGrows(cfg: Config, s: State, schedule: Schedule)
    requires Sound(cfg, s)
    ensures Sound(cfg, Run(cfg, s, schedule)) && Work(cfg, Run(cfg, s, schedule)) <= Work(cfg, s)
    decreases |schedule|
  {
    hide Work, Step, OneToken, SlotInv, FileInv, StopInv;
    if schedule == [] {
    } else {
      StepWorks(cfg, s, schedule[0]);
      StepSound(cfg, s, schedule[0]);
      WorkNeverGrows(cfg, Step(cfg, s, schedule[0]), schedule[1..]);
    }
  }

  lemma {:induction false} RoundWorks(cfg: Config, s: State, p: Process, round: Schedule)
    requires Sound(cfg, s) && !Spinning(s, p) && p in round
    ensures Work(cfg, Run(cfg, s, round)) < Work(cfg, s)
    decreases |round|
  {
    hide Work, Step, Spinning, OneToken, SlotInv, FileInv, StopInv;
    var s' := Step(cfg, s, round[0]);
    StepWorks(cfg, s, round[0]);
    StepSound(cfg, s, round[0]);
    if round[0] == p {
      WorkNeverGrows(cfg, s', round[1..]);
    } else {
      WorkPersists(cfg, s, p, round[0]);
      RoundWorks(cfg, s', p, round[1..]);
    }
  }

  /** A fair schedule, cut into rounds in each of which both processes run, in any order and however often. */
  ghost predicate FairRounds(rounds: seq<Schedule>) {
    forall round | round in rounds :: Writer in round && Reader in round
  }

  lemma {:induction false} ReturnedForever(cfg: Config, s: State, schedule: Schedule)
    requires Typed(cfg, s) && Returned(s)
    ensures Run(cfg, s, schedule) == s
    decreases |schedule|
  {
    if schedule == [] {
    } else {
      ReturnedForever(cfg, s, schedule[1..]);
    }
  }

  lemma {:induction false} RoundsEnd(cfg: Config, s: State, rounds: seq<Schedule>)
    requires Sound(cfg, s) && FairRounds(rounds) && |rounds| > Work(cfg, s)
    ensures var s' := Run(cfg, s, Flatten(rounds)); Returned(s') || Abandoned(s')
    decreases |rounds|
  {
    hide Run, Work, Spinning, OneToken, SlotInv, FileInv, StopInv;
    SoundCounts(cfg, s);
    OnlySpinningIff(cfg, s);
    if Returned(s) {
      ReturnedForever(cfg, s, Flatten(rounds));
    } else if Abandoned(s) {
      AbandonedForever(cfg, s, Flatten(rounds));
    } else {
      var p := if Spinning(s, Writer) then Reader else Writer;
      assert rounds[0] in rounds;
      RoundWorks(cfg, s, p, rounds[0]);
      WorkNeverGrows(cfg, s, rounds[0]);
      RunAppend(cfg, s, rounds[0], Flatten(rounds[1..]));
      RoundsEnd(cfg, Run(cfg, s, rounds[0]), rounds[1..]);
    }
  }

  /** The two ways a run can settle, and what has been handed over and written to the file by then. */
  ghost predicate Settled(cfg: Config, s: State) {
    || (Returned(s) && s.handed == AllChunks(cfg) && |s.output| == |cfg.source|
        && (!s.disturbed ==> s.output == cfg.source))
    || (Abandoned(s) && s.handed + [s.slot] == AllChunks(cfg)
        && (!s.disturbed ==> s.output + s.slot == cfg.source))
  }

  /** Every fair run settles, after a number of rounds linear in the source. Either both processes have returned and
      every chunk was handed over, or all but the last one were and the writer posts stop tokens forever; and the file
      is what was handed over, unless the slot was changed under a view. */
  lemma FairRunsSettle(cfg: Config, rounds: seq<Schedule>)
    requires ValidConfig(cfg) && FairRounds(rounds) && |rounds| >= 22 * |cfg.source| + 9
    ensures Settled(cfg, Outcome(cfg, Flatten(rounds)))
  {
    hide Run, Step;
    InitInv(cfg);
    assert Work(cfg, Init()) == 22 * |cfg.source| + 8;
    RoundsEnd(cfg, Init(), rounds);
    SettledFile(cfg, Flatten(rounds));
  }

  lemma SettledFile(cfg: Config, schedule: Schedule)
    requires ValidConfig(cfg)
    requires var s := Outcome(cfg, schedule); Returned(s) || Abandoned(s)
    ensures Settled(cfg, Outcome(cfg, schedule))
  {
    hide Run, Step, AllChunks, Flatten;
    var s := Outcome(cfg, schedule);
    FileBytes(cfg, schedule);
    HandOver(cfg, schedule);
    if !s.disturbed {
      UndisturbedFile(cfg, schedule);
    }
    if Returned(s) {
      StopReturnsDelivered(cfg, schedule);
    } else {
      AbandonedLosesLastChunk(cfg, schedule);
      FlattenSnoc(s.handed, s.slot);
      FrontOfFile(cfg, AllChunks(cfg));
    }
  }

  // ---- The reader's last steps ----

  /** Steps the reader still takes once every chunk has been handed over and a stop token posted. */
  ghost function StepsLeft(s: State): int {
    match s.r
    case RTryStop => 1
    case RTryData => 2
    case RTake => 0
    case RSpace => s.view - s.viewed + 3
    case RWrite => s.view - s.viewed + 2
    case RDone => 0
  }

  lemma LastStep(cfg: Config, s: State)
    requires Sound(cfg, s) && s.w == WDone && s.r != RDone
    ensures var s' := Step(cfg, s, Reader);
            s'.w == WDone && s'.disturbed == s.disturbed && 0 <= StepsLeft(s') < StepsLeft(s)
  {
    hide SlotInv, FileInv;
  }

  lemma {:induction false} ReaderAlone(cfg: Config, s: State, n: nat)
    requires Sound(cfg, s) && s.w == WDone && n >= StepsLeft(s)
    ensures var s' := Run(cfg, s, seq(n, _ => Reader)); Returned(s') && s'.disturbed == s.disturbed
    decreases n
  {
    hide Step, OneToken, SlotInv, FileInv, StopInv, StepsLeft;
    var schedule := seq(n, _ => Reader);
    if s.r == RDone {
      ReturnedForever(cfg, s, schedule);
    } else {
      LastStep(cfg, s);
      StepSound(cfg, s, Reader);
      assert schedule[1..] == seq(n - 1, _ => Reader);
      ReaderAlone(cfg, Step(cfg, s, Reader), n - 1);
    }
  }

  /** When the writer's `Stop` has returned, the reader alone finishes, within as many steps as its view has bytes
      left and two more. Nothing can disturb the view by then, so a file not disturbed before is whole. */
  lemma ReaderFinishes(cfg: Config, schedule: Schedule, n: nat)
    requires ValidConfig(cfg) && Outcome(cfg, schedule).w == WDone
    requires var s := Outcome(cfg, schedule); n >= (if s.r == RWrite then s.view - s.viewed else 0) + 2
    ensures var s, s' := Outcome(cfg, schedule), Outcome(cfg, schedule + seq(n, _ => Reader));
            && Returned(s') && |s'.output| == |cfg.source|
            && (!s.disturbed ==> s'.output == cfg.source)
  {
    hide Run, Step;
    var s := Outcome(cfg, schedule);
    InitInv(cfg);
    WorkNeverGrows(cfg, Init(), schedule);
    AllWritten(cfg, s);
    ReaderAlone(cfg, s, n);
    RunAppend(cfg, Init(), schedule, seq(n, _ => Reader));
    StopReturnsDelivered(cfg, schedule + seq(n, _ => Reader));
    SettledFile(cfg, schedule + seq(n, _ => Reader));
  }
}
