/** The multi-process transport: one shared-memory slot handed over through three counting semaphores.
    Each step is one semaphore operation, one read of the source or one byte moved into or out of the slot;
    all interleavings are schedules. */
module Handoff {
  import opened Bytes
  import opened Modular
  import opened SharedMemory
  import Chunking

  datatype Config = Config(source: seq<byte>, chunkSize: nat)

  ghost predicate ValidConfig(cfg: Config) {
    cfg.chunkSize > 0
  }

  /** The chunks of the source. */
  function AllChunks(cfg: Config): seq<seq<byte>> {
    Chunking.Chunks(cfg.source, 0, cfg.chunkSize)
  }

  datatype Process = Writer | Reader

  /** Program points of `FileDataTransferTask::Run` over `SharedWriteDataAccess`. */
  datatype WriterPc =
    | WFile       // read the next chunk of the file
    | WSpace      // wait for space
    | WResize     // resize the slot to the chunk
    | WCopy       // copy the next byte of the chunk into the slot, if any
    | WData       // post data
    | WPostStop   // post stop
    | WTrySpace   // try to take space back
    | WDone

  /** Program points of `BufferTransferTask::Run` over `SharedReadDataAccess`. */
  datatype ReaderPc =
    | RTryStop    // try to take a stop token
    | RTryData    // try to take data
    | RTake       // map the slot and take a view of it
    | RSpace      // post space
    | RWrite      // write the next byte the view shows to the output file, if any
    | RDone

  /** `view` is the size of the reader's span over the slot, `viewed` how much of it has been written out.
      The last four record history: the chunks put into the slot, the slot's contents at each `Read`, what the
      file got out of each `Read`, and whether the slot ever changed under a view still in use. */
  datatype State = State(
    space: nat, data: nat, stop: nat, slot: seq<byte>,
    w: WriterPc, pos: nat, chunk: seq<byte>, filled: nat,
    r: ReaderPc, view: nat, viewed: nat, output: seq<byte>,
    written: seq<seq<byte>>, handed: seq<seq<byte>>, pieces: seq<seq<byte>>, disturbed: bool)

  /** Fresh semaphores: one space, no data, no stop. */
  function Init(): State {
    State(1, 0, 0, [], WFile, 0, [], 0, RTryStop, 0, 0, [], [], [], [], false)
  }

  /** Local variables are in range; what the step functions need to be defined. */
  ghost predicate Typed(cfg: Config, s: State) {
    && ValidConfig(cfg)
    && s.pos <= |cfg.source|
    && (s.w == WCopy ==> s.filled <= |s.chunk| == |s.slot|)
    && (s.r in {RSpace, RWrite} ==> s.pieces != [])
  }

  /** The reader is still writing out its view. */
  predicate Viewing(s: State) {
    s.r == RWrite && s.viewed < s.view
  }

  /** A writer that must wait for space stays where it is. */
  function WriterStep(cfg: Config, s: State): (s': State)
    requires Typed(cfg, s)
    ensures Typed(cfg, s')
  {
    match s.w
    case WFile =>
      var chunk := Chunking.NextChunk(cfg.source, s.pos, cfg.chunkSize);
      if chunk == [] then s.(w := WPostStop)
      else s.(w := WSpace, chunk := chunk, pos := s.pos + |chunk|)
    case WSpace => if s.space > 0 then s.(w := WResize, space := s.space - 1) else s
    case WResize =>
      s.(w := WCopy, slot := Resized(s.slot, |s.chunk|), filled := 0, disturbed := s.disturbed || Viewing(s))
    case WCopy =>
      if s.filled < |s.chunk| then
        s.(slot := s.slot[s.filled := s.chunk[s.filled]], filled := s.filled + 1,
           disturbed := s.disturbed || Viewing(s))
      else s.(w := WData, written := s.written + [s.chunk])
    case WData => s.(w := WFile, data := s.data + 1)
    case WPostStop => s.(w := WTrySpace, stop := s.stop + 1)
    case WTrySpace => if s.space > 0 then s.(w := WDone, space := s.space - 1) else s.(w := WPostStop)
    case WDone => s
  }

  function ReaderStep(cfg: Config, s: State): (s': State)
    requires Typed(cfg, s)
    ensures Typed(cfg, s')
  {
    match s.r
    case RTryStop => if s.stop > 0 then s.(r := RDone, stop := s.stop - 1) else s.(r := RTryData)
    case RTryData => if s.data > 0 then s.(r := RTake, data := s.data - 1) else s.(r := RTryStop)
    case RTake =>
      s.(r := RSpace, view := |s.slot|, viewed := 0, handed := s.handed + [s.slot], pieces := s.pieces + [[]])
    case RSpace => s.(r := RWrite, space := s.space + 1)
    case RWrite =>
      if s.viewed < s.view then
        var b, n := ByteAt(s.slot, s.viewed), |s.pieces| - 1;
        s.(output := s.output + [b], viewed := s.viewed + 1, pieces := s.pieces[n := s.pieces[n] + [b]])
      else s.(r := RTryStop)
    case RDone => s
  }

  function Step(cfg: Config, s: State, p: Process): (s': State)
    requires Typed(cfg, s)
    ensures Typed(cfg, s')
  {
    match p
    case Writer => WriterStep(cfg, s)
    case Reader => ReaderStep(cfg, s)
  }

  type Schedule = seq<Process>

  /** The state a schedule leads to. */
  function Run(cfg: Config, s: State, schedule: Schedule): (s': State)
    requires Typed(cfg, s)
    ensures Typed(cfg, s')
    decreases |schedule|
  {
    if schedule == [] then s else Run(cfg, Step(cfg, s, schedule[0]), schedule[1..])
  }

  /** The state a schedule leads to from the start. */
  function Outcome(cfg: Config, schedule: Schedule): (s: State)
    requires ValidConfig(cfg)
    ensures Typed(cfg, s)
  {
    Run(cfg, Init(), schedule)
  }

  lemma {:induction false} RunAppend(cfg: Config, s: State, a: Schedule, b: Schedule)
    requires Typed(cfg, s)
    ensures Run(cfg, s, a + b) == Run(cfg, Run(cfg, s, a), b)
    decreases |a|
  {
    if a == [] {
      assert a + b == b;
    } else {
      assert (a + b)[1..] == a[1..] + b;
      RunAppend(cfg, Step(cfg, s, a[0]), a[1..], b);
    }
  }

  // ---- What every step keeps ----

  ghost predicate WriterHolds(s: State) {
    s.w in {WResize, WCopy, WData}
  }

  ghost predicate ReaderHolds(s: State) {
    s.r in {RTake, RSpace}
  }

  /** Token conservation: the one right to use the slot is in exactly one place. */
  ghost predicate OneToken(s: State) {
    s.space + s.data + One(WriterHolds(s)) + One(ReaderHolds(s)) + One(s.w == WDone) == 1
  }

  /** A chunk has been put into the slot and not yet been taken out. */
  ghost predicate Pending(s: State) {
    s.w == WData || s.data == 1 || s.r == RTake
  }

  /** The pending chunk is in the slot, and everything else written has been handed over, once each, in order. */
  ghost predicate SlotInv(s: State) {
    && s.written == s.handed + (if Pending(s) then [s.slot] else [])
    && (s.w == WCopy ==> s.filled <= |s.chunk| == |s.slot| && s.slot[..s.filled] == s.chunk[..s.filled])
    && (s.r == RSpace ==> s.handed != [] && s.slot == s.handed[|s.handed| - 1] && s.view == |s.slot|)
  }

  /** What was written is the file up to the writer's position, cut into chunks. */
  ghost predicate FileInv(cfg: Config, s: State) {
    && s.pos <= |cfg.source|
    && s.written + (if s.w in {WSpace, WResize, WCopy} then [s.chunk] else [])
       + Chunking.Chunks(cfg.source, s.pos, cfg.chunkSize) == AllChunks(cfg)
    && (s.w in {WSpace, WResize, WCopy} ==> s.chunk != [])
    && (s.w in {WPostStop, WTrySpace, WDone} ==> s.pos == |cfg.source|)
  }

  /** Stop tokens come last, and the reader returns only on one. */
  ghost predicate StopInv(s: State) {
    && (s.w in {WFile, WSpace, WResize, WCopy, WData} ==> s.stop == 0 && s.r != RDone)
    && (s.w in {WTrySpace, WDone} ==> s.stop > 0 || s.r == RDone)
  }

  ghost predicate Inv(cfg: Config, s: State) {
    Typed(cfg, s) && OneToken(s) && SlotInv(s) && FileInv(cfg, s) && StopInv(s)
  }

  lemma InitInv(cfg: Config)
    requires ValidConfig(cfg)
    ensures Inv(cfg, Init())
  {}

  lemma WriterKeepsFile(cfg: Config, s: State)
    requires Typed(cfg, s) && FileInv(cfg, s)
    ensures FileInv(cfg, WriterStep(cfg, s))
  {
    hide AllChunks, ReaderStep;
    if s.w != WFile {
      hide Chunking.Chunks;
    }
  }

  lemma ReaderKeepsFile(cfg: Config, s: State)
    requires Typed(cfg, s) && FileInv(cfg, s)
    ensures FileInv(cfg, ReaderStep(cfg, s))
  {
    hide AllChunks, Chunking.Chunks, WriterStep;
  }

  lemma WriterKeepsToken(cfg: Config, s: State)
    requires Typed(cfg, s) && OneToken(s)
    ensures OneToken(WriterStep(cfg, s))
  {}

  lemma WriterKeepsSlot(cfg: Config, s: State)
    requires Typed(cfg, s) && OneToken(s) && SlotInv(s)
    ensures SlotInv(WriterStep(cfg, s))
  {
    if s.w in {WResize, WCopy} {
      FillKeepsSlot(cfg, s);
    }
  }

  lemma FillKeepsSlot(cfg: Config, s: State)
    requires Typed(cfg, s) && OneToken(s) && SlotInv(s) && s.w in {WResize, WCopy}
    ensures SlotInv(WriterStep(cfg, s))
  {
    assert !Pending(s) && s.r != RSpace;
    if s.w == WCopy && s.filled == |s.chunk| {
      assert s.slot[..s.filled] == s.slot && s.chunk[..s.filled] == s.chunk;
    }
  }

  lemma ReaderKeepsSlot(cfg: Config, s: State)
    requires Typed(cfg, s) && OneToken(s) && SlotInv(s)
    ensures OneToken(ReaderStep(cfg, s)) && SlotInv(ReaderStep(cfg, s))
  {}

  lemma WriterKeepsStop(cfg: Config, s: State)
    requires Typed(cfg, s) && StopInv(s)
    ensures StopInv(WriterStep(cfg, s))
  {}

  lemma ReaderKeepsStop(cfg: Config, s: State)
    requires Typed(cfg, s) && StopInv(s)
    ensures StopInv(ReaderStep(cfg, s))
  {}

  lemma StepInv(cfg: Config, s: State, p: Process)
    requires Inv(cfg, s)
    ensures Inv(cfg, Step(cfg, s, p))
  {
    hide WriterStep, ReaderStep, OneToken, SlotInv, FileInv, StopInv;
    match p {
      case Writer =>
        WriterKeepsToken(cfg, s);
        WriterKeepsSlot(cfg, s);
        WriterKeepsFile(cfg, s);
        WriterKeepsStop(cfg, s);
      case Reader =>
        ReaderKeepsSlot(cfg, s);
        ReaderKeepsFile(cfg, s);
        ReaderKeepsStop(cfg, s);
    }
  }

  lemma {:induction false} RunInv(cfg: Config, s: State, schedule: Schedule)
    requires Inv(cfg, s)
    ensures Inv(cfg, Run(cfg, s, schedule))
    decreases |schedule|
  {
    hide Step, OneToken, SlotInv, FileInv, StopInv;
    if schedule == [] {
    } else {
      StepInv(cfg, s, schedule[0]);
      RunInv(cfg, Step(cfg, s, schedule[0]), schedule[1..]);
    }
  }

  lemma OutcomeInv(cfg: Config, schedule: Schedule)
    requires ValidConfig(cfg)
    ensures Inv(cfg, Outcome(cfg, schedule))
  {
    InitInv(cfg);
    RunInv(cfg, Init(), schedule);
  }

  // ---- The hand-over ----

  /** The chunks in front of the writer's position are the file up to there. */
  lemma HandedAreChunks(cfg: Config, s: State)
    requires Typed(cfg, s) && SlotInv(s) && FileInv(cfg, s)
    ensures s.handed <= s.written <= AllChunks(cfg)
    ensures s.handed != s.written <==> Pending(s)
    ensures Pending(s) ==> s.slot == AllChunks(cfg)[|s.handed|]
    ensures !Pending(s) && s.w in {WSpace, WResize, WCopy} ==>
              |s.handed| < |AllChunks(cfg)| && s.chunk == AllChunks(cfg)[|s.handed|]
  {
    hide Chunking.Chunks;
    var all := AllChunks(cfg);
    assert s.written <= all;
  }

  lemma FrontOfFile(cfg: Config, chunks: seq<seq<byte>>)
    requires ValidConfig(cfg) && chunks <= AllChunks(cfg)
    ensures Flatten(chunks) <= cfg.source
    ensures chunks == AllChunks(cfg) ==> Flatten(chunks) == cfg.source
  {
    var all := AllChunks(cfg);
    assert all == chunks + all[|chunks|..];
    FlattenAppend(chunks, all[|chunks|..]);
    Chunking.ChunksConcatenateToFile(cfg.source, 0, cfg.chunkSize);
    assert cfg.source[0..] == cfg.source;
  }

  /** In every interleaving the token is conserved, and the chunks handed over are the chunks written, each
      exactly once and in order, at most one behind; the slot holds the missing one. */
  lemma HandOver(cfg: Config, schedule: Schedule)
    requires ValidConfig(cfg)
    ensures var s := Outcome(cfg, schedule);
            && s.space + s.data + One(WriterHolds(s)) + One(ReaderHolds(s)) + One(s.w == WDone) == 1
            && (s.written == s.handed || s.written == s.handed + [s.slot])
            && s.handed <= s.written <= AllChunks(cfg)
            && Flatten(s.handed) <= cfg.source
  {
    hide Run, WriterStep, ReaderStep, FileInv;
    var s := Outcome(cfg, schedule);
    OutcomeInv(cfg, schedule);
    HandedAreChunks(cfg, s);
    FrontOfFile(cfg, s.handed);
  }

  /** Between the reader's data wait and its space post, no step of the writer touches the slot, and what is
      taken is the chunk written last. */
  lemma SlotNotOverwritten(cfg: Config, schedule: Schedule)
    requires ValidConfig(cfg) && ReaderHolds(Outcome(cfg, schedule))
    ensures var s := Outcome(cfg, schedule);
            && s.written != [] && s.slot == s.written[|s.written| - 1]
            && (s.r == RSpace ==> s.handed == s.written)
            && WriterStep(cfg, s).slot == s.slot
  {
    hide Run, ReaderStep;
    OutcomeInv(cfg, schedule);
  }

  /** Both processes have returned. */
  ghost predicate Returned(s: State) {
    s.w == WDone && s.r == RDone
  }

  lemma AllWritten(cfg: Config, s: State)
    requires Inv(cfg, s) && s.w == WDone
    ensures s.data == 0 && !ReaderHolds(s)
    ensures s.handed == s.written == AllChunks(cfg)
  {
    assert s.written == s.handed + [];
    assert s.written + [] + Chunking.Chunks(cfg.source, s.pos, cfg.chunkSize) == s.written;
  }

  /** If the writer's `Stop` returns, every chunk has been handed over. */
  lemma StopReturnsDelivered(cfg: Config, schedule: Schedule)
    requires ValidConfig(cfg) && Outcome(cfg, schedule).w == WDone
    ensures var s := Outcome(cfg, schedule);
            && s.handed == s.written == AllChunks(cfg)
            && Flatten(s.handed) == cfg.source
  {
    hide Run, Inv, AllChunks;
    var s := Outcome(cfg, schedule);
    OutcomeInv(cfg, schedule);
    AllWritten(cfg, s);
    FrontOfFile(cfg, s.handed);
  }

  // ---- The abandoned chunk ----

  /** The reader took a stop token and left while a chunk was still in the slot. */
  ghost predicate Abandoned(s: State) {
    s.r == RDone && s.handed != s.written
  }

  lemma AbandonedStays(cfg: Config, s: State, p: Process)
    requires Inv(cfg, s) && Abandoned(s)
    ensures var s' := Step(cfg, s, p);
            && Abandoned(s') && s'.handed == s.handed && s'.output == s.output
            && s.space == s'.space == 0 && s.w in {WPostStop, WTrySpace} && s'.w in {WPostStop, WTrySpace}
  {
    hide Chunking.Chunks;
  }

  lemma {:induction false} AbandonedForever(cfg: Config, s: State, schedule: Schedule)
    requires Inv(cfg, s) && Abandoned(s)
    ensures var s' := Run(cfg, s, schedule);
            && Abandoned(s') && s'.space == 0 && s'.w in {WPostStop, WTrySpace}
            && s'.handed == s.handed && s'.output == s.output
    decreases |schedule|
  {
    hide Step, OneToken, SlotInv, FileInv, StopInv, Abandoned;
    AbandonedStays(cfg, s, Writer);
    if schedule == [] {
    } else {
      AbandonedStays(cfg, s, schedule[0]);
      StepInv(cfg, s, schedule[0]);
      AbandonedForever(cfg, Step(cfg, s, schedule[0]), schedule[1..]);
    }
  }

  lemma AbandonedIsLast(cfg: Config, s: State)
    requires Inv(cfg, s) && Abandoned(s)
    ensures var all := AllChunks(cfg);
            all != [] && s.written == all && s.handed == all[..|all| - 1]
  {}

  /** Nothing but the last chunk can be left behind in the slot. */
  lemma AbandonedLosesLastChunk(cfg: Config, schedule: Schedule)
    requires ValidConfig(cfg) && Abandoned(Outcome(cfg, schedule))
    ensures var s, all := Outcome(cfg, schedule), AllChunks(cfg);
            all != [] && s.written == all && s.handed == all[..|all| - 1]
  {
    hide Run, Inv, AllChunks;
    OutcomeInv(cfg, schedule);
    AbandonedIsLast(cfg, Outcome(cfg, schedule));
  }

  /** Once the reader has left, the writer's `Stop` can still return exactly when nothing was left behind;
      otherwise the space count stays 0 for good and `Stop` posts tokens forever. */
  lemma StopCanReturnIff(cfg: Config, s: State)
    requires Inv(cfg, s) && s.r == RDone
    ensures (exists schedule :: Run(cfg, s, schedule).w == WDone) <==> s.handed == s.written
  {
    hide Run, OneToken, SlotInv, FileInv, StopInv;
    if s.handed == s.written {
      var schedule := FinishStop(cfg, s);
      assert Run(cfg, s, schedule).w == WDone;
    } else {
      forall schedule
        ensures Run(cfg, s, schedule).w != WDone
      {
        AbandonedForever(cfg, s, schedule);
      }
    }
  }

  lemma RunNone(cfg: Config, s: State)
    requires Typed(cfg, s)
    ensures Run(cfg, s, []) == s
  {}

  lemma RunOne(cfg: Config, s: State, p: Process)
    requires Typed(cfg, s)
    ensures Run(cfg, s, [p]) == Step(cfg, s, p)
  {}

  lemma RunTwo(cfg: Config, s: State, p: Process, q: Process)
    requires Typed(cfg, s)
    ensures Run(cfg, s, [p, q]) == Step(cfg, Step(cfg, s, p), q)
  {
    hide Run, Step;
    assert [p] + [q] == [p, q];
    RunAppend(cfg, s, [p], [q]);
    RunOne(cfg, s, p);
    RunOne(cfg, Step(cfg, s, p), q);
  }

  lemma FinishStop(cfg: Config, s: State) returns (schedule: Schedule)
    requires Inv(cfg, s) && s.r == RDone && s.handed == s.written
    ensures Run(cfg, s, schedule).w == WDone
  {
    hide Run;
    schedule := if s.w == WDone then [] else if s.w == WTrySpace then [Writer] else [Writer, Writer];
    RunNone(cfg, s);
    RunOne(cfg, s, Writer);
    RunTwo(cfg, s, Writer, Writer);
  }
}
