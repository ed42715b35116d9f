/** The multi-thread transport: two threads sharing the ring, one step for every atomic load or
    store and for every byte moved. Each thread is deterministic; all interleavings are schedules. */
module Threads {
  import opened Bytes
  import opened Ring
  import Chunking

  datatype Config = Config(source: seq<byte>, chunkSize: nat, capacity: nat)

  ghost predicate ValidConfig(cfg: Config) {
    cfg.chunkSize > 0 && cfg.capacity > 0
  }

  datatype Thread = Producing | Consuming

  /** Program points of `FileDataTransferTask::Run` over `SafeWriteDataAccess` and `BufferWriter`.
      The name says what the next step does. */
  datatype ProducerPc =
    | PRead         // read the next chunk of the file
    | PGate         // load writingEnabled at the head of the spin loop
    | PGateSpin     // it was down: load running
    | PGateRun      // past the spin loop: load running once more
    | PLoadTail     // next byte of the chunk, if any: load tail
    | PLoadHead     // load head and compare
    | PReject       // ring looked full: lower writingEnabled
    | PStore        // store the byte into its slot
    | PPublish      // store tail
    | PAnnounce     // raise readingEnabled
    | PStop         // load writingEnabled in Stop's spin loop
    | PStopStore    // lower running
    | PDone

  /** Program points of `BufferTransferTask::Run` over `SafeReadDataAccess` and `BufferReader`. */
  datatype ConsumerPc =
    | CRun          // load running in the task's loop condition
    | CGate         // load readingEnabled at the head of the spin loop
    | CGateSpin     // it was down: load running
    | CGateRun      // past the spin loop: load running once more
    | CSizeHead     // GetDataSize loads head
    | CSizeTail     // GetDataSize loads tail; the chunk buffer is resized
    | CGetHead      // GetHead
    | CCopy         // copy the next byte, if any
    | CSetHead      // SetHead loads head
    | CStoreHead    // SetHead stores the advanced head
    | COpen         // raise writingEnabled
    | CLoadTail     // load tail and compare
    | CClose        // ring looked empty: lower readingEnabled
    | CWrite        // write the chunk to the output file, if it holds anything
    | CDone

  /** `base` and `room` only record, for the chunk being pushed, how many bytes had been
      accepted and how many slots were free when its loop began. */
  datatype Producer = Producer(pc: ProducerPc, pos: nat, chunk: seq<byte>, i: nat, tail: nat, base: nat, room: nat)

  datatype Consumer = Consumer(pc: ConsumerPc, head: nat, size: nat, copied: nat, newHead: nat, buffer: seq<byte>)

  /** `accepted`, `delivered` and `fate` record history: the bytes published through tail, the bytes
      released through head, and for every source byte pushed so far whether it was kept. */
  datatype State = State(
    ring: RingState, running: bool, p: Producer, c: Consumer, output: seq<byte>,
    accepted: seq<byte>, delivered: seq<byte>, fate: seq<bool>)

  function Init(cfg: Config): (s: State)
    requires ValidConfig(cfg)
    ensures Typed(cfg, s)
  {
    State(
      RingState(seq(cfg.capacity, _ => 0), 0, 0, true, false), true,
      Producer(PRead, 0, [], 0, 0, 0, 0),
      Consumer(CRun, 0, 0, 0, 0, []),
      [], [], [], [])
  }

  /** Local variables are in range; what the step functions need to be defined. */
  ghost predicate Typed(cfg: Config, s: State) {
    && ValidConfig(cfg)
    && WellFormed(s.ring)
    && |s.ring.data| == cfg.capacity
    && s.p.pos <= |cfg.source|
    && s.p.i <= |s.p.chunk|
    && s.p.tail < cfg.capacity
    && (s.p.pc in {PLoadHead, PReject, PStore, PPublish, PAnnounce} ==> s.p.i < |s.p.chunk|)
    && s.c.copied <= s.c.size == |s.c.buffer|
    && s.c.head < cfg.capacity
    && s.c.newHead < cfg.capacity
  }

  function ProducerStep(cfg: Config, s: State): (s': State)
    requires Typed(cfg, s)
    ensures Typed(cfg, s')
  {
    var p := s.p;
    match p.pc
    case PRead =>
      var data := Chunking.NextChunk(cfg.source, p.pos, cfg.chunkSize);
      if data == [] then s.(p := p.(pc := PStop, chunk := [], i := 0))
      else s.(p := p.(pc := PGate, pos := p.pos + |data|, chunk := data, i := 0))
    case PGate =>
      s.(p := p.(pc := if s.ring.writing then PGateRun else PGateSpin))
    case PGateSpin =>
      s.(p := p.(pc := if s.running then PGate else PGateRun))
    case PGateRun =>
      if s.running then s.(p := p.(pc := PLoadTail, base := |s.accepted|, room := Free(s.ring)))
      else s.(p := p.(pc := PRead))
    case PLoadTail =>
      if p.i < |p.chunk| then s.(p := p.(pc := PLoadHead, tail := s.ring.tail))
      else s.(p := p.(pc := PRead))
    case PLoadHead =>
      s.(p := p.(pc := if (p.tail + 1) % cfg.capacity == s.ring.head then PReject else PStore))
    case PReject =>
      s.(ring := s.ring.(writing := false), p := p.(pc := PLoadTail, i := p.i + 1), fate := s.fate + [false])
    case PStore =>
      s.(ring := s.ring.(data := s.ring.data[p.tail := p.chunk[p.i]]), p := p.(pc := PPublish))
    case PPublish =>
      s.(ring := s.ring.(tail := (p.tail + 1) % cfg.capacity), p := p.(pc := PAnnounce),
         accepted := s.accepted + [p.chunk[p.i]], fate := s.fate + [true])
    case PAnnounce =>
      s.(ring := s.ring.(reading := true), p := p.(pc := PLoadTail, i := p.i + 1))
    case PStop =>
      s.(p := p.(pc := if s.ring.writing then PStopStore else PStop))
    case PStopStore =>
      s.(running := false, p := p.(pc := PDone))
    case PDone => s
  }

  function ConsumerStep(cfg: Config, s: State): (s': State)
    requires Typed(cfg, s)
    ensures Typed(cfg, s')
  {
    var c := s.c;
    match c.pc
    case CRun =>
      s.(c := c.(pc := if s.running then CGate else CDone))
    case CGate =>
      s.(c := c.(pc := if s.ring.reading then CGateRun else CGateSpin))
    case CGateSpin =>
      s.(c := c.(pc := if s.running then CGate else CGateRun))
    case CGateRun =>
      s.(c := c.(pc := if s.running then CSizeHead else CRun))
    case CSizeHead =>
      s.(c := c.(pc := CSizeTail, head := s.ring.head))
    case CSizeTail =>
      var size := SizeFromIndices(c.head, s.ring.tail, cfg.capacity);
      s.(c := c.(pc := CGetHead, size := size, copied := 0, buffer := seq(size, _ => 0)))
    case CGetHead =>
      s.(c := c.(pc := CCopy, head := s.ring.head))
    case CCopy =>
      if c.copied < c.size then
        s.(c := c.(buffer := c.buffer[c.copied := At(s.ring, c.head + c.copied)], copied := c.copied + 1))
      else s.(c := c.(pc := CSetHead))
    case CSetHead =>
      s.(c := c.(pc := CStoreHead, newHead := (s.ring.head + c.size) % cfg.capacity))
    case CStoreHead =>
      s.(ring := s.ring.(head := c.newHead), c := c.(pc := COpen), delivered := s.delivered + c.buffer)
    case COpen =>
      s.(ring := s.ring.(writing := true), c := c.(pc := CLoadTail))
    case CLoadTail =>
      s.(c := c.(pc := if c.newHead == s.ring.tail then CClose else CWrite))
    case CClose =>
      s.(ring := s.ring.(reading := false), c := c.(pc := CWrite))
    case CWrite =>
      s.(c := c.(pc := CRun), output := s.output + c.buffer)
    case CDone => s
  }

  function Step(cfg: Config, s: State, t: Thread): (s': State)
    requires Typed(cfg, s)
    ensures Typed(cfg, s')
  {
    match t
    case Producing => ProducerStep(cfg, s)
    case Consuming => ConsumerStep(cfg, s)
  }

  type Schedule = seq<Thread>

  /** The state a schedule leads to. */
  function Run(cfg: Config, s: State, schedule: Schedule): (s': State)
    requires Typed(cfg, s)
    ensures Typed(cfg, s')
    decreases |schedule|
  {
    if schedule == [] then s else Run(cfg, Step(cfg, s, schedule[0]), schedule[1..])
  }

  /** The state a schedule leads to from the start. */
  function Outcome(cfg: Config, schedule: Schedule): (s: State)
    requires ValidConfig(cfg)
    ensures Typed(cfg, s)
  {
    Run(cfg, Init(cfg), schedule)
  }

  lemma {:induction false} RunAppend(cfg: Config, s: State, a: Schedule, b: Schedule)
    requires Typed(cfg, s)
    ensures Run(cfg, s, a + b) == Run(cfg, Run(cfg, s, a), b)
    decreases |a|
  {
    if a == [] {
      assert a + b == b;
    } else {
      assert (a + b)[1..] == a[1..] + b;
      RunAppend(cfg, Step(cfg, s, a[0]), a[1..], b);
    }
  }

  /** Both threads have returned. */
  ghost predicate Finished(s: State) {
    s.p.pc == PDone && s.c.pc == CDone
  }

  /** Both threads spin: the producer on a lowered writing flag, the consumer on a lowered reading
      flag, and nobody is left to stop the run. */
  ghost predicate Stuck(s: State) {
    && s.running && !s.ring.writing && !s.ring.reading
    && s.p.pc in {PGate, PGateSpin, PStop}
    && s.c.pc in {CGate, CGateSpin}
  }

  lemma {:induction false} StuckForever(cfg: Config, s: State, schedule: Schedule)
    requires Typed(cfg, s) && Stuck(s)
    ensures var s' := Run(cfg, s, schedule);
            && Stuck(s') && s'.output == s.output && s'.delivered == s.delivered && s'.accepted == s.accepted
    decreases |schedule|
  {
    if schedule == [] {
    } else {
      StuckForever(cfg, Step(cfg, s, schedule[0]), schedule[1..]);
    }
  }

  lemma ProducerWaitsStep(cfg: Config, s: State)
    requires Typed(cfg, s) && s.running && !s.ring.writing && s.p.pc in {PGate, PGateSpin, PStop}
    ensures var s' := ProducerStep(cfg, s);
            && s' == s.(p := s.p.(pc := s'.p.pc))
            && (if s.p.pc == PStop then s'.p.pc == PStop else s'.p.pc in {PGate, PGateSpin})
  {}

  lemma ConsumerWaitsStep(cfg: Config, s: State)
    requires Typed(cfg, s) && s.running && !s.ring.reading && s.c.pc in {CGate, CGateSpin}
    ensures var s' := ConsumerStep(cfg, s);
            s' == s.(c := s.c.(pc := s'.c.pc)) && s'.c.pc in {CGate, CGateSpin}
  {}

  /** However long it runs, a producer waiting for writing to be enabled, before a chunk or before its stop, waits until
      the consumer enables it. */
  lemma {:induction false} ProducerWaits(cfg: Config, s: State, schedule: Schedule)
    requires Typed(cfg, s) && s.running && !s.ring.writing && s.p.pc in {PGate, PGateSpin, PStop}
    requires Consuming !in schedule
    ensures var s' := Run(cfg, s, schedule);
            && s' == s.(p := s.p.(pc := s'.p.pc))
            && (if s.p.pc == PStop then s'.p.pc == PStop else s'.p.pc in {PGate, PGateSpin})
    decreases |schedule|
  {
    hide ProducerStep, ConsumerStep;
    if schedule == [] {
    } else {
      assert schedule[0] == Producing;
      ProducerWaitsStep(cfg, s);
      ProducerWaits(cfg, ProducerStep(cfg, s), schedule[1..]);
    }
  }

  /** And a consumer waiting for reading to be enabled waits until the producer enables it, or stops the run. */
  lemma {:induction false} ConsumerWaits(cfg: Config, s: State, schedule: Schedule)
    requires Typed(cfg, s) && s.running && !s.ring.reading && s.c.pc in {CGate, CGateSpin}
    requires Producing !in schedule
    ensures var s' := Run(cfg, s, schedule);
            && s' == s.(c := s.c.(pc := s'.c.pc))
            && s'.c.pc in {CGate, CGateSpin}
    decreases |schedule|
  {
    hide ProducerStep, ConsumerStep;
    if schedule == [] {
    } else {
      assert schedule[0] == Consuming;
      ConsumerWaitsStep(cfg, s);
      ConsumerWaits(cfg, ConsumerStep(cfg, s), schedule[1..]);
    }
  }
}
