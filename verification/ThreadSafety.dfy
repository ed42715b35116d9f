/** What every interleaving keeps: first in first out, no slot is overwritten while it is needed,
    and how much of a chunk can be lost. */
module ThreadSafety {
  import opened Bytes
  import opened Ring
  import opened Threads
  import Modular

  /** The source bytes whose fate was to be kept. */
  function Kept(source: seq<byte>, fate: seq<bool>): seq<byte>
    requires |source| == |fate|
  {
    if source == [] then []
    else Kept(source[..|source| - 1], fate[..|fate| - 1]) + if fate[|fate| - 1] then [source[|source| - 1]] else []
  }

  /** Counting from the start of the run without wrapping, head is |delivered| and tail is |accepted|. */
  ghost predicate RingInv(cfg: Config, s: State) {
    var h, t := |s.delivered|, |s.accepted|;
    && Typed(cfg, s)
    && h <= t < h + cfg.capacity
    && s.ring.head == h % cfg.capacity
    && s.ring.tail == t % cfg.capacity
    && s.delivered == s.accepted[..h]
    && (forall k | h <= k < t :: s.ring.data[k % cfg.capacity] == s.accepted[k])
  }

  ghost predicate ProducerInv(cfg: Config, s: State)
    requires Typed(cfg, s)
  {
    var p, h, t := s.p, |s.delivered|, |s.accepted|;
    && s.running == (p.pc != PDone)
    && (p.pc in {PLoadHead, PReject, PStore, PPublish} ==> p.tail == s.ring.tail)
    && (p.pc in {PStore, PPublish} ==> t - h < cfg.capacity - 1)
    && (p.pc == PPublish ==> s.ring.data[p.tail] == p.chunk[p.i])
  }

  ghost predicate ConsumerInv(cfg: Config, s: State)
    requires Typed(cfg, s)
  {
    var c, h, t := s.c, |s.delivered|, |s.accepted|;
    && (c.pc == CSizeTail ==> c.head == s.ring.head)
    && (c.pc in {CGetHead, CCopy, CSetHead, CStoreHead} ==>
          && h + c.size <= t
          && c.buffer[..c.copied] == s.accepted[h .. h + c.copied])
    && (c.pc == CGetHead ==> c.copied == 0)
    && (c.pc == CCopy ==> c.head == s.ring.head)
    && (c.pc in {CSetHead, CStoreHead} ==> c.copied == c.size)
    && (c.pc == CStoreHead ==> c.newHead == (h + c.size) % cfg.capacity)
    && (c.pc in {COpen, CLoadTail, CClose} ==> c.newHead == s.ring.head)
    && s.delivered == s.output + (if c.pc in {COpen, CLoadTail, CClose, CWrite} then c.buffer else [])
    && (c.pc in {CSizeHead, CSizeTail, CGetHead, CCopy, CSetHead, CStoreHead, COpen, CLoadTail, CClose} ==>
          s.ring.reading)
    && (c.pc == CGateRun ==> s.ring.reading || !s.running)
    && (c.pc == CDone ==> !s.running)
  }

  function Pushed(p: Producer): nat {
    p.i + if p.pc == PAnnounce then 1 else 0
  }

  /** How far into the source the producer is, and the fate of every byte before that. */
  ghost predicate SourceInv(cfg: Config, s: State)
    requires Typed(cfg, s)
  {
    var p := s.p;
    && |p.chunk| <= p.pos
    && p.chunk == cfg.source[p.pos - |p.chunk| .. p.pos]
    && |s.fate| == p.pos - |p.chunk| + Pushed(p)
    && (p.pc == PRead ==> p.i == |p.chunk|)
    && (p.pc in {PGate, PGateSpin, PGateRun} ==> p.i == 0 && p.chunk != [])
    && (p.pc in {PStop, PStopStore, PDone} ==> p.pos == |cfg.source| && p.chunk == [])
    && s.accepted == Kept(cfg.source[..|s.fate|], s.fate)
  }

  ghost predicate InPushLoop(p: Producer) {
    p.pc in {PLoadTail, PLoadHead, PReject, PStore, PPublish, PAnnounce}
  }

  /** The first min(pushed, room) bytes of the present chunk are accepted, whatever the consumer does meanwhile. */
  ghost predicate ChunkInv(cfg: Config, s: State)
    requires Typed(cfg, s)
  {
    var p, h, t, pushed := s.p, |s.delivered|, |s.accepted|, Pushed(s.p);
    var sure := if pushed <= p.room then pushed else p.room;
    InPushLoop(p) ==>
      && p.base + sure <= t <= p.base + pushed <= p.base + |p.chunk|
      && p.base + p.room <= h + cfg.capacity - 1
      && (p.pc == PReject ==> p.i >= p.room)
      && s.accepted[p.base .. p.base + sure] == p.chunk[..sure]
  }

  ghost predicate Inv(cfg: Config, s: State) {
    && RingInv(cfg, s)
    && ProducerInv(cfg, s)
    && ConsumerInv(cfg, s)
    && SourceInv(cfg, s)
    && ChunkInv(cfg, s)
  }

  lemma InitInv(cfg: Config)
    requires ValidConfig(cfg)
    ensures Inv(cfg, Init(cfg))
  {
    InitRing(cfg);
  }

  lemma InitRing(cfg: Config)
    requires ValidConfig(cfg)
    ensures RingInv(cfg, Init(cfg))
  {
    Modular.SmallMod(0, cfg.capacity);
  }

  /** How much is stored, in terms of the absolute counters. */
  lemma SizeFact(cfg: Config, s: State)
    requires RingInv(cfg, s)
    ensures Size(s.ring) == |s.accepted| - |s.delivered|
  {
    Modular.SlotDistance(|s.delivered|, |s.accepted|, cfg.capacity);
  }

  lemma FullFact(cfg: Config, s: State)
    requires RingInv(cfg, s)
    ensures (s.ring.tail + 1) % cfg.capacity == s.ring.head <==> |s.accepted| - |s.delivered| == cfg.capacity - 1
  {
    SizeFact(cfg, s);
    FullTest(s.ring);
  }

  lemma EmptyFact(cfg: Config, s: State)
    requires RingInv(cfg, s)
    ensures s.ring.head == s.ring.tail <==> |s.accepted| == |s.delivered|
  {
    SizeFact(cfg, s);
  }

  lemma ProducerKeepsRing(cfg: Config, s: State)
    requires RingInv(cfg, s) && ProducerInv(cfg, s)
    ensures RingInv(cfg, ProducerStep(cfg, s))
  {
    hide ConsumerStep;
    if s.p.pc == PStore {
      StoreKeepsRing(cfg, s, ProducerStep(cfg, s), s.p.chunk[s.p.i]);
    } else if s.p.pc == PPublish {
      PublishKeepsRing(cfg, s, ProducerStep(cfg, s));
    } else {
      RingFrame(cfg, s, ProducerStep(cfg, s));
    }
  }

  lemma StoreKeepsRing(cfg: Config, s: State, s': State, item: byte)
    requires RingInv(cfg, s) && Typed(cfg, s')
    requires s.p.tail == s.ring.tail && |s.accepted| - |s.delivered| < cfg.capacity - 1
    requires s'.ring == s.ring.(data := s.ring.data[s.p.tail := item])
    requires s'.accepted == s.accepted && s'.delivered == s.delivered
    ensures RingInv(cfg, s')
  {
    var h, t := |s.delivered|, |s.accepted|;
    forall k | h <= k < t
      ensures s'.ring.data[k % cfg.capacity] == s'.accepted[k]
    {
      Modular.DistinctSlots(k, t, cfg.capacity);
    }
  }

  lemma PublishKeepsRing(cfg: Config, s: State, s': State)
    requires RingInv(cfg, s) && Typed(cfg, s')
    requires |s.accepted| - |s.delivered| < cfg.capacity - 1
    requires s'.ring == s.ring.(tail := (s.ring.tail + 1) % cfg.capacity)
    requires s'.accepted == s.accepted + [s.ring.data[s.ring.tail]] && s'.delivered == s.delivered
    ensures RingInv(cfg, s')
  {
    Modular.AddMod(|s.accepted|, 1, cfg.capacity);
    assert s'.accepted[..|s.delivered|] == s.accepted[..|s.delivered|];
  }

  /** Flags and local variables are not the ring. */
  lemma RingFrame(cfg: Config, s: State, s': State)
    requires RingInv(cfg, s) && Typed(cfg, s')
    requires s'.ring.data == s.ring.data && s'.ring.head == s.ring.head && s'.ring.tail == s.ring.tail
    requires s'.accepted == s.accepted && s'.delivered == s.delivered
    ensures RingInv(cfg, s')
  {}

  lemma ProducerKeepsProducer(cfg: Config, s: State)
    requires RingInv(cfg, s) && ProducerInv(cfg, s)
    ensures ProducerInv(cfg, ProducerStep(cfg, s))
  {
    if s.p.pc == PLoadHead {
      FullFact(cfg, s);
    }
  }

  lemma ProducerKeepsConsumer(cfg: Config, s: State)
    requires RingInv(cfg, s) && ProducerInv(cfg, s) && ConsumerInv(cfg, s)
    ensures ConsumerInv(cfg, ProducerStep(cfg, s))
  {
    ConsumerFrame(cfg, s, ProducerStep(cfg, s));
  }

  /** The consumer's facts survive any change that appends to the accepted bytes and raises reading. */
  lemma ConsumerFrame(cfg: Config, s: State, s': State)
    requires Typed(cfg, s) && Typed(cfg, s') && ConsumerInv(cfg, s)
    requires s'.c == s.c && s'.output == s.output && s'.delivered == s.delivered && s'.ring.head == s.ring.head
    requires s.accepted <= s'.accepted
    requires s.ring.reading ==> s'.ring.reading
    requires !s.running ==> !s'.running
    ensures ConsumerInv(cfg, s')
  {}

  lemma ProducerKeepsSource(cfg: Config, s: State)
    requires Typed(cfg, s) && ProducerInv(cfg, s) && SourceInv(cfg, s)
    ensures SourceInv(cfg, ProducerStep(cfg, s))
  {
    hide Kept, ConsumerStep;
    if s.p.pc == PRead {
      ReadKeepsSource(cfg, s);
    } else if InPushLoop(s.p) {
      PushLoopKeepsSource(cfg, s);
    } else {
      MoveKeepsSource(cfg, s, ProducerStep(cfg, s));
    }
  }

  lemma ReadKeepsSource(cfg: Config, s: State)
    requires Typed(cfg, s) && SourceInv(cfg, s) && s.p.pc == PRead
    ensures SourceInv(cfg, ProducerStep(cfg, s))
  {
    hide Kept, ConsumerStep;
  }

  lemma PushLoopKeepsSource(cfg: Config, s: State)
    requires Typed(cfg, s) && SourceInv(cfg, s) && InPushLoop(s.p)
    ensures SourceInv(cfg, ProducerStep(cfg, s))
  {
    if s.p.pc in {PReject, PPublish} {
      PushKeepsSource(cfg, s, ProducerStep(cfg, s));
    } else {
      MoveKeepsSource(cfg, s, ProducerStep(cfg, s));
    }
  }

  lemma MoveKeepsSource(cfg: Config, s: State, s': State)
    requires Typed(cfg, s) && Typed(cfg, s') && SourceInv(cfg, s)
    requires s'.p.chunk == s.p.chunk && s'.p.pos == s.p.pos && s'.accepted == s.accepted && s'.fate == s.fate
    requires Pushed(s'.p) == Pushed(s.p)
    requires s'.p.pc == PRead ==> s'.p.i == |s.p.chunk|
    requires s'.p.pc in {PGate, PGateSpin, PGateRun} ==> s.p.pc in {PGate, PGateSpin, PGateRun}
    requires s'.p.pc in {PStop, PStopStore, PDone} ==> s.p.pc in {PStop, PStopStore, PDone}
    ensures SourceInv(cfg, s')
  {}

  lemma PushKeepsSource(cfg: Config, s: State, s': State)
    requires Typed(cfg, s) && Typed(cfg, s') && SourceInv(cfg, s)
    requires s.p.pc in {PReject, PPublish} && Pushed(s'.p) == s.p.i + 1
    requires s'.p.pc in {PLoadTail, PAnnounce} && s'.p.chunk == s.p.chunk && s'.p.pos == s.p.pos
    requires s'.fate == s.fate + [s.p.pc == PPublish]
    requires s'.accepted == s.accepted + if s.p.pc == PPublish then [s.p.chunk[s.p.i]] else []
    ensures SourceInv(cfg, s')
  {
    hide Kept;
    var n := |s.fate|;
    assert s.p.chunk[s.p.i] == cfg.source[n];
    KeptSnoc(cfg.source[..n], s.fate, cfg.source[n], s.p.pc == PPublish);
    assert cfg.source[..n] + [cfg.source[n]] == cfg.source[..n + 1];
  }

  lemma KeptSnoc(source: seq<byte>, fate: seq<bool>, item: byte, kept: bool)
    requires |source| == |fate|
    ensures Kept(source + [item], fate + [kept]) == Kept(source, fate) + if kept then [item] else []
  {}

  lemma ProducerKeepsChunk(cfg: Config, s: State)
    requires RingInv(cfg, s) && ProducerInv(cfg, s) && SourceInv(cfg, s) && ChunkInv(cfg, s)
    ensures ChunkInv(cfg, ProducerStep(cfg, s))
  {
    hide ProducerStep, ProducerInv, SourceInv, ChunkInv;
    if s.p.pc == PGateRun {
      EnterKeepsChunk(cfg, s);
    } else if s.p.pc == PLoadHead {
      LoadHeadKeepsChunk(cfg, s);
    } else if InPushLoop(s.p) {
      PushLoopKeepsChunk(cfg, s);
    } else {
      NoChunk(cfg, s);
    }
  }

  lemma NoChunk(cfg: Config, s: State)
    requires Typed(cfg, s) && !InPushLoop(s.p) && s.p.pc != PGateRun
    ensures ChunkInv(cfg, ProducerStep(cfg, s))
  {}

  lemma PushLoopKeepsChunk(cfg: Config, s: State)
    requires Typed(cfg, s) && ChunkInv(cfg, s) && InPushLoop(s.p) && s.p.pc != PLoadHead
    ensures ChunkInv(cfg, ProducerStep(cfg, s))
  {
    if s.p.pc == PReject {
      RejectKeepsChunk(cfg, s, ProducerStep(cfg, s));
    } else if s.p.pc == PPublish {
      PublishKeepsChunk(cfg, s, ProducerStep(cfg, s));
    } else {
      MoveKeepsChunk(cfg, s, ProducerStep(cfg, s));
    }
  }

  lemma MoveKeepsChunk(cfg: Config, s: State, s': State)
    requires Typed(cfg, s) && Typed(cfg, s') && ChunkInv(cfg, s)
    requires InPushLoop(s'.p) ==>
               && InPushLoop(s.p) && s'.p.pc != PReject && Pushed(s'.p) == Pushed(s.p)
               && s'.p.chunk == s.p.chunk && s'.p.base == s.p.base && s'.p.room == s.p.room
    requires s'.accepted == s.accepted && s'.delivered == s.delivered
    ensures ChunkInv(cfg, s')
  {}

  lemma RejectKeepsChunk(cfg: Config, s: State, s': State)
    requires Typed(cfg, s) && Typed(cfg, s') && ChunkInv(cfg, s)
    requires s.p.pc == PReject && s'.p == s.p.(pc := PLoadTail, i := s.p.i + 1)
    requires s'.accepted == s.accepted && s'.delivered == s.delivered
    ensures ChunkInv(cfg, s')
  {}

  lemma EnterKeepsChunk(cfg: Config, s: State)
    requires RingInv(cfg, s) && SourceInv(cfg, s) && s.p.pc == PGateRun
    ensures ChunkInv(cfg, ProducerStep(cfg, s))
  {
    SizeFact(cfg, s);
  }

  lemma LoadHeadKeepsChunk(cfg: Config, s: State)
    requires RingInv(cfg, s) && ProducerInv(cfg, s) && ChunkInv(cfg, s) && s.p.pc == PLoadHead
    ensures ChunkInv(cfg, ProducerStep(cfg, s))
  {
    FullFact(cfg, s);
  }

  lemma PublishKeepsChunk(cfg: Config, s: State, s': State)
    requires Typed(cfg, s) && Typed(cfg, s') && ChunkInv(cfg, s) && s.p.pc == PPublish && s'.p == s.p.(pc := PAnnounce)
    requires s'.delivered == s.delivered && s'.accepted == s.accepted + [s.p.chunk[s.p.i]]
    ensures ChunkInv(cfg, s')
  {}

  lemma ConsumerKeepsRing(cfg: Config, s: State)
    requires RingInv(cfg, s) && ConsumerInv(cfg, s)
    ensures RingInv(cfg, ConsumerStep(cfg, s))
  {
    hide ProducerStep;
    if s.c.pc == CStoreHead {
      ReleaseKeepsRing(cfg, s, ConsumerStep(cfg, s));
    } else {
      RingFrame(cfg, s, ConsumerStep(cfg, s));
    }
  }

  lemma ReleaseKeepsRing(cfg: Config, s: State, s': State)
    requires RingInv(cfg, s) && ConsumerInv(cfg, s) && Typed(cfg, s') && s.c.pc == CStoreHead
    requires s'.ring == s.ring.(head := s.c.newHead)
    requires s'.accepted == s.accepted && s'.delivered == s.delivered + s.c.buffer
    ensures RingInv(cfg, s')
  {
    ReleaseKeepsPrefix(s.accepted, |s.delivered|, s.c.size);
    assert s.c.buffer[..s.c.size] == s.c.buffer;
  }

  lemma ReleaseKeepsPrefix(accepted: seq<byte>, h: nat, size: nat)
    requires h + size <= |accepted|
    ensures accepted[..h] + accepted[h .. h + size] == accepted[..h + size]
  {}

  /** The producer's facts survive any change that only advances head and the flags. */
  lemma ProducerFrame(cfg: Config, s: State, s': State)
    requires Typed(cfg, s) && Typed(cfg, s') && ProducerInv(cfg, s) && ChunkInv(cfg, s)
    requires s'.p == s.p && s'.accepted == s.accepted && s'.running == s.running
    requires s'.ring.data == s.ring.data && s'.ring.tail == s.ring.tail
    requires |s.delivered| <= |s'.delivered|
    ensures ProducerInv(cfg, s') && ChunkInv(cfg, s')
  {}

  lemma ConsumerKeepsConsumer(cfg: Config, s: State)
    requires RingInv(cfg, s) && ConsumerInv(cfg, s)
    ensures ConsumerInv(cfg, ConsumerStep(cfg, s))
  {
    hide ProducerStep, ConsumerStep, ConsumerInv;
    if s.c.pc == CSizeTail {
      SizeKeepsConsumer(cfg, s);
    } else if s.c.pc == CCopy {
      CopyKeepsConsumer(cfg, s);
    } else if s.c.pc == CSetHead {
      SetHeadKeepsConsumer(cfg, s);
    } else if s.c.pc == CStoreHead {
      StoreHeadKeepsConsumer(cfg, s);
    } else {
      MoveKeepsConsumer(cfg, s);
    }
  }

  lemma SizeKeepsConsumer(cfg: Config, s: State)
    requires RingInv(cfg, s) && ConsumerInv(cfg, s)
    requires s.c.pc == CSizeTail
    ensures ConsumerInv(cfg, ConsumerStep(cfg, s))
    ensures ConsumerStep(cfg, s).c.size == |s.accepted| - |s.delivered|
  {
    SizeFact(cfg, s);
    var c', h := ConsumerStep(cfg, s).c, |s.delivered|;
    assert c'.buffer[..0] == s.accepted[h .. h];
  }

  lemma MoveKeepsConsumer(cfg: Config, s: State)
    requires Typed(cfg, s) && ConsumerInv(cfg, s)
    requires s.c.pc !in {CSizeTail, CCopy, CSetHead, CStoreHead}
    ensures ConsumerInv(cfg, ConsumerStep(cfg, s))
  {
    hide ProducerStep;
  }

  lemma SetHeadKeepsConsumer(cfg: Config, s: State)
    requires RingInv(cfg, s) && ConsumerInv(cfg, s) && s.c.pc == CSetHead
    ensures ConsumerInv(cfg, ConsumerStep(cfg, s))
  {
    hide ProducerStep, ConsumerInv;
    Modular.AddMod(|s.delivered|, s.c.size, cfg.capacity);
    NewHeadKeepsConsumer(cfg, s, ConsumerStep(cfg, s));
  }

  lemma NewHeadKeepsConsumer(cfg: Config, s: State, s': State)
    requires Typed(cfg, s) && Typed(cfg, s') && ConsumerInv(cfg, s) && s.c.pc == CSetHead
    requires s' == s.(c := s.c.(pc := CStoreHead, newHead := (|s.delivered| + s.c.size) % cfg.capacity))
    ensures ConsumerInv(cfg, s')
  {}

  lemma StoreHeadKeepsConsumer(cfg: Config, s: State)
    requires Typed(cfg, s) && ConsumerInv(cfg, s) && s.c.pc == CStoreHead
    ensures ConsumerInv(cfg, ConsumerStep(cfg, s))
  {
    hide ProducerStep;
  }

  lemma CopyKeepsConsumer(cfg: Config, s: State)
    requires RingInv(cfg, s) && ConsumerInv(cfg, s)
    requires s.c.pc == CCopy
    ensures ConsumerInv(cfg, ConsumerStep(cfg, s))
  {
    hide ProducerStep;
    if s.c.copied < s.c.size {
      CopiedByte(cfg, s);
      CopyOneKeepsConsumer(cfg, s, ConsumerStep(cfg, s));
    }
  }

  /** What stands `copied` slots past head is the next byte to be delivered. */
  lemma CopiedByte(cfg: Config, s: State)
    requires RingInv(cfg, s) && s.c.head == s.ring.head && |s.delivered| + s.c.copied < |s.accepted|
    ensures At(s.ring, s.c.head + s.c.copied) == s.accepted[|s.delivered| + s.c.copied]
  {
    Modular.AddMod(|s.delivered|, s.c.copied, cfg.capacity);
  }

  lemma CopyOneKeepsConsumer(cfg: Config, s: State, s': State)
    requires Typed(cfg, s) && Typed(cfg, s') && ConsumerInv(cfg, s) && s.c.pc == CCopy && s.c.copied < s.c.size
    requires var h, j := |s.delivered|, s.c.copied;
             s' == s.(c := s.c.(buffer := s.c.buffer[j := s.accepted[h + j]], copied := j + 1))
    ensures ConsumerInv(cfg, s')
  {
    var j := s.c.copied;
    assert s'.c.buffer[..j + 1] == s.c.buffer[..j] + [s.accepted[|s.delivered| + j]];
  }

  lemma ProducerStepInv(cfg: Config, s: State)
    requires Inv(cfg, s)
    ensures Inv(cfg, ProducerStep(cfg, s))
  {
    ProducerKeepsRing(cfg, s);
    ProducerKeepsProducer(cfg, s);
    ProducerKeepsConsumer(cfg, s);
    ProducerKeepsSource(cfg, s);
    ProducerKeepsChunk(cfg, s);
  }

  lemma ConsumerStepInv(cfg: Config, s: State)
    requires Inv(cfg, s)
    ensures Inv(cfg, ConsumerStep(cfg, s))
  {
    var s' := ConsumerStep(cfg, s);
    ConsumerKeepsRing(cfg, s);
    ConsumerKeepsConsumer(cfg, s);
    ConsumerLeavesProducer(cfg, s);
    ProducerFrame(cfg, s, s');
  }

  lemma ConsumerLeavesProducer(cfg: Config, s: State)
    requires Typed(cfg, s)
    ensures var s' := ConsumerStep(cfg, s);
            && s'.p == s.p && s'.accepted == s.accepted && s'.fate == s.fate && s'.running == s.running
            && s'.ring.data == s.ring.data && s'.ring.tail == s.ring.tail
            && |s.delivered| <= |s'.delivered|
  {}

  lemma StepInv(cfg: Config, s: State, t: Thread)
    requires Inv(cfg, s)
    ensures Inv(cfg, Step(cfg, s, t))
  {
    match t
    case Producing => ProducerStepInv(cfg, s);
    case Consuming => ConsumerStepInv(cfg, s);
  }

  lemma {:induction false} RunInv(cfg: Config, s: State, schedule: Schedule)
    requires Inv(cfg, s)
    ensures Inv(cfg, Run(cfg, s, schedule))
    decreases |schedule|
  {
    if schedule == [] {
    } else {
      StepInv(cfg, s, schedule[0]);
      RunInv(cfg, Step(cfg, s, schedule[0]), schedule[1..]);
    }
  }

  /** Every interleaving, at every instant. */
  lemma OutcomeInv(cfg: Config, schedule: Schedule)
    requires ValidConfig(cfg)
    ensures Inv(cfg, Outcome(cfg, schedule))
  {
    InitInv(cfg);
    RunInv(cfg, Init(cfg), schedule);
  }
}
