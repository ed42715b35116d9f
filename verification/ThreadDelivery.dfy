/** What a run of the two threads delivers, under every interleaving. */
module ThreadDelivery {
  import opened Bytes
  import opened Ring
  import opened Threads
  import opened ThreadSafety
  import Modular

  /** The stored queue is the part of the accepted bytes not yet released. */
  lemma ContentsFact(cfg: Config, s: State)
    requires RingInv(cfg, s)
    ensures Contents(s.ring) == s.accepted[|s.delivered|..]
  {
    var h := |s.delivered|;
    SizeFact(cfg, s);
    forall i | 0 <= i < Size(s.ring)
      ensures Contents(s.ring)[i] == s.accepted[h + i]
    {
      ContentsAt(s.ring, i);
      Modular.AddMod(h, i, cfg.capacity);
    }
  }

  /** First in, first out: at every instant of every interleaving, what was released followed by what
      lies between head and tail is what was accepted, a half-done copy is the matching front of the
      ring, and the file is what was released, short of at most the chunk about to be written. */
  lemma FirstInFirstOut(cfg: Config, schedule: Schedule)
    requires ValidConfig(cfg)
    ensures var s := Outcome(cfg, schedule);
            && s.delivered + Contents(s.ring) == s.accepted
            && (s.c.pc == CCopy ==>
                  s.c.size <= |Contents(s.ring)| && s.c.buffer[..s.c.copied] == Contents(s.ring)[..s.c.copied])
            && (s.c.pc == CStoreHead ==> s.c.buffer <= Contents(s.ring))
            && s.output <= s.delivered <= s.accepted
            && (s.c.pc in {CRun, CGate, CGateSpin, CGateRun, CDone} ==> s.output == s.delivered)
  {
    var s := Outcome(cfg, schedule);
    OutcomeInv(cfg, schedule);
    ContentsFact(cfg, s);
    var rest := s.accepted[|s.delivered|..];
    assert s.accepted == s.accepted[..|s.delivered|] + rest;
    if s.c.pc in {CCopy, CStoreHead} {
      assert rest[..s.c.copied] == s.accepted[|s.delivered| .. |s.delivered| + s.c.copied];
      assert s.c.buffer[..s.c.size] == s.c.buffer;
    }
  }

  /** The slot `j` places past head. */
  function SlotPast(cfg: Config, s: State, j: nat): nat
    requires ValidConfig(cfg)
  {
    (s.ring.head + j) % cfg.capacity
  }

  lemma CopiedSlotsAreNotStored(cfg: Config, s: State, j: nat)
    requires RingInv(cfg, s) && ProducerInv(cfg, s) && ConsumerInv(cfg, s)
    requires s.p.pc == PStore && s.c.pc in {CGetHead, CCopy} && j < s.c.size
    ensures SlotPast(cfg, s, j) != s.p.tail
  {
    Modular.AddMod(|s.delivered|, j, cfg.capacity);
    Modular.DistinctSlots(|s.delivered| + j, |s.accepted|, cfg.capacity);
  }

  lemma StoreKeepsContents(cfg: Config, s: State)
    requires RingInv(cfg, s) && ProducerInv(cfg, s) && s.p.pc == PStore
    ensures Contents(ProducerStep(cfg, s).ring) == Contents(s.ring)
  {
    ProducerKeepsRing(cfg, s);
    ContentsFact(cfg, s);
    ContentsFact(cfg, ProducerStep(cfg, s));
  }

  /** No torn byte: the slot the producer is about to store into is none the consumer has still to
      copy, however stale the producer's view of head; so the store leaves the queue as it was. */
  lemma SlotStability(cfg: Config, schedule: Schedule)
    requires ValidConfig(cfg)
    requires Outcome(cfg, schedule).p.pc == PStore
    ensures var s := Outcome(cfg, schedule);
            && (s.c.pc in {CGetHead, CCopy} ==>
                  forall j: nat | s.c.copied <= j < s.c.size :: SlotPast(cfg, s, j) != s.p.tail)
            && Contents(ProducerStep(cfg, s).ring) == Contents(s.ring)
  {
    var s := Outcome(cfg, schedule);
    OutcomeInv(cfg, schedule);
    StoreKeepsContents(cfg, s);
    if s.c.pc in {CGetHead, CCopy} {
      forall j: nat | s.c.copied <= j < s.c.size
        ensures SlotPast(cfg, s, j) != s.p.tail
      {
        CopiedSlotsAreNotStored(cfg, s, j);
      }
    }
  }

  /** From the moment the producer passes the gate until it has pushed the chunk. */
  ghost predicate Pushing(s: State, s': State)
    requires WellFormed(s.ring)
  {
    && s.p.pos <= s'.p.pos
    && |s.delivered| <= |s'.delivered|
    && (s'.p.pos == s.p.pos && s'.p.pc == PGateRun ==> s'.accepted == s.accepted && s'.p.chunk == s.p.chunk)
    && (s'.p.pos == s.p.pos ==> s'.p.pc !in {PGate, PGateSpin})
    && (s'.p.pos == s.p.pos && InPushLoop(s'.p) ==>
          && s'.p.base == |s.accepted|
          && s'.p.room >= Free(s.ring)
          && s'.p.chunk == s.p.chunk)
  }

  lemma PushingStep(cfg: Config, s: State, s': State, t: Thread)
    requires Inv(cfg, s) && Inv(cfg, s') && Pushing(s, s')
    ensures Pushing(s, Step(cfg, s', t))
  {
    hide ProducerStep, ConsumerStep, Pushing, ProducerInv, ConsumerInv, SourceInv, ChunkInv;
    match t
    case Producing => ProducerKeepsPushing(cfg, s, s');
    case Consuming => ConsumerKeepsPushing(cfg, s, s');
  }

  lemma ConsumerKeepsPushing(cfg: Config, s: State, s': State)
    requires Typed(cfg, s) && Typed(cfg, s') && Pushing(s, s')
    ensures Pushing(s, ConsumerStep(cfg, s'))
  {
    hide ProducerStep, ConsumerStep;
    ConsumerLeavesProducer(cfg, s');
  }

  lemma ProducerKeepsPushing(cfg: Config, s: State, s': State)
    requires RingInv(cfg, s) && RingInv(cfg, s') && SourceInv(cfg, s') && ProducerInv(cfg, s') && Pushing(s, s')
    ensures Pushing(s, ProducerStep(cfg, s'))
  {
    SizeFact(cfg, s);
    SizeFact(cfg, s');
  }

  lemma {:induction false} PushingRun(cfg: Config, s: State, s': State, schedule: Schedule)
    requires Inv(cfg, s) && Inv(cfg, s') && Pushing(s, s')
    ensures Pushing(s, Run(cfg, s', schedule))
    decreases |schedule|
  {
    if schedule == [] {
    } else {
      PushingStep(cfg, s, s', schedule[0]);
      StepInv(cfg, s', schedule[0]);
      PushingRun(cfg, s, Step(cfg, s', schedule[0]), schedule[1..]);
    }
  }

  /** How many of the bytes pushed so far are sure to be accepted when `free` slots were free. */
  function Sure(p: Producer, free: nat): nat {
    if Pushed(p) <= free then Pushed(p) else free
  }

  /** Loss bound. Take the free space when the producer passes the gate with a chunk. Whatever the consumer
      does from then on, that many bytes of the chunk are accepted, first ones first; so at most
      max(0, pushed - free) bytes are rejected, and none if the chunk fits. */
  lemma ChunkLossBound(cfg: Config, before: Schedule, during: Schedule)
    requires ValidConfig(cfg)
    requires Outcome(cfg, before).p.pc == PGateRun
    requires InPushLoop(Outcome(cfg, before + during).p)
    requires Outcome(cfg, before + during).p.pos == Outcome(cfg, before).p.pos
    ensures var s, s' := Outcome(cfg, before), Outcome(cfg, before + during);
            var pushed, sure := Pushed(s'.p), Sure(s'.p, Free(s.ring));
            && s'.p.chunk == s.p.chunk && sure <= |s.p.chunk|
            && s.accepted + s.p.chunk[..sure] <= s'.accepted
            && pushed - (|s'.accepted| - |s.accepted|) <= (if pushed <= Free(s.ring) then 0 else pushed - Free(s.ring))
  {
    var s, s' := Outcome(cfg, before), Outcome(cfg, before + during);
    OutcomeInv(cfg, before);
    OutcomeInv(cfg, before + during);
    RunAppend(cfg, Init(cfg), before, during);
    PushingRun(cfg, s, s, during);
    AcceptedGrows(cfg, s, during);
    SureBytes(cfg, s, s');
  }

  lemma SureBytes(cfg: Config, s: State, s': State)
    requires Typed(cfg, s) && Typed(cfg, s') && ChunkInv(cfg, s') && Pushing(s, s')
    requires s.accepted <= s'.accepted
    requires InPushLoop(s'.p) && s'.p.pos == s.p.pos && s'.p.chunk == s.p.chunk
    ensures var sure := Sure(s'.p, Free(s.ring));
            sure <= |s.p.chunk| && s.accepted + s.p.chunk[..sure] <= s'.accepted
  {
    hide ChunkInv, Free;
    var sure, wide := Sure(s'.p, Free(s.ring)), Sure(s'.p, s'.p.room);
    RoomBytes(cfg, s');
    FrontOfSlice(s'.accepted, |s.accepted|, sure, wide, s.p.chunk);
  }

  lemma RoomBytes(cfg: Config, s: State)
    requires Typed(cfg, s) && ChunkInv(cfg, s) && InPushLoop(s.p)
    ensures var wide := Sure(s.p, s.p.room);
            && wide <= |s.p.chunk| && s.p.base + wide <= |s.accepted|
            && s.accepted[s.p.base .. s.p.base + wide] == s.p.chunk[..wide]
  {}

  lemma FrontOfSlice(a: seq<byte>, base: nat, sure: nat, wide: nat, chunk: seq<byte>)
    requires sure <= wide <= |chunk| && base + wide <= |a| && a[base .. base + wide] == chunk[..wide]
    ensures a[..base] + chunk[..sure] == a[..base + sure]
  {
    assert a[base .. base + sure] == a[base .. base + wide][..sure] == chunk[..sure];
  }

  lemma StepGrows(cfg: Config, s: State, t: Thread)
    requires Typed(cfg, s)
    ensures s.accepted <= Step(cfg, s, t).accepted && s.output <= Step(cfg, s, t).output
  {
    hide ProducerStep, ConsumerStep;
    ProducerGrows(cfg, s);
    ConsumerGrows(cfg, s);
  }

  lemma ProducerGrows(cfg: Config, s: State)
    requires Typed(cfg, s)
    ensures s.accepted <= ProducerStep(cfg, s).accepted && ProducerStep(cfg, s).output == s.output
  {}

  lemma ConsumerGrows(cfg: Config, s: State)
    requires Typed(cfg, s)
    ensures ConsumerStep(cfg, s).accepted == s.accepted && s.output <= ConsumerStep(cfg, s).output
  {}

  lemma {:induction false} AcceptedGrows(cfg: Config, s: State, schedule: Schedule)
    requires Typed(cfg, s)
    ensures s.accepted <= Run(cfg, s, schedule).accepted && s.output <= Run(cfg, s, schedule).output
    decreases |schedule|
  {
    if schedule == [] {
    } else {
      StepGrows(cfg, s, schedule[0]);
      AcceptedGrows(cfg, Step(cfg, s, schedule[0]), schedule[1..]);
    }
  }

  /** `part` arises from `whole` by leaving bytes out. */
  ghost predicate Subsequence(part: seq<byte>, whole: seq<byte>)
    decreases |whole|
  {
    if whole == [] then part == []
    else
      var n := |whole| - 1;
      || Subsequence(part, whole[..n])
      || (part != [] && part[|part| - 1] == whole[n] && Subsequence(part[..|part| - 1], whole[..n]))
  }

  lemma {:induction false} KeptIsSubsequence(source: seq<byte>, fate: seq<bool>)
    requires |source| == |fate|
    ensures Subsequence(Kept(source, fate), source)
    decreases |source|
  {
    if source == [] {
    } else {
      var n := |source| - 1;
      KeptIsSubsequence(source[..n], fate[..n]);
      var front, part := Kept(source[..n], fate[..n]), Kept(source, fate);
      if fate[n] {
        assert part == front + [source[n]];
        assert part[..|part| - 1] == front;
      } else {
        assert part == front;
      }
    }
  }

  lemma {:induction false} KeptWhole(source: seq<byte>, fate: seq<bool>)
    requires |source| == |fate|
    ensures |Kept(source, fate)| <= |source|
    ensures |Kept(source, fate)| == |source| ==> Kept(source, fate) == source
    decreases |source|
  {
    if source == [] {
    } else {
      var n := |source| - 1;
      KeptWhole(source[..n], fate[..n]);
      assert source[..n] + [source[n]] == source;
    }
  }

  /** Whole runs: what is accepted is the source with the rejected bytes left out, the file is always a
      front of that, and once both threads have returned at most capacity - 1 accepted bytes are missing. */
  lemma WholeRun(cfg: Config, schedule: Schedule)
    requires ValidConfig(cfg)
    ensures var s := Outcome(cfg, schedule);
            && |s.fate| <= |cfg.source| && Subsequence(s.accepted, cfg.source[..|s.fate|])
            && s.output <= s.accepted
            && (Finished(s) ==> |s.fate| == |cfg.source| && |s.accepted| - |s.output| <= cfg.capacity - 1)
  {
    var s := Outcome(cfg, schedule);
    OutcomeInv(cfg, schedule);
    FirstInFirstOut(cfg, schedule);
    KeptIsSubsequence(cfg.source[..|s.fate|], s.fate);
  }

  /** A source shorter than the capacity never fills the ring. */
  ghost predicate NeverFull(s: State) {
    && |s.accepted| == |s.fate|
    && s.ring.writing
    && s.p.pc != PReject
  }

  lemma NeverFullStep(cfg: Config, s: State, t: Thread)
    requires Inv(cfg, s) && NeverFull(s) && |cfg.source| < cfg.capacity
    ensures NeverFull(Step(cfg, s, t))
  {
    match t
    case Producing => ProducerNeverFull(cfg, s);
    case Consuming => ConsumerNeverFull(cfg, s);
  }

  lemma ConsumerNeverFull(cfg: Config, s: State)
    requires Typed(cfg, s) && NeverFull(s)
    ensures NeverFull(ConsumerStep(cfg, s))
  {}

  lemma ProducerNeverFull(cfg: Config, s: State)
    requires RingInv(cfg, s) && ProducerInv(cfg, s) && SourceInv(cfg, s)
    requires NeverFull(s) && |cfg.source| < cfg.capacity
    ensures NeverFull(ProducerStep(cfg, s))
  {
    hide ConsumerStep, Kept;
    if s.p.pc == PLoadHead {
      FullFact(cfg, s);
    }
  }

  lemma {:induction false} NeverFullRun(cfg: Config, s: State, schedule: Schedule)
    requires Inv(cfg, s) && NeverFull(s) && |cfg.source| < cfg.capacity
    ensures NeverFull(Run(cfg, s, schedule))
    decreases |schedule|
  {
    if schedule == [] {
    } else {
      NeverFullStep(cfg, s, schedule[0]);
      StepInv(cfg, s, schedule[0]);
      NeverFullRun(cfg, Step(cfg, s, schedule[0]), schedule[1..]);
    }
  }

  /** With at most capacity - 1 source bytes nothing is ever rejected, so the file is a front of the source. */
  lemma SmallSourceLosesNothingToRejection(cfg: Config, schedule: Schedule)
    requires ValidConfig(cfg) && |cfg.source| < cfg.capacity
    ensures var s := Outcome(cfg, schedule);
            && |s.fate| <= |cfg.source| && s.accepted == cfg.source[..|s.fate|]
            && s.output <= cfg.source
            && s.ring.writing
  {
    var s := Outcome(cfg, schedule);
    OutcomeInv(cfg, schedule);
    InitInv(cfg);
    NeverFullRun(cfg, Init(cfg), schedule);
    FirstInFirstOut(cfg, schedule);
    KeptWhole(cfg.source[..|s.fate|], s.fate);
  }

  /** What the two comparisons inside the ring decide, at the moment of the load: rejected exactly when the queue holds
      capacity - 1 bytes, and closed for reading exactly when it holds none. */
  lemma DecisionsIff(cfg: Config, schedule: Schedule)
    requires ValidConfig(cfg)
    ensures var s := Outcome(cfg, schedule);
            && (s.p.pc == PLoadHead ==>
                  (ProducerStep(cfg, s).p.pc == PReject <==> |Contents(s.ring)| == cfg.capacity - 1))
            && (s.c.pc == CLoadTail ==>
                  (ConsumerStep(cfg, s).c.pc == CClose <==> Contents(s.ring) == []))
  {
    hide Run, ProducerStep, ConsumerStep, ProducerInv, ConsumerInv, SourceInv, ChunkInv;
    var s := Outcome(cfg, schedule);
    OutcomeInv(cfg, schedule);
    if s.p.pc == PLoadHead {
      RejectionIff(cfg, s);
    }
    if s.c.pc == CLoadTail {
      ClosingIff(cfg, s);
    }
  }

  lemma RejectionIff(cfg: Config, s: State)
    requires RingInv(cfg, s) && ProducerInv(cfg, s) && s.p.pc == PLoadHead
    ensures ProducerStep(cfg, s).p.pc == PReject <==> |Contents(s.ring)| == cfg.capacity - 1
  {
    hide ConsumerStep;
    ContentsFact(cfg, s);
    FullFact(cfg, s);
  }

  lemma ClosingIff(cfg: Config, s: State)
    requires RingInv(cfg, s) && ConsumerInv(cfg, s) && s.c.pc == CLoadTail
    ensures ConsumerStep(cfg, s).c.pc == CClose <==> Contents(s.ring) == []
  {
    hide ProducerStep;
    ContentsFact(cfg, s);
    EmptyFact(cfg, s);
  }
}
