/** Uninterrupted stretches of one thread: a whole `CircularBuffer::Write` and a whole
    `BufferReader::Read`, tied to what the sequential ring does. */
module ThreadTurns {
  import opened Ring
  import opened Threads
  import opened ThreadSafety
  import opened ThreadDelivery

  function Times(t: Thread, n: nat): (schedule: Schedule)
    ensures |schedule| == n
    ensures n > 0 ==> t in schedule
  {
    var schedule := seq(n, _ => t);
    assert n > 0 ==> schedule[0] == t;
    schedule
  }

  lemma RunOne(cfg: Config, s: State, t: Thread)
    requires Typed(cfg, s)
    ensures Run(cfg, s, [t]) == Step(cfg, s, t)
  {}

  /** One step, then the rest. */
  lemma RunTimes(cfg: Config, s: State, t: Thread, n: nat)
    requires Typed(cfg, s)
    ensures Run(cfg, s, Times(t, n + 1)) == Run(cfg, Step(cfg, s, t), Times(t, n))
  {
    hide Step;
    assert Times(t, n + 1)[1..] == Times(t, n);
  }

  lemma RunTimesAdd(cfg: Config, s: State, t: Thread, m: nat, n: nat)
    requires Typed(cfg, s)
    ensures Run(cfg, s, Times(t, m + n)) == Run(cfg, Run(cfg, s, Times(t, m)), Times(t, n))
  {
    assert Times(t, m + n) == Times(t, m) + Times(t, n);
    RunAppend(cfg, s, Times(t, m), Times(t, n));
  }

  lemma RunTimesChain(cfg: Config, s: State, t: Thread, l: nat, m: nat, n: nat)
    requires Typed(cfg, s)
    ensures Run(cfg, s, Times(t, l + m + n)) == Run(cfg, Run(cfg, Run(cfg, s, Times(t, l)), Times(t, m)), Times(t, n))
  {
    hide Run, Step;
    RunTimesAdd(cfg, s, t, l, m);
    RunTimesAdd(cfg, s, t, l + m, n);
  }

  lemma RunThree(cfg: Config, s: State, t: Thread)
    requires Typed(cfg, s)
    ensures Run(cfg, s, Times(t, 3)) == Step(cfg, Step(cfg, Step(cfg, s, t), t), t)
  {
    hide Step;
    RunTimes(cfg, s, t, 2);
    RunTimes(cfg, Step(cfg, s, t), t, 1);
    RunTimes(cfg, Step(cfg, Step(cfg, s, t), t), t, 0);
  }

  lemma RunTwo(cfg: Config, s: State, t: Thread)
    requires Typed(cfg, s)
    ensures Run(cfg, s, Times(t, 2)) == Step(cfg, Step(cfg, s, t), t)
  {
    hide Step;
    RunTimes(cfg, s, t, 1);
    RunTimes(cfg, Step(cfg, s, t), t, 0);
  }

  /** Steps one push takes: a rejection is shorter. */
  ghost function WriteSteps(s: State): nat
    requires WellFormed(s.ring)
  {
    if Full(s.ring) then 3 else 5
  }

  ghost predicate AtPush(s: State) {
    s.p.pc == PLoadTail && s.p.i < |s.p.chunk|
  }

  lemma RejectSteps(cfg: Config, s: State)
    requires Typed(cfg, s) && AtPush(s) && (s.ring.tail + 1) % cfg.capacity == s.ring.head
    ensures var s' := Run(cfg, s, Times(Producing, 3));
            s' == s.(ring := s.ring.(writing := false), p := s'.p, fate := s'.fate)
            && s'.p == s.p.(pc := PLoadTail, tail := s.ring.tail, i := s.p.i + 1)
  {
    hide Run, ConsumerStep;
    RunThree(cfg, s, Producing);
  }

  lemma StoreSteps(cfg: Config, s: State)
    requires Typed(cfg, s) && AtPush(s) && (s.ring.tail + 1) % cfg.capacity != s.ring.head
    ensures Run(cfg, s, Times(Producing, 3)) ==
            s.(ring := s.ring.(data := s.ring.data[s.ring.tail := s.p.chunk[s.p.i]]),
               p := s.p.(pc := PPublish, tail := s.ring.tail))
  {
    hide Run, ConsumerStep;
    RunThree(cfg, s, Producing);
  }

  lemma PublishSteps(cfg: Config, s: State)
    requires Typed(cfg, s) && s.p.pc == PPublish
    ensures var s' := Run(cfg, s, Times(Producing, 2));
            && s' == s.(ring := s.ring.(tail := (s.p.tail + 1) % cfg.capacity, reading := true), p := s'.p,
                        accepted := s.accepted + [s.p.chunk[s.p.i]], fate := s'.fate)
            && s'.p == s.p.(pc := PLoadTail, i := s.p.i + 1)
  {
    hide Run, ConsumerStep;
    RunTwo(cfg, s, Producing);
  }

  /** The producer's steps through `CircularBuffer::Write`, run without interruption, do to the ring exactly what
      the sequential `WriteByte` does. */
  lemma WriteTurn(cfg: Config, s: State)
    requires Typed(cfg, s) && AtPush(s)
    ensures var s', item := Run(cfg, s, Times(Producing, WriteSteps(s))), s.p.chunk[s.p.i];
            && s'.ring == WriteByte(s.ring, item)
            && s'.accepted == s.accepted + (if Full(s.ring) then [] else [item])
            && s'.p.pc == PLoadTail && s'.p.i == s.p.i + 1 && s'.p.chunk == s.p.chunk && s'.p.pos == s.p.pos
            && s'.c == s.c && s'.running == s.running && s'.delivered == s.delivered && s'.output == s.output
  {
    hide Run, Step;
    FullTest(s.ring);
    if Full(s.ring) {
      RejectSteps(cfg, s);
    } else {
      RunTimesAdd(cfg, s, Producing, 3, 2);
      StoreSteps(cfg, s);
      PublishSteps(cfg, Run(cfg, s, Times(Producing, 3)));
    }
  }

  /** The copy loop touches nothing but the consumer's own buffer. */
  lemma {:induction false} CopyLoop(cfg: Config, s: State)
    requires Typed(cfg, s) && s.c.pc == CCopy
    ensures var s' := Run(cfg, s, Times(Consuming, s.c.size - s.c.copied + 1));
            && s' == s.(c := s'.c)
            && s'.c.pc == CSetHead && s'.c.size == s.c.size
    decreases s.c.size - s.c.copied
  {
    hide Run, ProducerStep;
    RunTimes(cfg, s, Consuming, s.c.size - s.c.copied);
    if s.c.copied < s.c.size {
      CopyLoop(cfg, ConsumerStep(cfg, s));
    } else {
      RunNone(cfg, ConsumerStep(cfg, s), Consuming);
    }
  }

  lemma RunNone(cfg: Config, s: State, t: Thread)
    requires Typed(cfg, s)
    ensures Run(cfg, s, Times(t, 0)) == s
  {}

  /** Steps one whole `BufferReader::Read` takes when nobody interferes. */
  ghost function ReadSteps(s: State): nat
    requires WellFormed(s.ring)
  {
    Size(s.ring) + 9
  }

  lemma SizingSteps(cfg: Config, s: State)
    requires Typed(cfg, s) && s.c.pc == CSizeHead
    ensures var s' := Run(cfg, s, Times(Consuming, 3));
            && s' == s.(c := s'.c)
            && s'.c.pc == CCopy && s'.c.size == Size(s.ring) && s'.c.copied == 0
  {
    hide Run, ProducerStep, SizeFromIndices;
    RunThree(cfg, s, Consuming);
  }

  /** Load head, store it advanced, open for writing. */
  lemma ReleasingSteps(cfg: Config, s: State)
    requires Typed(cfg, s) && s.c.pc == CSetHead
    requires (s.ring.head + s.c.size) % cfg.capacity == s.ring.tail
    ensures Run(cfg, s, Times(Consuming, 3)) ==
            s.(ring := s.ring.(head := s.ring.tail, writing := true), delivered := s.delivered + s.c.buffer,
               c := s.c.(pc := CLoadTail, newHead := s.ring.tail))
  {
    hide Run, ProducerStep;
    RunThree(cfg, s, Consuming);
  }

  /** Load tail, find the ring empty, close for reading. */
  lemma ClosingSteps(cfg: Config, s: State)
    requires Typed(cfg, s) && s.c.pc == CLoadTail && s.c.newHead == s.ring.tail
    ensures Run(cfg, s, Times(Consuming, 2)) == s.(ring := s.ring.(reading := false), c := s.c.(pc := CWrite))
  {
    hide Run, ProducerStep;
    RunTwo(cfg, s, Consuming);
  }

  lemma ReleaseAndClose(cfg: Config, s: State)
    requires Typed(cfg, s) && s.c.pc == CSetHead
    requires (s.ring.head + s.c.size) % cfg.capacity == s.ring.tail
    ensures var s' := Run(cfg, s, Times(Consuming, 5));
            && s'.ring == AdvanceHead(s.ring, s.c.size)
            && s' == s.(ring := s'.ring, c := s'.c, delivered := s.delivered + s.c.buffer)
            && s'.c == s.c.(pc := CWrite, newHead := s.ring.tail)
  {
    hide Run, Step, ProducerStep, ConsumerStep;
    RunTimesAdd(cfg, s, Consuming, 3, 2);
    ReleasingSteps(cfg, s);
    ClosingSteps(cfg, Run(cfg, s, Times(Consuming, 3)));
  }

  lemma SizingAndCopying(cfg: Config, s: State)
    requires Typed(cfg, s) && s.c.pc == CSizeHead
    ensures var s' := Run(cfg, s, Times(Consuming, 3 + (Size(s.ring) + 1)));
            && s' == s.(c := s'.c)
            && s'.c.pc == CSetHead && s'.c.size == Size(s.ring)
  {
    hide Run, Step, ProducerStep, ConsumerStep;
    RunTimesAdd(cfg, s, Consuming, 3, Size(s.ring) + 1);
    SizingSteps(cfg, s);
    CopyLoop(cfg, Run(cfg, s, Times(Consuming, 3)));
  }

  /** The consumer's steps through `BufferReader::Read`, run without interruption, do to the ring exactly what
      the sequential read does: they take all of it and leave it empty. */
  lemma ReadTurn(cfg: Config, s: State)
    requires Typed(cfg, s) && Inv(cfg, s) && s.c.pc == CSizeHead
    ensures var s' := Run(cfg, s, Times(Consuming, ReadSteps(s)));
            && s'.ring == AdvanceHead(s.ring, Size(s.ring))
            && s'.c.pc == CWrite && s'.c.buffer == Contents(s.ring)
            && s'.delivered == s.accepted && s'.accepted == s.accepted
            && s'.p == s.p && s'.running == s.running && s'.output == s.output && s'.fate == s.fate
  {
    hide Run, Step, ConsumerStep, ProducerStep, RingInv, ProducerInv, ConsumerInv, SourceInv, ChunkInv;
    var n := 3 + (Size(s.ring) + 1);
    var s2 := Run(cfg, s, Times(Consuming, n));
    RunTimesAdd(cfg, s, Consuming, n, 5);
    SizingAndCopying(cfg, s);
    RunInv(cfg, s, Times(Consuming, n));
    TailFromHead(s.ring);
    ReleaseAndClose(cfg, s2);
    WholeBuffer(cfg, s2);
  }

  lemma WholeBuffer(cfg: Config, s: State)
    requires RingInv(cfg, s) && ConsumerInv(cfg, s) && s.c.pc == CSetHead && s.c.size == Size(s.ring)
    ensures s.c.buffer == Contents(s.ring)
    ensures s.delivered + s.c.buffer == s.accepted
  {
    SizeFact(cfg, s);
    ContentsFact(cfg, s);
    assert s.c.buffer[..s.c.size] == s.c.buffer;
    assert s.accepted == s.accepted[..|s.delivered|] + s.accepted[|s.delivered|..];
  }
}
