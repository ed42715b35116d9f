/** Runs of the multi-process transport that deliver everything, that leave the last chunk behind, and that write
    a later chunk in place of an earlier one: exactly when each of them exists. */
module HandoffRuns {
  import opened Bytes
  import opened SharedMemory
  import opened Handoff
  import opened HandoffFile
  import Chunking
  import Modular

  lemma RunFirst(cfg: Config, s: State, p: Process, rest: Schedule)
    requires Typed(cfg, s)
    ensures Run(cfg, s, [p] + rest) == Run(cfg, Step(cfg, s, p), rest)
  {
    hide Run, Step;
    RunAppend(cfg, s, [p], rest);
    RunOne(cfg, s, p);
  }

  lemma RunChain(cfg: Config, s: State, a: Schedule, b: Schedule, c: Schedule)
    requires Typed(cfg, s)
    ensures Run(cfg, s, a + (b + c)) == Run(cfg, Run(cfg, Run(cfg, s, a), b), c)
  {
    hide Run, Step;
    RunAppend(cfg, s, a, b + c);
    RunAppend(cfg, Run(cfg, s, a), b, c);
  }

  /** The writer's copy loop. */
  lemma {:induction false} CopyChunk(cfg: Config, s: State) returns (schedule: Schedule)
    requires Typed(cfg, s) && s.w == WCopy && s.slot[..s.filled] == s.chunk[..s.filled]
    ensures var s' := Run(cfg, s, schedule);
            && s' == s.(w := WData, slot := s.chunk, filled := |s.chunk|, written := s.written + [s.chunk],
                        disturbed := s'.disturbed)
            && (!Viewing(s) ==> s'.disturbed == s.disturbed)
    decreases |s.chunk| - s.filled
  {
    hide Run, ReaderStep;
    if s.filled == |s.chunk| {
      assert s.slot[..s.filled] == s.slot && s.chunk[..s.filled] == s.chunk;
      schedule := [Writer];
      RunOne(cfg, s, Writer);
    } else {
      var s' := Step(cfg, s, Writer);
      assert s'.slot[..s'.filled] == s.slot[..s.filled] + [s.chunk[s.filled]] == s.chunk[..s'.filled];
      var rest := CopyChunk(cfg, s');
      schedule := [Writer] + rest;
      RunFirst(cfg, s, Writer, rest);
    }
  }

  /** The writer puts the next chunk into the slot. */
  lemma PutChunk(cfg: Config, s: State) returns (schedule: Schedule)
    requires Typed(cfg, s) && s.w == WFile && s.pos < |cfg.source| && s.space == 1
    ensures var s', chunk := Run(cfg, s, schedule), Chunking.NextChunk(cfg.source, s.pos, cfg.chunkSize);
            && s' == s.(pos := s.pos + |chunk|, chunk := chunk, slot := chunk, filled := |chunk|, space := 0,
                        data := s.data + 1, written := s.written + [chunk], disturbed := s'.disturbed)
            && (!Viewing(s) ==> s'.disturbed == s.disturbed)
  {
    hide Run, ReaderStep;
    var s1 := Step(cfg, s, Writer);
    var s2 := Step(cfg, s1, Writer);
    var s3 := Step(cfg, s2, Writer);
    var copy := CopyChunk(cfg, s3);
    RunOne(cfg, Run(cfg, s3, copy), Writer);
    RunAppend(cfg, s3, copy, [Writer]);
    RunFirst(cfg, s2, Writer, copy + [Writer]);
    RunFirst(cfg, s1, Writer, [Writer] + (copy + [Writer]));
    RunFirst(cfg, s, Writer, [Writer] + ([Writer] + (copy + [Writer])));
    schedule := [Writer] + ([Writer] + ([Writer] + (copy + [Writer])));
  }

  /** The reader finds the chunk, takes a view of it and frees the slot. */
  lemma TakeView(cfg: Config, s: State) returns (schedule: Schedule)
    requires Typed(cfg, s) && s.r == RTryStop && s.stop == 0 && s.data == 1
    ensures Run(cfg, s, schedule) ==
            s.(r := RWrite, data := 0, space := s.space + 1, view := |s.slot|, viewed := 0,
               handed := s.handed + [s.slot], pieces := s.pieces + [[]])
  {
    hide Run, WriterStep;
    var s2 := Run(cfg, s, [Reader, Reader]);
    RunTwo(cfg, s, Reader, Reader);
    RunTwo(cfg, s2, Reader, Reader);
    RunAppend(cfg, s, [Reader, Reader], [Reader, Reader]);
    schedule := [Reader, Reader] + [Reader, Reader];
  }

  /** The reader writes out what its view shows by now. */
  lemma {:induction false} WriteOutView(cfg: Config, s: State) returns (schedule: Schedule)
    requires Typed(cfg, s) && s.r == RWrite && s.viewed <= s.view
    ensures var s' := Run(cfg, s, schedule);
            s' == s.(r := RTryStop, viewed := s.view, output := s.output + Resized(s.slot, s.view)[s.viewed..],
                     pieces := s'.pieces)
    decreases s.view - s.viewed
  {
    hide Run, WriterStep;
    if s.viewed == s.view {
      schedule := [Reader];
      RunOne(cfg, s, Reader);
    } else {
      var s', shown := Step(cfg, s, Reader), Resized(s.slot, s.view);
      assert shown[s.viewed..] == [ByteAt(s.slot, s.viewed)] + shown[s'.viewed..];
      assert s.output + shown[s.viewed..] == s'.output + shown[s'.viewed..];
      var rest := WriteOutView(cfg, s');
      schedule := [Reader] + rest;
      RunFirst(cfg, s, Reader, rest);
    }
  }

  /** Nothing is under way: the next chunk is still in the file, and all before it have been handed over. */
  ghost predicate Idle(s: State) {
    s.w == WFile && s.r == RTryStop && s.space == 1 && s.data == 0 && s.stop == 0 && s.written == s.handed
  }

  /** A chunk is in the slot, and the reader is back at the head of its loop. */
  ghost predicate Posted(s: State) {
    && s.w == WFile && s.r == RTryStop && s.space == 0 && s.data == 1 && s.stop == 0
    && s.written == s.handed + [s.slot]
  }

  /** The reader takes it and writes it out. */
  lemma TakeChunk(cfg: Config, s: State) returns (schedule: Schedule)
    requires Typed(cfg, s) && Posted(s)
    ensures var s' := Run(cfg, s, schedule);
            Idle(s') && s'.pos == s.pos && s'.output == s.output + s.slot
  {
    hide Run, Step;
    var take := TakeView(cfg, s);
    var s1 := Run(cfg, s, take);
    var write := WriteOutView(cfg, s1);
    RunAppend(cfg, s, take, write);
    assert Resized(s.slot, |s.slot|)[0..] == s.slot;
    schedule := take + write;
  }

  lemma DeliverOne(cfg: Config, s: State) returns (schedule: Schedule)
    requires Typed(cfg, s) && Idle(s) && s.pos < |cfg.source|
    ensures var s', chunk := Run(cfg, s, schedule), Chunking.NextChunk(cfg.source, s.pos, cfg.chunkSize);
            Idle(s') && s'.pos == s.pos + |chunk| && s'.output == s.output + chunk
  {
    hide Run, Step;
    var put := PutChunk(cfg, s);
    var take := TakeChunk(cfg, Run(cfg, s, put));
    RunAppend(cfg, s, put, take);
    schedule := put + take;
  }

  lemma StopWhenIdle(cfg: Config, s: State) returns (schedule: Schedule)
    requires Typed(cfg, s) && Idle(s) && s.pos == |cfg.source|
    ensures var s' := Run(cfg, s, schedule);
            Returned(s') && s'.output == s.output
  {
    hide Run;
    schedule := [Writer, Writer] + [Writer, Reader];
    RunAppend(cfg, s, [Writer, Writer], [Writer, Reader]);
    RunTwo(cfg, s, Writer, Writer);
    RunTwo(cfg, Run(cfg, s, [Writer, Writer]), Writer, Reader);
  }

  lemma {:induction false} DeliverRest(cfg: Config, s: State) returns (schedule: Schedule)
    requires Typed(cfg, s) && Idle(s)
    ensures var s' := Run(cfg, s, schedule);
            Returned(s') && s'.output == s.output + cfg.source[s.pos..]
    decreases |cfg.source| - s.pos
  {
    hide Run, Step;
    if s.pos == |cfg.source| {
      schedule := StopWhenIdle(cfg, s);
    } else {
      var chunk := Chunking.NextChunk(cfg.source, s.pos, cfg.chunkSize);
      var one := DeliverOne(cfg, s);
      var rest := DeliverRest(cfg, Run(cfg, s, one));
      RunAppend(cfg, s, one, rest);
      assert cfg.source[s.pos..] == chunk + cfg.source[s.pos + |chunk|..];
      schedule := one + rest;
    }
  }

  /** For every file some run copies all of it and lets both processes return. */
  lemma DeliveryReachable(cfg: Config)
    requires ValidConfig(cfg)
    ensures exists schedule :: Returned(Outcome(cfg, schedule)) && Outcome(cfg, schedule).output == cfg.source
  {
    hide Run;
    var schedule := DeliverRest(cfg, Init());
    assert cfg.source[0..] == cfg.source;
    assert Returned(Outcome(cfg, schedule)) && Outcome(cfg, schedule).output == cfg.source;
  }

  // ---- The abandoned chunk ----

  lemma StopWhilePosted(cfg: Config, s: State) returns (schedule: Schedule)
    requires Typed(cfg, s) && Posted(s) && s.pos == |cfg.source|
    ensures Abandoned(Run(cfg, s, schedule))
  {
    hide Run;
    schedule := [Writer, Writer] + [Reader];
    RunAppend(cfg, s, [Writer, Writer], [Reader]);
    RunTwo(cfg, s, Writer, Writer);
    RunOne(cfg, Run(cfg, s, [Writer, Writer]), Reader);
  }

  /** All but the last chunk are delivered; then the writer posts the last one and the stop token, and the reader
      looks at the stop token first. */
  lemma {:induction false} AbandonLast(cfg: Config, s: State) returns (schedule: Schedule)
    requires Typed(cfg, s) && Idle(s) && s.pos < |cfg.source|
    ensures Abandoned(Run(cfg, s, schedule))
    decreases |cfg.source| - s.pos
  {
    hide Run, Step;
    var put := PutChunk(cfg, s);
    var s1 := Run(cfg, s, put);
    if s1.pos == |cfg.source| {
      var stop := StopWhilePosted(cfg, s1);
      RunAppend(cfg, s, put, stop);
      schedule := put + stop;
    } else {
      var take := TakeChunk(cfg, s1);
      var rest := AbandonLast(cfg, Run(cfg, s1, take));
      RunChain(cfg, s, put, take, rest);
      schedule := put + (take + rest);
    }
  }

  /** A run can leave its last chunk behind, and with it the writer's `Stop`, exactly when the file is not empty. */
  lemma AbandonReachableIff(cfg: Config)
    requires ValidConfig(cfg)
    ensures (exists schedule :: Abandoned(Outcome(cfg, schedule))) <==> cfg.source != []
  {
    hide Run;
    if cfg.source != [] {
      var schedule := AbandonLast(cfg, Init());
      assert Abandoned(Outcome(cfg, schedule));
    } else {
      forall schedule
        ensures !Abandoned(Outcome(cfg, schedule))
      {
        HandOver(cfg, schedule);
        assert AllChunks(cfg) == [];
      }
    }
  }

  // ---- A later chunk in place of an earlier one ----

  /** The writer refills the slot under the reader's view. */
  lemma OverwriteSlot(cfg: Config, s: State) returns (schedule: Schedule)
    requires Typed(cfg, s) && Idle(s) && s.pos + cfg.chunkSize < |cfg.source|
    ensures var s' := Run(cfg, s, schedule);
            var next := Chunking.NextChunk(cfg.source, s.pos + cfg.chunkSize, cfg.chunkSize);
            && Posted(s') && s'.slot == next && s'.pos == s.pos + cfg.chunkSize + |next|
            && s'.output == s.output + Resized(next, cfg.chunkSize)
  {
    hide Run, Step, Resized;
    var put := PutChunk(cfg, s);
    var s1 := Run(cfg, s, put);
    var take := TakeView(cfg, s1);
    var s2 := Run(cfg, s1, take);
    var refill := PutChunk(cfg, s2);
    var s3 := Run(cfg, s2, refill);
    var write := WriteOutView(cfg, s3);
    RunChain(cfg, s, put, take, refill + write);
    RunAppend(cfg, s2, refill, write);
    assert Resized(s3.slot, cfg.chunkSize)[0..] == Resized(s3.slot, cfg.chunkSize);
    schedule := put + (take + (refill + write));
  }

  /** Then everything is delivered as usual. */
  lemma OverwriteOne(cfg: Config, s: State) returns (schedule: Schedule)
    requires Typed(cfg, s) && Idle(s) && s.pos + cfg.chunkSize < |cfg.source|
    ensures var s', at := Run(cfg, s, schedule), s.pos + cfg.chunkSize;
            var next := Chunking.NextChunk(cfg.source, at, cfg.chunkSize);
            Returned(s') && s'.output == s.output + Resized(next, cfg.chunkSize) + cfg.source[at..]
  {
    hide Run, Step, Resized;
    var over := OverwriteSlot(cfg, s);
    var s1 := Run(cfg, s, over);
    var take := TakeChunk(cfg, s1);
    var rest := DeliverRest(cfg, Run(cfg, s1, take));
    RunChain(cfg, s, over, take, rest);
    assert cfg.source[s.pos + cfg.chunkSize..] == s1.slot + cfg.source[s1.pos..];
    schedule := over + (take + rest);
  }

  /** Two consecutive chunks that look different through a view of the first one's size. */
  ghost predicate Differ(chunks: seq<seq<byte>>, k: nat) {
    k + 1 < |chunks| && Resized(chunks[k + 1], |chunks[k]|) != chunks[k]
  }

  ghost predicate Differing(cfg: Config) {
    exists k: nat :: Differ(AllChunks(cfg), k)
  }

  lemma ReplacedChunk(front: seq<byte>, chunk: seq<byte>, other: seq<byte>, rest: seq<byte>)
    requires |other| == |chunk| && other != chunk
    ensures front + other + rest != front + chunk + rest
  {
    assert (front + other + rest)[|front| .. |front| + |chunk|] == other;
    assert (front + chunk + rest)[|front| .. |front| + |chunk|] == chunk;
  }

  /** If the first two chunks from `pos` on look different, there is a full one there and something after it. */
  lemma TwoChunks(cfg: Config, pos: nat)
    requires ValidConfig(cfg) && pos <= |cfg.source| && Differ(Chunking.Chunks(cfg.source, pos, cfg.chunkSize), 0)
    ensures pos + cfg.chunkSize < |cfg.source|
    ensures var next := Chunking.NextChunk(cfg.source, pos + cfg.chunkSize, cfg.chunkSize);
            Resized(next, cfg.chunkSize) != Chunking.NextChunk(cfg.source, pos, cfg.chunkSize)
  {
    hide Chunking.Chunks, Resized;
    var at := pos + |Chunking.NextChunk(cfg.source, pos, cfg.chunkSize)|;
    Chunking.FirstChunk(cfg.source, pos, cfg.chunkSize);
    Chunking.FirstChunk(cfg.source, at, cfg.chunkSize);
  }

  lemma DifferLater(cfg: Config, pos: nat, k: nat)
    requires ValidConfig(cfg) && pos <= |cfg.source| && Differ(Chunking.Chunks(cfg.source, pos, cfg.chunkSize), k + 1)
    ensures pos < |cfg.source|
    ensures var at := pos + |Chunking.NextChunk(cfg.source, pos, cfg.chunkSize)|;
            Differ(Chunking.Chunks(cfg.source, at, cfg.chunkSize), k)
  {
    hide Chunking.Chunks;
    Chunking.FirstChunk(cfg.source, pos, cfg.chunkSize);
  }

  lemma {:induction false} OverwriteChunk(cfg: Config, s: State, k: nat) returns (schedule: Schedule)
    requires Typed(cfg, s) && Idle(s) && s.output == cfg.source[..s.pos]
    requires Differ(Chunking.Chunks(cfg.source, s.pos, cfg.chunkSize), k)
    ensures var s' := Run(cfg, s, schedule);
            Returned(s') && |s'.output| == |cfg.source| && s'.output != cfg.source
    decreases k
  {
    hide Run, Step, Chunking.Chunks, Resized, Differ;
    var chunk := Chunking.NextChunk(cfg.source, s.pos, cfg.chunkSize);
    if k == 0 {
      TwoChunks(cfg, s.pos);
      schedule := OverwriteOne(cfg, s);
      var at := s.pos + cfg.chunkSize;
      var next := Chunking.NextChunk(cfg.source, at, cfg.chunkSize);
      ReplacedChunk(cfg.source[..s.pos], chunk, Resized(next, cfg.chunkSize), cfg.source[at..]);
      assert cfg.source == cfg.source[..s.pos] + chunk + cfg.source[at..];
    } else {
      DifferLater(cfg, s.pos, k - 1);
      var one := DeliverOne(cfg, s);
      assert cfg.source[..s.pos + |chunk|] == cfg.source[..s.pos] + chunk;
      var rest := OverwriteChunk(cfg, Run(cfg, s, one), k - 1);
      RunAppend(cfg, s, one, rest);
      schedule := one + rest;
    }
  }

  /** Where consecutive chunks look the same, a later one in place of an earlier one makes no difference. */
  lemma SameChunksSameFile(cfg: Config, schedule: Schedule)
    requires ValidConfig(cfg) && !Differing(cfg)
    ensures var s := Outcome(cfg, schedule);
            && s.output <= cfg.source
            && (Returned(s) ==> s.output == cfg.source)
  {
    hide Run, AllChunks, Flatten;
    var s, all := Outcome(cfg, schedule), AllChunks(cfg);
    FileBytes(cfg, schedule);
    HandOver(cfg, schedule);
    forall k | 0 <= k < |s.pieces|
      ensures s.pieces[k] <= s.handed[k]
    {
      assert Explained(all, k, s.pieces[k], true);
      assert !Differ(all, k);
      assert k + 1 < |all| ==> all[k] == Resized(all[k + 1], |all[k]|);
    }
    FlattenFronts(s.pieces, s.handed);
    if Returned(s) {
      StopReturnsDelivered(cfg, schedule);
    }
  }

  /** The file can come to hold something that is no front of the source, and a run in which both processes return
      can leave something else than the source, exactly when some two consecutive chunks look different through a
      view of the first one's size. */
  lemma CorruptReachableIff(cfg: Config)
    requires ValidConfig(cfg)
    ensures (exists schedule :: !(Outcome(cfg, schedule).output <= cfg.source)) <==> Differing(cfg)
    ensures (exists schedule :: Returned(Outcome(cfg, schedule)) && Outcome(cfg, schedule).output != cfg.source)
              <==> Differing(cfg)
  {
    hide Run, AllChunks;
    if Differing(cfg) {
      var k: nat :| Differ(AllChunks(cfg), k);
      ChunksFromStart(cfg);
      var schedule := OverwriteChunk(cfg, Init(), k);
      var s := Outcome(cfg, schedule);
      assert Returned(s) && s.output != cfg.source && !(s.output <= cfg.source);
    } else {
      forall schedule
        ensures var s := Outcome(cfg, schedule);
                s.output <= cfg.source && (Returned(s) ==> s.output == cfg.source)
      {
        SameChunksSameFile(cfg, schedule);
      }
    }
  }

  lemma ChunksFromStart(cfg: Config)
    ensures AllChunks(cfg) == Chunking.Chunks(cfg.source, 0, cfg.chunkSize)
  {}

  // ---- The condition, byte by byte ----

  /** Byte `p` is not in the last chunk, and differs from the one a chunk further on; beyond the end count zeros. */
  ghost predicate DiffersAhead(cfg: Config, p: nat)
    requires ValidConfig(cfg)
  {
    && (p / cfg.chunkSize + 1) * cfg.chunkSize < |cfg.source|
    && p < |cfg.source|
    && cfg.source[p] != ByteAt(cfg.source, p + cfg.chunkSize)
  }

  lemma CountAbove(size: nat, chunkSize: nat, m: nat)
    requires chunkSize > 0 && m * chunkSize < size
    ensures m < Chunking.ChunkCount(size, chunkSize)
  {
    var q := Chunking.ChunkCount(size, chunkSize);
    assert (q + 1 - (m + 1)) * chunkSize == (q + 1) * chunkSize - (m + 1) * chunkSize;
    Modular.ScaleSign(q + 1 - (m + 1), chunkSize);
  }

  /** Byte `j` of the full chunk at `at`, and what the next one shows in its place. */
  lemma SliceBytes(cfg: Config, at: nat, j: nat)
    requires ValidConfig(cfg) && at + cfg.chunkSize < |cfg.source| && j < cfg.chunkSize
    ensures var chunk := Chunking.NextChunk(cfg.source, at, cfg.chunkSize);
            var next := Chunking.NextChunk(cfg.source, at + cfg.chunkSize, cfg.chunkSize);
            && |chunk| == cfg.chunkSize && chunk[j] == cfg.source[at + j]
            && ByteAt(next, j) == ByteAt(cfg.source, at + j + cfg.chunkSize)
  {}

  /** The same for chunk `k`, which is not the last. */
  lemma ChunkBytes(cfg: Config, k: nat, j: nat)
    requires ValidConfig(cfg) && (k + 1) * cfg.chunkSize < |cfg.source| && j < cfg.chunkSize
    ensures var all, p := AllChunks(cfg), k * cfg.chunkSize + j;
            && k + 1 < |all| && |all[k]| == cfg.chunkSize
            && p / cfg.chunkSize == k && p % cfg.chunkSize == j && p < |cfg.source|
            && all[k][j] == cfg.source[p]
            && ByteAt(all[k + 1], j) == ByteAt(cfg.source, p + cfg.chunkSize)
  {
    hide Chunking.Chunks, Chunking.NextChunk, Chunking.ChunkCount, ByteAt;
    var at := k * cfg.chunkSize;
    assert (k + 1) * cfg.chunkSize == at + cfg.chunkSize;
    CountAbove(|cfg.source|, cfg.chunkSize, k + 1);
    Chunking.CountChunks(cfg.source, 0, cfg.chunkSize);
    Chunking.ChunkAt(cfg.source, 0, cfg.chunkSize, k, at);
    Chunking.ChunkAt(cfg.source, 0, cfg.chunkSize, k + 1, at + cfg.chunkSize);
    SliceBytes(cfg, at, j);
    Modular.DivModUnique(at + j, cfg.chunkSize, k, j);
  }

  lemma NotLastChunk(cfg: Config, k: nat)
    requires ValidConfig(cfg) && k + 1 < |AllChunks(cfg)|
    ensures (k + 1) * cfg.chunkSize < |cfg.source|
  {
    hide Chunking.Chunks, Chunking.NextChunk;
    Chunking.ChunkAt(cfg.source, 0, cfg.chunkSize, k + 1, (k + 1) * cfg.chunkSize);
  }

  lemma DifferingByte(cfg: Config, k: nat) returns (p: nat)
    requires ValidConfig(cfg) && Differ(AllChunks(cfg), k)
    ensures DiffersAhead(cfg, p)
  {
    hide AllChunks;
    var all := AllChunks(cfg);
    NotLastChunk(cfg, k);
    ChunkBytes(cfg, k, 0);
    var j :| 0 <= j < |all[k]| && Resized(all[k + 1], |all[k]|)[j] != all[k][j];
    ChunkBytes(cfg, k, j);
    p := k * cfg.chunkSize + j;
  }

  lemma DifferingChunk(cfg: Config, p: nat) returns (k: nat)
    requires ValidConfig(cfg) && DiffersAhead(cfg, p)
    ensures Differ(AllChunks(cfg), k)
  {
    hide AllChunks, ByteAt;
    var j: nat;
    k, j := Modular.QuotientRemainder(p, cfg.chunkSize);
    ChunkBytes(cfg, k, j);
    var all := AllChunks(cfg);
    assert Resized(all[k + 1], |all[k]|)[j] == ByteAt(all[k + 1], j);
  }

  /** The condition read off the source: some byte before the last chunk differs from the one a chunk further on,
      or from zero where the source ends before that. */
  lemma DifferingIff(cfg: Config)
    requires ValidConfig(cfg)
    ensures Differing(cfg) <==> exists p: nat :: DiffersAhead(cfg, p)
  {
    hide AllChunks, DiffersAhead, Differ;
    if Differing(cfg) {
      var k: nat :| Differ(AllChunks(cfg), k);
      var p := DifferingByte(cfg, k);
      assert DiffersAhead(cfg, p);
    }
    if p: nat :| DiffersAhead(cfg, p) {
      var k := DifferingChunk(cfg, p);
      assert Differ(AllChunks(cfg), k);
    }
  }
}
