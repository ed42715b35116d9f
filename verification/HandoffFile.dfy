/** What the multi-process transport writes to the file. The reader frees the slot before it has written its view
    of it out, so what the file gets of a chunk can be, byte for byte, that chunk or the one after it. */
module HandoffFile {
  import opened Bytes
  import opened SharedMemory
  import opened Handoff

  /** Every byte of `piece` is the byte of chunk `k` at its place or, when the slot changed under a view, what the
      next chunk shows there. */
  ghost predicate Explained(all: seq<seq<byte>>, k: nat, piece: seq<byte>, disturbed: bool)
    requires k < |all|
  {
    && |piece| <= |all[k]|
    && forall j | 0 <= j < |piece| ::
         piece[j] == all[k][j] || (disturbed && k + 1 < |all| && piece[j] == ByteAt(all[k + 1], j))
  }

  /** A view has been taken and not yet been written out whole. */
  ghost predicate InUse(s: State) {
    s.r in {RSpace, RWrite}
  }

  /** The part of the view still to be written out shows the chunk handed over last or, where the slot has been
      changed, the one after it. */
  ghost predicate ViewInv(cfg: Config, s: State) {
    var all, n := AllChunks(cfg), |s.handed|;
    InUse(s) ==>
      && 0 < n <= |all| && s.viewed <= s.view == |all[n - 1]|
      && forall j | s.viewed <= j < s.view ::
           ByteAt(s.slot, j) == all[n - 1][j] || (s.disturbed && n < |all| && ByteAt(s.slot, j) == ByteAt(all[n], j))
  }

  /** The file consists of one piece for each chunk handed over. */
  ghost predicate PieceInv(cfg: Config, s: State) {
    var all, n := AllChunks(cfg), |s.pieces|;
    && n == |s.handed| <= |all|
    && s.output == Flatten(s.pieces)
    && (forall k | 0 <= k < n :: Explained(all, k, s.pieces[k], s.disturbed))
    && (forall k | 0 <= k < n :: |s.pieces[k]| == if InUse(s) && k == n - 1 then s.viewed else |all[k]|)
  }

  /** Where the slot stands between the two processes; all that the file's invariant needs to know. */
  ghost predicate Between(cfg: Config, s: State) {
    var all, n := AllChunks(cfg), |s.handed|;
    && Typed(cfg, s)
    && (s.r == RTake ==> n < |all| && s.slot == all[n])
    && (s.r == RSpace ==> !WriterHolds(s))
    && (s.w in {WResize, WCopy} ==> n < |all| && s.chunk == all[n])
  }

  lemma InvBetween(cfg: Config, s: State)
    requires Inv(cfg, s)
    ensures Between(cfg, s)
  {
    hide FileInv, AllChunks;
    HandedAreChunks(cfg, s);
  }

  lemma WriterKeepsView(cfg: Config, s: State)
    requires Between(cfg, s) && ViewInv(cfg, s)
    ensures ViewInv(cfg, WriterStep(cfg, s))
  {
    hide AllChunks;
    if InUse(s) && s.w in {WResize, WCopy} {
      FillKeepsView(cfg, s, WriterStep(cfg, s));
    }
  }

  /** A byte of the slot that changes while a view is in use changes to what the next chunk shows there. */
  lemma FillKeepsView(cfg: Config, s: State, s': State)
    requires ViewInv(cfg, s) && s.r == RWrite && |s.handed| < |AllChunks(cfg)|
    requires s' == s.(w := s'.w, filled := s'.filled, slot := s'.slot, written := s'.written, disturbed := s'.disturbed)
    requires s'.slot != s.slot && Viewing(s) ==> s'.disturbed
    requires s.disturbed ==> s'.disturbed
    requires forall j: nat :: ByteAt(s'.slot, j) in {ByteAt(s.slot, j), ByteAt(AllChunks(cfg)[|s.handed|], j)}
    ensures ViewInv(cfg, s')
  {
    hide AllChunks, ByteAt;
  }

  lemma WriterKeepsPieces(cfg: Config, s: State)
    requires Typed(cfg, s) && PieceInv(cfg, s)
    ensures PieceInv(cfg, WriterStep(cfg, s))
  {
    hide AllChunks, Flatten, ReaderStep;
    var s', all := WriterStep(cfg, s), AllChunks(cfg);
    assert s'.pieces == s.pieces && s'.handed == s.handed && s'.output == s.output;
    forall k | 0 <= k < |s.pieces|
      ensures Explained(all, k, s'.pieces[k], s'.disturbed)
    {
      assert Explained(all, k, s.pieces[k], s.disturbed);
    }
  }

  lemma ReaderKeepsView(cfg: Config, s: State)
    requires Between(cfg, s) && ViewInv(cfg, s)
    ensures ViewInv(cfg, ReaderStep(cfg, s))
  {
    hide AllChunks;
  }

  lemma FlattenGrowLast(pieces: seq<seq<byte>>, b: byte)
    requires pieces != []
    ensures Flatten(pieces[|pieces| - 1 := pieces[|pieces| - 1] + [b]]) == Flatten(pieces) + [b]
  {
    var n := |pieces| - 1;
    FlattenSnoc(pieces[..n], pieces[n]);
    FlattenSnoc(pieces[..n], pieces[n] + [b]);
    assert pieces == pieces[..n] + [pieces[n]];
    assert pieces[n := pieces[n] + [b]] == pieces[..n] + [pieces[n] + [b]];
  }

  lemma TakeKeepsPieces(cfg: Config, s: State)
    requires Between(cfg, s) && PieceInv(cfg, s) && s.r == RTake
    ensures PieceInv(cfg, ReaderStep(cfg, s))
  {
    hide AllChunks;
    FlattenSnoc(s.pieces, []);
  }

  lemma WriteKeepsPieces(cfg: Config, s: State, s': State)
    requires Typed(cfg, s) && ViewInv(cfg, s) && PieceInv(cfg, s) && Viewing(s)
    requires s'.handed == s.handed && s'.disturbed == s.disturbed && s'.r == RWrite && s'.viewed == s.viewed + 1
    requires var b, last := ByteAt(s.slot, s.viewed), |s.pieces| - 1;
             s'.output == s.output + [b] && s'.pieces == s.pieces[last := s.pieces[last] + [b]]
    ensures PieceInv(cfg, s')
  {
    hide AllChunks, Flatten, ByteAt;
    FlattenGrowLast(s.pieces, ByteAt(s.slot, s.viewed));
    forall k | 0 <= k < |s.pieces|
      ensures Explained(AllChunks(cfg), k, s'.pieces[k], s'.disturbed)
    {
      assert Explained(AllChunks(cfg), k, s.pieces[k], s.disturbed);
    }
  }

  lemma ReaderKeepsPieces(cfg: Config, s: State)
    requires Between(cfg, s) && ViewInv(cfg, s) && PieceInv(cfg, s)
    ensures PieceInv(cfg, ReaderStep(cfg, s))
  {
    hide PieceInv, AllChunks;
    if s.r == RTake {
      TakeKeepsPieces(cfg, s);
    } else if Viewing(s) {
      WriteKeepsPieces(cfg, s, ReaderStep(cfg, s));
    } else {
      MoveKeepsPieces(cfg, s, ReaderStep(cfg, s));
    }
  }

  lemma MoveKeepsPieces(cfg: Config, s: State, s': State)
    requires PieceInv(cfg, s) && ViewInv(cfg, s)
    requires s'.handed == s.handed && s'.pieces == s.pieces && s'.output == s.output && s'.disturbed == s.disturbed
    requires s'.viewed == s.viewed
    requires InUse(s) != InUse(s') ==> InUse(s) && s.viewed == s.view
    ensures PieceInv(cfg, s')
  {
    hide AllChunks, Explained, Flatten;
  }

  ghost predicate FileFacts(cfg: Config, s: State) {
    ViewInv(cfg, s) && PieceInv(cfg, s)
  }

  lemma StepKeepsFacts(cfg: Config, s: State, p: Process)
    requires Inv(cfg, s) && FileFacts(cfg, s)
    ensures FileFacts(cfg, Step(cfg, s, p))
  {
    hide WriterStep, ReaderStep, ViewInv, PieceInv, Between;
    InvBetween(cfg, s);
    assert Typed(cfg, s);
    match p
    case Writer =>
      WriterKeepsView(cfg, s);
      WriterKeepsPieces(cfg, s);
    case Reader =>
      ReaderKeepsView(cfg, s);
      ReaderKeepsPieces(cfg, s);
  }

  lemma {:induction false} RunKeepsFacts(cfg: Config, s: State, schedule: Schedule)
    requires Inv(cfg, s) && FileFacts(cfg, s)
    ensures FileFacts(cfg, Run(cfg, s, schedule))
    decreases |schedule|
  {
    hide Step, OneToken, SlotInv, FileInv, StopInv, FileFacts;
    if schedule == [] {
    } else {
      StepKeepsFacts(cfg, s, schedule[0]);
      StepInv(cfg, s, schedule[0]);
      RunKeepsFacts(cfg, Step(cfg, s, schedule[0]), schedule[1..]);
    }
  }

  lemma OutcomeFacts(cfg: Config, schedule: Schedule)
    requires ValidConfig(cfg)
    ensures var s := Outcome(cfg, schedule); Inv(cfg, s) && FileFacts(cfg, s)
  {
    hide Step;
    InitInv(cfg);
    OutcomeInv(cfg, schedule);
    RunKeepsFacts(cfg, Init(), schedule);
  }

  /** The next step of `p` writes into the slot while the reader is still writing out its view. */
  ghost predicate Disturbs(s: State, p: Process) {
    p == Writer && Viewing(s) && (s.w == WResize || (s.w == WCopy && s.filled < |s.chunk|))
  }

  lemma StepDisturbs(cfg: Config, s: State, p: Process)
    requires Typed(cfg, s)
    ensures Step(cfg, s, p).disturbed <==> s.disturbed || Disturbs(s, p)
  {}

  /** A schedule that left the slot alone is one in which no such step was taken. */
  lemma {:induction false} DisturbedIff(cfg: Config, schedule: Schedule)
    requires ValidConfig(cfg)
    ensures Outcome(cfg, schedule).disturbed
       <==> exists i | 0 <= i < |schedule| :: Disturbs(Outcome(cfg, schedule[..i]), schedule[i])
    decreases |schedule|
  {
    hide Step, Disturbs;
    if schedule == [] {
    } else {
      var n := |schedule| - 1;
      var front, last := schedule[..n], schedule[n];
      var s := Outcome(cfg, front);
      assert schedule == front + [last];
      RunAppend(cfg, Init(), front, [last]);
      RunOne(cfg, s, last);
      StepDisturbs(cfg, s, last);
      DisturbedIff(cfg, front);
      assert forall i | 0 <= i < n :: schedule[..i] == front[..i] && schedule[i] == front[i];
    }
  }

  // ---- The file ----

  lemma {:induction false} FlattenLength(pieces: seq<seq<byte>>, chunks: seq<seq<byte>>)
    requires |pieces| == |chunks|
    requires forall k | 0 <= k < |pieces| :: |pieces[k]| == |chunks[k]|
    ensures |Flatten(pieces)| == |Flatten(chunks)|
  {
    if pieces == [] {
    } else {
      FlattenLength(pieces[1..], chunks[1..]);
    }
  }

  /** Pieces that are whole chunks, but for the last one, which may be a front of its chunk. */
  lemma {:induction false} FlattenFronts(pieces: seq<seq<byte>>, chunks: seq<seq<byte>>)
    requires |pieces| == |chunks|
    requires forall k | 0 <= k < |pieces| :: pieces[k] <= chunks[k]
    requires forall k | 0 <= k < |pieces| - 1 :: |pieces[k]| == |chunks[k]|
    ensures Flatten(pieces) <= Flatten(chunks)
  {
    if |pieces| <= 1 {
      assert pieces == [] || (pieces == [pieces[0]] && chunks == [chunks[0]]);
    } else {
      FlattenFronts(pieces[1..], chunks[1..]);
    }
  }

  /** The file has one piece for each chunk handed over, in order and of the chunk's size. Every byte of a piece is the
      one of its chunk, or what the next chunk shows in its place; so the last chunk of the source is never replaced. */
  lemma FileBytes(cfg: Config, schedule: Schedule)
    requires ValidConfig(cfg)
    ensures var s, all := Outcome(cfg, schedule), AllChunks(cfg);
            && s.output == Flatten(s.pieces)
            && |s.pieces| == |s.handed| <= |all|
            && (forall k | 0 <= k < |s.pieces| :: Explained(all, k, s.pieces[k], true))
            && (forall k | 0 <= k < |s.pieces| :: (InUse(s) && k == |s.pieces| - 1) || |s.pieces[k]| == |all[k]|)
            && (|s.handed| == |all| && !InUse(s) ==> |s.output| == |cfg.source|)
  {
    hide Run, Inv, ViewInv, AllChunks, Flatten;
    var s, all := Outcome(cfg, schedule), AllChunks(cfg);
    OutcomeFacts(cfg, schedule);
    forall k | 0 <= k < |s.pieces|
      ensures Explained(all, k, s.pieces[k], true)
    {
      assert Explained(all, k, s.pieces[k], s.disturbed);
    }
    if |s.handed| == |all| && !InUse(s) {
      FlattenLength(s.pieces, all);
      FrontOfFile(cfg, all);
    }
  }

  /** As long as the slot is not changed under a view, the file is a front of what was handed over, and all of it
      whenever no view is in use. */
  lemma UndisturbedFile(cfg: Config, schedule: Schedule)
    requires ValidConfig(cfg) && !Outcome(cfg, schedule).disturbed
    ensures var s := Outcome(cfg, schedule);
            && s.output <= Flatten(s.handed) <= cfg.source
            && (!InUse(s) ==> s.output == Flatten(s.handed))
  {
    hide Run, ViewInv, AllChunks, Flatten, FileInv, OneToken, StopInv;
    var s, all := Outcome(cfg, schedule), AllChunks(cfg);
    OutcomeFacts(cfg, schedule);
    HandedAreChunks(cfg, s);
    FrontOfFile(cfg, s.handed);
    forall k | 0 <= k < |s.pieces|
      ensures s.pieces[k] <= s.handed[k]
    {
      assert Explained(all, k, s.pieces[k], s.disturbed);
    }
    FlattenFronts(s.pieces, s.handed);
    if !InUse(s) {
      FlattenLength(s.pieces, s.handed);
    }
  }
}
