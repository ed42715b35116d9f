/** The stop tokens of the multi-process transport: how many the writer posts, and what one does to the reader. */
module HandoffTokens {
  import opened Modular
  import opened Handoff

  /** The stop tokens posted along a schedule. */
  ghost function StopsPosted(cfg: Config, schedule: Schedule): nat
    requires ValidConfig(cfg)
    decreases |schedule|
  {
    if schedule == [] then 0
    else
      var front, last := schedule[..|schedule| - 1], schedule[|schedule| - 1];
      StopsPosted(cfg, front) + One(last == Writer && Outcome(cfg, front).w == WPostStop)
  }

  lemma StepKeepsCount(cfg: Config, s: State, p: Process)
    requires Typed(cfg, s)
    ensures var s' := Step(cfg, s, p);
            s'.stop + One(s'.r == RDone) == s.stop + One(s.r == RDone) + One(p == Writer && s.w == WPostStop)
  {}

  /** No stop token is lost or made up: every one posted is still there, but for the one on which the reader left. */
  lemma {:induction false} StopTokensConserved(cfg: Config, schedule: Schedule)
    requires ValidConfig(cfg)
    ensures var s := Outcome(cfg, schedule); s.stop + One(s.r == RDone) == StopsPosted(cfg, schedule)
    decreases |schedule|
  {
    hide Step;
    if schedule == [] {
    } else {
      var front, last := schedule[..|schedule| - 1], schedule[|schedule| - 1];
      var s := Outcome(cfg, front);
      assert schedule == front + [last];
      StopTokensConserved(cfg, front);
      RunAppend(cfg, Init(), front, [last]);
      RunOne(cfg, s, last);
      StepKeepsCount(cfg, s, last);
    }
  }

  // ---- The writer ----

  function WriterAlone(n: nat): (schedule: Schedule)
    ensures |schedule| == n
  {
    seq(n, _ => Writer)
  }

  /** Without space, every other step of a stopping writer posts one more token. */
  lemma {:induction false} StopPostsAgain(cfg: Config, s: State, n: nat)
    requires Typed(cfg, s) && s.w == WTrySpace && s.space == 0
    ensures Run(cfg, s, WriterAlone(2 * n)) == s.(stop := s.stop + n)
    decreases n
  {
    hide Run, ReaderStep;
    if n == 0 {
      RunNone(cfg, s);
      assert WriterAlone(0) == [];
    } else {
      var two := [Writer, Writer];
      assert WriterAlone(2 * n) == two + WriterAlone(2 * (n - 1));
      RunAppend(cfg, s, two, WriterAlone(2 * (n - 1)));
      RunTwo(cfg, s, Writer, Writer);
      StopPostsAgain(cfg, s.(stop := s.stop + 1), n - 1);
    }
  }

  /** A writer left alone with an abandoned chunk posts stop tokens without bound. */
  lemma AbandonedPostsForever(cfg: Config, s: State, bound: nat)
    requires Inv(cfg, s) && Abandoned(s)
    ensures exists schedule :: Run(cfg, s, schedule).stop > bound
  {
    hide Run, ReaderStep, OneToken, SlotInv, FileInv;
    AbandonedStays(cfg, s, Writer);
    if s.w == WTrySpace {
      StopPostsAgain(cfg, s, bound + 1);
      assert Run(cfg, s, WriterAlone(2 * (bound + 1))).stop > bound;
    } else {
      var s', rest := Step(cfg, s, Writer), WriterAlone(2 * (bound + 1));
      RunOne(cfg, s, Writer);
      RunAppend(cfg, s, [Writer], rest);
      StopPostsAgain(cfg, s', bound + 1);
      assert Run(cfg, s, [Writer] + rest).stop > bound;
    }
  }

  // ---- The reader ----

  /** Past its look at the stop token, so that it may still take one chunk. */
  ghost predicate MayTake(s: State) {
    s.r in {RTryData, RTake}
  }

  lemma StepAfterStop(cfg: Config, s: State, p: Process)
    requires Typed(cfg, s) && (s.stop > 0 || s.r == RDone)
    ensures var s' := Step(cfg, s, p);
            && (s'.stop > 0 || s'.r == RDone)
            && s.handed <= s'.handed && |s'.handed| + One(MayTake(s')) <= |s.handed| + One(MayTake(s))
  {}

  /** Once a stop token has been posted the reader looks at it before it takes anything more: it takes at most the one
      chunk it is already trying for, and nothing at all from any other point of its loop. */
  lemma {:induction false} StopTokenEndsReading(cfg: Config, s: State, schedule: Schedule)
    requires Typed(cfg, s) && (s.stop > 0 || s.r == RDone)
    ensures var s' := Run(cfg, s, schedule);
            s.handed <= s'.handed && |s'.handed| <= |s.handed| + One(MayTake(s))
    decreases |schedule|
  {
    hide Step, MayTake;
    if schedule == [] {
    } else {
      StepAfterStop(cfg, s, schedule[0]);
      StopTokenEndsReading(cfg, Step(cfg, s, schedule[0]), schedule[1..]);
    }
  }

  /** That one chunk it does take if it has been posted, whatever stop tokens there are by then. */
  lemma PostedIsTaken(cfg: Config, s: State)
    requires Typed(cfg, s) && s.r == RTryData && s.data > 0
    ensures var s' := Run(cfg, s, [Reader, Reader]);
            s'.handed == s.handed + [s.slot] && s'.stop == s.stop
  {
    hide Run, WriterStep;
    RunTwo(cfg, s, Reader, Reader);
  }
}
