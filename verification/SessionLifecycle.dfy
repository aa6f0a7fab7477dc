/** A session's life: one read at a time, one close, one completion. */
module SessionLifecycle {
  import opened Counting
  import opened Tokens
  import opened SessionSteps

  /** What can happen to a session after it is started once. */
  datatype Event = CallStop | CallShutdown | ReadEnds(r: ReadEnd)

  predicate Possible(s: Session, e: Event) {
    e.ReadEnds? ==> s.outstandingReads > 0
  }

  function Apply(s: Session, e: Event): Session
    requires Possible(s, e)
  {
    match e
    case CallStop => Stop(s)
    case CallShutdown => Shutdown(s)
    case ReadEnds(r) => OnRead(s, r)
  }

  predicate IsRun(s: Session, run: seq<Event>)
    decreases |run|
  {
    run == [] || (Possible(s, run[0]) && IsRun(Apply(s, run[0]), run[1..]))
  }

  function Execute(s: Session, run: seq<Event>): Session
    requires IsRun(s, run)
    decreases |run|
  {
    if run == [] then s else Execute(Apply(s, run[0]), run[1..])
  }

  predicate Books(s: Session) {
    && s.connected == !s.shutDown
    && s.notified == s.shutDown
    && (s.shutDown ==> s.stopped)
    && s.closes == Once(s.shutDown)
    && s.completions == Once(s.shutDown)
    && s.cancels == Once(s.stopped)
    && (s.handler == Unimplemented ==> s.shutDown)
  }

  /** A started session that has neither shut down nor thrown has exactly one read outstanding. */
  predicate Invariant(s: Session) {
    Books(s) && s.outstandingReads <= 1 && (!IsDone(s) ==> s.outstandingReads == 1)
  }

  lemma TokenBooks(s: Session, t: XmlToken, env: Environment)
    requires Books(s) && !IsDone(s)
    ensures var s' := OnXmlToken(s, t, env);
            Books(s') && s'.outstandingReads == s.outstandingReads && (s'.stopped ==> s.stopped || s'.shutDown)
  {
    hide IsElement, IsBlankText, Opens, Closes;
  }

  lemma {:induction false} HearBooks(s: Session, ts: seq<XmlToken>, env: Environment)
    requires Books(s)
    ensures var s' := Hear(s, ts, env);
            Books(s') && s'.outstandingReads == s.outstandingReads && (s'.stopped ==> s.stopped || s'.shutDown)
    decreases |ts|
  {
    hide OnXmlToken, Books;
    if ts != [] && !IsDone(s) {
      TokenBooks(s, ts[0], env);
      HearBooks(OnXmlToken(s, ts[0], env), ts[1..], env);
    }
  }

  lemma ApplyInvariant(s: Session, e: Event)
    requires Invariant(s) && Possible(s, e)
    ensures Invariant(Apply(s, e))
  {
    hide Hear;
    if e.ReadEnds? && e.r.Tokens? {
      HearBooks(s.(outstandingReads := 0), e.r.ts, e.r.env);
    }
  }

  lemma {:induction false} RunInvariant(s: Session, run: seq<Event>)
    requires Invariant(s) && IsRun(s, run)
    ensures Invariant(Execute(s, run))
    decreases |run|
  {
    hide Apply, Invariant;
    if run != [] {
      ApplyInvariant(s, run[0]);
      RunInvariant(Apply(s, run[0]), run[1..]);
    }
  }

  /**
   * In every run of a started session: at most one read is outstanding; the connection is closed and
   * the owner told of completion at most once, and both exactly when the session has shut down; and
   * when no read is outstanding it has, unless an exception left it.
   */
  lemma CompletesOnce(run: seq<Event>)
    requires IsRun(Start(CREATED), run)
    ensures var s := Execute(Start(CREATED), run);
            && s.outstandingReads <= 1
            && s.closes == s.completions == Once(s.shutDown)
            && s.cancels == Once(s.stopped)
            && s.connected == !s.shutDown
            && (s.outstandingReads == 0 && !s.threw ==> s.shutDown)
  {
    RunInvariant(Start(CREATED), run);
  }

  /** After shutdown nothing is sent, closed, completed or read again. */
  lemma {:induction false} SilentAfterShutdown(s: Session, run: seq<Event>)
    requires Invariant(s) && s.shutDown && IsRun(s, run)
    ensures var s' := Execute(s, run);
            && s'.shutDown && s'.replies == s.replies && s'.upgrades == s.upgrades
            && s'.closes == s.closes && s'.completions == s.completions
            && s'.outstandingReads <= s.outstandingReads
    decreases |run|
  {
    hide Hear;
    if run != [] {
      ApplyInvariant(s, run[0]);
      SilentAfterShutdown(Apply(s, run[0]), run[1..]);
    }
  }
}
