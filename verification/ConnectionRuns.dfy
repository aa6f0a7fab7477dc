/** Theorems about whole runs of a connection. */
module ConnectionRuns {
  import opened Connection
  import opened Counting
  import opened Options
  import opened ConnectionProperties

  lemma {:induction false} OrderlyIsRun(m: Net, run: seq<Event>)
    requires IsOrderlyRun(m, run)
    ensures IsRun(m, run)
    decreases |run|
  {
    hide Apply;
    if run != [] { OrderlyIsRun(Apply(m, run[0]), run[1..]); }
  }

  /** The connection after an orderly run. */
  function After(m: Net, run: seq<Event>): Net
    requires IsOrderlyRun(m, run)
  {
    OrderlyIsRun(m, run);
    Execute(m, run)
  }

  lemma {:induction false} RunInvariant(m: Net, run: seq<Event>)
    requires Invariant(m) && IsOrderlyRun(m, run)
    ensures Invariant(After(m, run))
    decreases |run|
  {
    hide Apply, Invariant;
    if run != [] {
      ApplyInvariant(m, run[0]);
      RunInvariant(Apply(m, run[0]), run[1..]);
    }
  }

  lemma AcceptedInvariant()
    ensures Invariant(ACCEPTED)
  {}

  // ----- states only move forward

  function Rank(s: ConnectionState): nat {
    match s
    case Insecure => 0
    case Secure => 1
    case Closing => 2
    case Closed => 3
  }

  lemma CloseForward(m: Net, c: Option<Callback>)
    ensures Rank(m.state) <= Rank(Close(m, c).state)
  {}

  lemma EndHandshakeForward(m: Net, c: Completion)
    requires Taken(m, Handshake)
    ensures Rank(m.state) <= Rank(EndHandshake(m, c).state)
  {
    CloseForward(m.(handshaking := false), None);
    hide Tally, CallsOf, Close;
  }

  lemma HandleForward(m: Net, w: Work, c: Completion)
    requires Taken(m, w)
    ensures Rank(m.state) <= Rank(Handle(m, w, c).state)
  {
    hide Tally, CallsOf, Close, EndHandshake, Announced;
    match w
    case Handshake => EndHandshakeForward(m, c);
    case Reading(id) => if c.Failed? { CloseForward(m, Some(OnReadFailure(id, c.error))); }
    case Writing(_) => CloseForward(m, None);
    case _ =>
  }

  lemma StepForward(m: Net, e: Event)
    requires Invariant(m) && Possible(m, e) && !Overlaps(m, e)
    ensures Rank(m.state) <= Rank(Apply(m, e).state)
  {
    hide Tally, Handle, Close, Rank;
    match e
    case CallClose(None) => CloseForward(m, None);
    case CallClose(Some(id)) => CloseForward(m, Some(OnClose(id)));
    case Occur(i, c) =>
      TakeOut(m, i);
      HandleForward(m.(pending := Without(m.pending, i)), m.pending[i], c);
    case _ =>
  }

  /** INSECURE, SECURE, CLOSING, CLOSED: no orderly run goes back. */
  lemma {:induction false} ForwardOnly(m: Net, run: seq<Event>)
    requires Invariant(m) && IsOrderlyRun(m, run)
    ensures Rank(m.state) <= Rank(After(m, run).state)
    decreases |run|
  {
    hide Apply, Invariant, Rank;
    if run != [] {
      ApplyInvariant(m, run[0]);
      StepForward(m, run[0]);
      ForwardOnly(Apply(m, run[0]), run[1..]);
    }
  }

  lemma RunCons(m: Net, e: Event, rest: seq<Event>)
    requires Possible(m, e) && IsRun(Apply(m, e), rest)
    ensures IsRun(m, [e] + rest) && Execute(m, [e] + rest) == Execute(Apply(m, e), rest)
  {
    hide Apply, Possible;
    assert ([e] + rest)[1..] == rest;
  }

  lemma {:induction false} RunConcat(m: Net, a: seq<Event>, b: seq<Event>)
    requires IsRun(m, a) && IsRun(Execute(m, a), b)
    ensures IsRun(m, a + b) && Execute(m, a + b) == Execute(Execute(m, a), b)
    decreases |a|
  {
    hide Apply, Possible;
    if a == [] {
      assert a + b == b;
    } else {
      assert (a + b)[1..] == a[1..] + b;
      RunConcat(Apply(m, a[0]), a[1..], b);
    }
  }

  lemma ThreeSteps(m: Net, e1: Event, e2: Event, e3: Event)
    requires Possible(m, e1)
    requires Possible(Apply(m, e1), e2)
    requires Possible(Apply(Apply(m, e1), e2), e3)
    ensures var run := [e1] + ([e2] + ([e3] + []));
            && IsRun(m, run) && IsRun(m, run[..2])
            && Execute(m, run[..2]) == Apply(Apply(m, e1), e2)
            && Execute(m, run) == Apply(Apply(Apply(m, e1), e2), e3)
  {
    hide Apply, Possible;
    RunCons(Apply(Apply(m, e1), e2), e3, []);
    RunCons(Apply(m, e1), e2, [e3] + []);
    RunCons(m, e1, [e2] + ([e3] + []));
    RunCons(Apply(m, e1), e2, []);
    RunCons(m, e1, [e2] + []);
    var run := [e1] + ([e2] + ([e3] + []));
    assert run[..2] == [e1] + ([e2] + []);
  }

  lemma WithoutLast(ws: seq<Work>, w: Work)
    ensures Without(ws + [w], |ws|) == ws
  {}

  /** With two handshakes in flight, one failing and one succeeding around the close step reopens the connection. */
  lemma SecondHandshakeReopens(m: Net, ws: seq<Work>, j: nat)
    requires j < |ws| && ws[j] == Handshake && m.pending == ws + [Handshake] && m.state == Insecure
    ensures var run := [Occur(|ws|, Failed(0))] + ([Occur(|ws|, Failed(0))] + ([Occur(j, Succeeded(""))] + []));
            && IsRun(m, run) && IsRun(m, run[..2])
            && Execute(m, run[..2]).state == Closed && Execute(m, run).state == Secure
  {
    WithoutLast(ws, Handshake);
    WithoutLast(ws, CloseStep);
    var m1 := Apply(m, Occur(|ws|, Failed(0)));
    assert m1.pending == ws + [CloseStep] && m1.state == Closing && !m1.handshaking;
    var m2 := Apply(m1, Occur(|ws|, Failed(0)));
    assert m2.pending == ws && m2.state == Closed;
    hide Without, CallsOf;
    ThreeSteps(m, Occur(|ws|, Failed(0)), Occur(|ws|, Failed(0)), Occur(j, Succeeded("")));
  }

  /**
   * The assumption is needed: wherever an upgrade step overlaps a handshake, three more handlers
   * can take the connection to CLOSED and from there to SECURE.
   */
  lemma OverlapReopens(m: Net, e: Event)
    requires Invariant(m) && Overlaps(m, e)
    ensures exists run ::
              && |run| == 3 && IsRun(Apply(m, e), run) && IsRun(Apply(m, e), run[..2])
              && Execute(Apply(m, e), run[..2]).state == Closed
              && Execute(Apply(m, e), run).state == Secure
  {
    var ws := Without(m.pending, e.index);
    TallyWithout(m.pending, e.index, Handshake);
    assert Handshake in multiset(ws);
    var j :| 0 <= j < |ws| && ws[j] == Handshake;
    SecondHandshakeReopens(Apply(m, e), ws, j);
  }

  // ----- the close protocol

  /** A posted close step never meets an open connection, and TLS shutdown is never started. */
  lemma CloseStepNeverSecure(run: seq<Event>)
    requires IsOrderlyRun(ACCEPTED, run)
    ensures var m := After(ACCEPTED, run);
            (CloseStep in m.pending ==> m.state == Closing || m.state == Closed) && Shutdown !in m.pending
  {
    AcceptedInvariant();
    RunInvariant(ACCEPTED, run);
  }

  /** A close callback runs only once the connection is CLOSED; none is left waiting then. */
  lemma CloseCallbacksAfterClosed(run: seq<Event>, id: nat)
    requires IsOrderlyRun(ACCEPTED, run)
    ensures var m := After(ACCEPTED, run);
            && (CloseCall(id) in m.calls ==> m.state == Closed)
            && (m.state == Closed ==> m.closeCallbacks == [] && Waiting(m, Closer(id)) == 0)
  {
    AcceptedInvariant();
    RunInvariant(ACCEPTED, run);
    NoClosersInWork(After(ACCEPTED, run).pending, id);
  }

  lemma {:induction false} NoClosersInWork(ws: seq<Work>, id: nat)
    ensures Count(ws, OfWork, Closer(id)) == 0
  {
    if ws != [] { NoClosersInWork(ws[..|ws| - 1], id); }
  }

  predicate OnlyHandlers(run: seq<Event>) {
    forall e | e in run :: e.Occur?
  }

  /** Once closing, every handler that runs leaves exactly one piece of work fewer. */
  lemma ClosingShrinks(m: Net, e: Event)
    requires Invariant(m) && !IsOpen(m.state) && e.Occur? && Possible(m, e)
    ensures !Overlaps(m, e) && !IsOpen(Apply(m, e).state) && |Apply(m, e).pending| == |m.pending| - 1
  {
    TallyWithout(m.pending, e.index, Handshake);
    TallyWithout(m.pending, e.index, Shutdown);
    hide Tally, Without, CallsOf;
  }

  /** Draining whatever is pending, in any order and with any outcomes, ends CLOSED with nobody waiting. */
  lemma {:induction false} ClosingDrains(m: Net, run: seq<Event>)
    requires Invariant(m) && !IsOpen(m.state)
    requires OnlyHandlers(run) && IsRun(m, run)
    ensures |run| <= |m.pending|
    ensures |run| == |m.pending| ==>
              var end := Execute(m, run);
              end.state == Closed && end.pending == [] && forall k :: Waiting(end, k) == 0
    decreases |run|
  {
    hide Apply, Invariant;
    if run != [] {
      var e := run[0];
      assert e in run;
      assert OnlyHandlers(run[1..]) by { assert forall x | x in run[1..] :: x in run; }
      ClosingShrinks(m, e);
      ApplyInvariant(m, e);
      ClosingDrains(Apply(m, e), run[1..]);
    } else if m.pending == [] {
      ClosedWhenIdle(m);
    }
  }

  /** With nothing pending the connection is open or CLOSED, and nobody waits. */
  lemma ClosedWhenIdle(m: Net)
    requires Invariant(m) && m.pending == []
    ensures m.state != Closing
    ensures forall k :: Waiting(m, k) == 0
  {
    hide Announced;
  }

  /** Once no work is pending every read and close callback ever handed in has been invoked, exactly as often. */
  lemma EveryCallbackInvoked(run: seq<Event>, k: Client)
    requires IsOrderlyRun(ACCEPTED, run) && After(ACCEPTED, run).pending == []
    ensures Answered(After(ACCEPTED, run), k) == Requested(run, k)
  {
    AcceptedInvariant();
    RunInvariant(ACCEPTED, run);
    OrderlyIsRun(ACCEPTED, run);
    CallbacksConserved(ACCEPTED, run, k);
    ClosedWhenIdle(After(ACCEPTED, run));
  }

  // ----- handlers always come to rest

  function WorkWeight(w: Work): nat {
    match w
    case UpgradeStep => 2
    case ReadStep(_) => 2
    case WriteStep(_) => 2
    case _ => 1
  }

  function Weight(ws: seq<Work>): nat {
    if ws == [] then 0 else Weight(ws[..|ws| - 1]) + WorkWeight(ws[|ws| - 1])
  }

  lemma {:induction false} WeightConcat(a: seq<Work>, b: seq<Work>)
    ensures Weight(a + b) == Weight(a) + Weight(b)
    decreases |b|
  {
    if b == [] {
      assert a + b == a;
    } else {
      assert (a + b)[..|a + b| - 1] == a + b[..|b| - 1];
      WeightConcat(a, b[..|b| - 1]);
    }
  }

  lemma WeightPost(ws: seq<Work>, w: Work)
    ensures Weight(ws + [w]) == Weight(ws) + WorkWeight(w)
  {
    assert (ws + [w])[..|ws + [w]| - 1] == ws;
  }

  lemma WeightWithout(ws: seq<Work>, i: nat)
    requires i < |ws|
    ensures Weight(ws) == Weight(Without(ws, i)) + WorkWeight(ws[i])
  {
    hide Weight, WorkWeight;
    var a, w, b := ws[..i], ws[i], ws[i + 1..];
    CutAt(ws, i);
    WeightConcat(a + [w], b);
    WeightPost(a, w);
    WeightConcat(a, b);
  }

  /** How many more handlers can run before the next call into the connection. */
  function Energy(m: Net): nat {
    Weight(m.pending) + if IsOpen(m.state) then 2 else 0
  }

  lemma CloseEnergy(m: Net, c: Option<Callback>)
    ensures Energy(Close(m, c)) <= Energy(m)
  {
    WeightPost(m.pending, CloseStep);
  }

  lemma HandleEnergy(m: Net, w: Work, c: Completion)
    requires Taken(m, w) && w != Shutdown
    ensures Energy(Handle(m, w, c)) < Energy(m) + WorkWeight(w)
  {
    hide Tally, Weight, Close, CallsOf, Announced;
    match w
    case UpgradeStep => WeightPost(m.pending, Handshake);
    case Handshake => CloseEnergy(m.(handshaking := false), None);
    case ReadStep(id) => WeightPost(m.pending, Reading(id));
    case Reading(id) => if c.Failed? { CloseEnergy(m, Some(OnReadFailure(id, c.error))); }
    case WriteStep(data) => WeightPost(m.pending, Writing(data));
    case Writing(_) => CloseEnergy(m, None);
    case CloseStep => RunCloseInvariant(m);
    case CancelStep =>
  }

  lemma OccurEnergy(m: Net, e: Event)
    requires Invariant(m) && Possible(m, e) && e.Occur?
    ensures Energy(Apply(m, e)) < Energy(m)
  {
    hide Weight, WorkWeight, Handle, Tally;
    WeightWithout(m.pending, e.index);
    TakeOut(m, e.index);
    HandleEnergy(m.(pending := Without(m.pending, e.index)), m.pending[e.index], e.completion);
  }

  /** No schedule of handlers goes on for ever: its length is bounded by what is pending at its start. */
  lemma {:induction false} HandlersTerminate(m: Net, run: seq<Event>)
    requires Invariant(m) && IsOrderlyRun(m, run) && OnlyHandlers(run)
    ensures |run| <= Energy(m)
    decreases |run|
  {
    hide Apply, Invariant, Energy;
    if run != [] {
      assert run[0] in run;
      assert OnlyHandlers(run[1..]) by { assert forall x | x in run[1..] :: x in run; }
      OccurEnergy(m, run[0]);
      ApplyInvariant(m, run[0]);
      HandlersTerminate(Apply(m, run[0]), run[1..]);
    }
  }
}
