/** With the posted steps first in, first out, as a strand runs them, writes are sent in their order. */
module ConnectionOrder {
  import opened Connection
  import opened Counting
  import opened ConnectionProperties
  import opened ConnectionRuns
  import opened Options
  import opened Sequences

  /** Work posted to the strand; the rest are operations in flight, which may end in any order. */
  predicate IsPosted(w: Work) {
    !(w == Handshake || w.Reading? || w.Writing? || w == Shutdown)
  }

  /** A posted step runs only when no other was posted before it. */
  predicate InTurn(m: Net, e: Event) {
    e.Occur? && e.index < |m.pending| && IsPosted(m.pending[e.index]) ==>
      forall j | 0 <= j < e.index :: !IsPosted(m.pending[j])
  }

  predicate IsStrandRun(m: Net, run: seq<Event>)
    requires IsOrderlyRun(m, run)
    decreases |run|
  {
    run == [] || (InTurn(m, run[0]) && IsStrandRun(Apply(m, run[0]), run[1..]))
  }

  /** The payloads waiting to be given to the transport, in order. */
  function Queue(ws: seq<Work>): seq<string> {
    if ws == [] then []
    else Queue(ws[..|ws| - 1]) + match ws[|ws| - 1] case WriteStep(data) => [data] case _ => []
  }

  /** What the calls of a run write, in order. */
  function Writes(run: seq<Event>): seq<string> {
    if run == [] then [] else (if run[0].CallWrite? then [run[0].data] else []) + Writes(run[1..])
  }

  lemma QueueSnoc(ws: seq<Work>, w: Work)
    ensures Queue(ws + [w]) == Queue(ws) + if w.WriteStep? then [w.data] else []
  {
    assert (ws + [w])[..|ws + [w]| - 1] == ws;
  }

  lemma {:induction false} QueueConcat(a: seq<Work>, b: seq<Work>)
    ensures Queue(a + b) == Queue(a) + Queue(b)
    decreases |b|
  {
    if b == [] {
      assert a + b == a;
    } else {
      var front, last := b[..|b| - 1], b[|b| - 1];
      QueueConcat(a, front);
      QueueSnoc(a + front, last);
      QueueSnoc(front, last);
      assert a + b == (a + front) + [last] && b == front + [last];
      hide Queue;
      Associate(Queue(a), Queue(front), if last.WriteStep? then [last.data] else []);
    }
  }

  lemma {:induction false} QueueOfOthers(ws: seq<Work>)
    requires forall j | 0 <= j < |ws| :: !ws[j].WriteStep?
    ensures Queue(ws) == []
  {
    if ws != [] { QueueOfOthers(ws[..|ws| - 1]); }
  }

  /** Taking out work that runs in its turn takes the first payload off the queue, or none. */
  lemma QueueWithout(ws: seq<Work>, i: nat)
    requires i < |ws|
    requires ws[i].WriteStep? ==> forall j | 0 <= j < i :: !ws[j].WriteStep?
    ensures Queue(ws) == (if ws[i].WriteStep? then [ws[i].data] else []) + Queue(Without(ws, i))
  {
    var a, w, b := ws[..i], ws[i], ws[i + 1..];
    CutAt(ws, i);
    if w.WriteStep? { QueueOfOthers(a); }
    QueueAround(a, w, b);
    hide Queue;
  }

  lemma QueueAround(a: seq<Work>, w: Work, b: seq<Work>)
    requires w.WriteStep? ==> Queue(a) == []
    ensures Queue(a + [w] + b) == (if w.WriteStep? then [w.data] else []) + Queue(a + b)
  {
    hide *;
    QueueConcat(a + [w], b);
    QueueSnoc(a, w);
    QueueConcat(a, b);
    Unit(Queue(a));
    Unit(Queue(a + b));
    Unit(Queue(b));
    if w.WriteStep? { Unit([w.data]); }
  }

  /** While open, everything written is sent or queued, in order; then what was sent is a prefix of it. */
  predicate Ordered(m: Net, written: seq<string>) {
    if IsOpen(m.state) then m.sent + Queue(m.pending) == written else m.sent <= written
  }

  /** `m'` is `m` with no write added, queued or sent, open only if `m` was. */
  predicate Passes(m: Net, m': Net) {
    m'.sent == m.sent && (IsOpen(m'.state) ==> IsOpen(m.state) && Queue(m'.pending) == Queue(m.pending))
  }

  lemma PassesOrdered(m: Net, m': Net, written: seq<string>)
    requires Ordered(m, written) && Passes(m, m')
    ensures Ordered(m', written)
  {
    hide Queue;
  }

  lemma ClosePasses(m: Net, c: Option<Callback>)
    ensures Passes(m, Close(m, c))
  {}

  lemma EndHandshakePasses(m: Net, c: Completion)
    requires Taken(m, Handshake)
    ensures Passes(m, EndHandshake(m, c))
  {
    ClosePasses(m.(handshaking := false), None);
    hide Queue, CallsOf, Close, Tally;
  }

  lemma RunWriteOrdered(m: Net, data: string, written: seq<string>)
    requires if IsOpen(m.state) then m.sent + ([data] + Queue(m.pending)) == written else m.sent <= written
    ensures Ordered(RunWrite(m, data), written)
  {
    QueueSnoc(m.pending, Writing(data));
    Associate(m.sent, [data], Queue(m.pending));
    assert Queue(m.pending) + [] == Queue(m.pending);
    hide Queue;
  }

  lemma HandlePasses(m: Net, w: Work, c: Completion)
    requires Taken(m, w) && !w.WriteStep?
    ensures Passes(m, Handle(m, w, c))
  {
    hide Close, EndHandshake, Queue, Tally, CallsOf, Announced;
    match w
    case UpgradeStep => QueueSnoc(m.pending, Handshake);
    case Handshake => EndHandshakePasses(m, c);
    case ReadStep(id) => QueueSnoc(m.pending, Reading(id));
    case Reading(id) => if c.Failed? { ClosePasses(m, Some(OnReadFailure(id, c.error))); }
    case Writing(_) => ClosePasses(m, None);
    case _ =>
  }

  lemma OccurOrdered(m: Net, e: Event, written: seq<string>)
    requires Invariant(m) && Possible(m, e) && e.Occur? && InTurn(m, e) && Ordered(m, written)
    ensures Ordered(Apply(m, e), written)
  {
    var w, m0 := m.pending[e.index], m.(pending := Without(m.pending, e.index));
    TakeOut(m, e.index);
    QueueWithout(m.pending, e.index);
    hide Queue, Handle, Taken, Invariant, Passes, Without;
    if w.WriteStep? {
      RunWriteOrdered(m0, w.data, written);
      assert Handle(m0, w, e.completion) == RunWrite(m0, w.data) by { HandleWrite(m0, w.data, e.completion); }
    } else {
      Unit(Queue(m0.pending));
      HandlePasses(m0, w, e.completion);
      PassesOrdered(m0, Handle(m0, w, e.completion), written);
    }
  }

  lemma HandleWrite(m: Net, data: string, c: Completion)
    ensures Handle(m, WriteStep(data), c) == RunWrite(m, data)
  {}

  lemma ApplyOrdered(m: Net, e: Event, written: seq<string>)
    requires Invariant(m) && Possible(m, e) && !Overlaps(m, e) && InTurn(m, e) && Ordered(m, written)
    ensures Ordered(Apply(m, e), written + if e.CallWrite? then [e.data] else [])
  {
    hide Queue, Handle, Close, Invariant;
    assert written + [] == written;
    match e
    case CallUpgrade => QueueSnoc(m.pending, UpgradeStep);
    case CallRead(id) => QueueSnoc(m.pending, ReadStep(id));
    case CallCancelRead => QueueSnoc(m.pending, CancelStep);
    case CallWrite(data) =>
      QueueSnoc(m.pending, WriteStep(data));
      Associate(m.sent, Queue(m.pending), [data]);
    case CallClose(c) =>
      var callback := if c.Some? then Some(OnClose(c.value)) else None;
      ClosePasses(m, callback);
      PassesOrdered(m, Close(m, callback), written);
    case Occur(i, c) => OccurOrdered(m, e, written);
  }

  lemma {:induction false} RunOrdered(m: Net, run: seq<Event>, written: seq<string>)
    requires Invariant(m) && IsOrderlyRun(m, run) && IsStrandRun(m, run) && Ordered(m, written)
    ensures Ordered(After(m, run), written + Writes(run))
    decreases |run|
  {
    hide Apply, Invariant, Ordered, InTurn;
    if run == [] {
      assert written + Writes(run) == written;
    } else {
      var now := if run[0].CallWrite? then [run[0].data] else [];
      ApplyInvariant(m, run[0]);
      ApplyOrdered(m, run[0], written);
      RunOrdered(Apply(m, run[0]), run[1..], written + now);
      Associate(written, now, Writes(run[1..]));
    }
  }

  /**
   * What the transport has been given is a prefix of what was written, in the order of the calls; while
   * the connection is open the rest is queued, in that order.
   */
  lemma SentInOrder(run: seq<Event>)
    requires IsOrderlyRun(ACCEPTED, run) && IsStrandRun(ACCEPTED, run)
    ensures var m := After(ACCEPTED, run);
            m.sent <= Writes(run) && (IsOpen(m.state) ==> m.sent + Queue(m.pending) == Writes(run))
  {
    AcceptedInvariant();
    assert [] + Writes(run) == Writes(run);
    RunOrdered(ACCEPTED, run, []);
    hide Execute;
  }
}
