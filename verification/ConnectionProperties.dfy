/** What every run of a connection keeps: callbacks conserved, states in order, closing that ends. */
module ConnectionProperties {
  import opened Connection
  import opened Counting
  import opened Options

  // ----- conservation of callbacks

  /** Who is waiting to be called. */
  datatype Client = Reader(id: nat) | Closer(id: nat)

  predicate Is(o: Option<Client>, k: Client) {
    o == Some(k)
  }

  function One(o: Option<Client>, k: Client): nat {
    if Is(o, k) then 1 else 0
  }

  /** How many entries of `s` belong to client `k`. */
  function Count<T>(s: seq<T>, f: T -> Option<Client>, k: Client): nat {
    if s == [] then 0 else Count(s[..|s| - 1], f, k) + One(f(s[|s| - 1]), k)
  }

  lemma {:induction false} CountConcat<T>(a: seq<T>, b: seq<T>, f: T -> Option<Client>, k: Client)
    ensures Count(a + b, f, k) == Count(a, f, k) + Count(b, f, k)
    decreases |b|
  {
    if b == [] {
      assert a + b == a;
    } else {
      assert (a + b)[..|a + b| - 1] == a + b[..|b| - 1];
      CountConcat(a, b[..|b| - 1], f, k);
    }
  }

  lemma CountSnoc<T>(a: seq<T>, x: T, f: T -> Option<Client>, k: Client)
    ensures Count(a + [x], f, k) == Count(a, f, k) + One(f(x), k)
  {
    assert (a + [x])[..|a + [x]| - 1] == a;
  }

  lemma CountWithout(ws: seq<Work>, i: nat, f: Work -> Option<Client>, k: Client)
    requires i < |ws|
    ensures Count(ws, f, k) == Count(Without(ws, i), f, k) + One(f(ws[i]), k)
  {
    hide Count, One;
    var a, w, b := ws[..i], ws[i], ws[i + 1..];
    CutAt(ws, i);
    CountConcat(a + [w], b, f, k);
    CountSnoc(a, w, f, k);
    CountConcat(a, b, f, k);
  }

  function OfWork(w: Work): Option<Client> {
    match w
    case ReadStep(id) => Some(Reader(id))
    case Reading(id) => Some(Reader(id))
    case _ => None
  }

  function OfCallback(c: Callback): Option<Client> {
    match c
    case OnClose(id) => Some(Closer(id))
    case OnReadFailure(id, _) => Some(Reader(id))
  }

  function OfCall(c: Call): Option<Client> {
    match c
    case CloseCall(id) => Some(Closer(id))
    case ReadCall(id, _) => Some(Reader(id))
  }

  function OfEvent(e: Event): Option<Client> {
    match e
    case CallRead(id) => Some(Reader(id))
    case CallClose(Some(id)) => Some(Closer(id))
    case _ => None
  }

  /** How often `k` is waiting: in a posted step, an operation in flight or the close-callback list. */
  function Waiting(m: Net, k: Client): nat {
    Count(m.pending, OfWork, k) + Count(m.closeCallbacks, OfCallback, k)
  }

  /** How often `k` has been called. */
  function Answered(m: Net, k: Client): nat {
    Count(m.calls, OfCall, k)
  }

  function Places(m: Net, k: Client): nat {
    Waiting(m, k) + Answered(m, k)
  }

  lemma {:induction false} CallsAnswer(cs: seq<Callback>, k: Client)
    ensures Count(CallsOf(cs), OfCall, k) == Count(cs, OfCallback, k)
    decreases |cs|
  {
    if cs != [] {
      var front, last := cs[..|cs| - 1], cs[|cs| - 1];
      CallsAnswer(front, k);
      CountSnoc(CallsOf(front), CallOf(last), OfCall, k);
    }
  }

  lemma PostPlaces(m: Net, w: Work, k: Client)
    ensures Places(Post(m, w), k) == Places(m, k) + One(OfWork(w), k)
  {
    CountSnoc(m.pending, w, OfWork, k);
  }

  lemma InvokePlaces(m: Net, c: Call, k: Client)
    ensures Places(Invoke(m, c), k) == Places(m, k) + One(OfCall(c), k)
  {
    CountSnoc(m.calls, c, OfCall, k);
  }

  lemma FinishPlaces(m: Net, k: Client)
    ensures Places(Finish(m), k) == Places(m, k)
  {
    CallsAnswer(m.closeCallbacks, k);
    CountConcat(m.calls, CallsOf(m.closeCallbacks), OfCall, k);
  }

  lemma ClosePlaces(m: Net, c: Option<Callback>, k: Client)
    ensures Places(Close(m, c), k) == Places(m, k) + if c.Some? then One(OfCallback(c.value), k) else 0
  {
    hide Count;
    if c.Some? {
      InvokePlaces(m, CallOf(c.value), k);
      CountSnoc(m.closeCallbacks, c.value, OfCallback, k);
      var m1 := m.(closeCallbacks := m.closeCallbacks + [c.value]);
      PostPlaces(Announce(m1, Closing), CloseStep, k);
    }
    PostPlaces(Announce(m, Closing), CloseStep, k);
  }

  lemma EndHandshakePlaces(m: Net, c: Completion, k: Client)
    ensures Places(EndHandshake(m, c), k) == Places(m, k)
  {
    hide Close, Finish, Count;
    FinishPlaces(m.(handshaking := false, transportOpen := false), k);
    ClosePlaces(m.(handshaking := false), None, k);
  }

  lemma ReadPlaces(m: Net, id: nat, c: Completion, k: Client)
    ensures Places(RunRead(m, id), k) == Places(m, k) + One(Some(Reader(id)), k)
    ensures Places(EndRead(m, id, c), k) == Places(m, k) + One(Some(Reader(id)), k)
  {
    hide Close, Count, Places;
    PostPlaces(m, Reading(id), k);
    InvokePlaces(m, ReadCall(id, Error(OPERATION_ABORTED)), k);
    if c.Failed? {
      ClosePlaces(m, Some(OnReadFailure(id, c.error)), k);
    } else {
      InvokePlaces(m, ReadCall(id, Data(c.bytes)), k);
    }
  }

  lemma RunClosePlaces(m: Net, k: Client)
    ensures Places(RunClose(m), k) == Places(m, k)
    ensures Places(EndShutdown(m), k) == Places(m, k)
  {
    hide Finish, Count;
    PostPlaces(m, Shutdown, k);
    FinishPlaces(m.(transportOpen := m.transportOpen && m.tls), k);
    FinishPlaces(m.(transportOpen := m.transportOpen && !m.tls), k);
  }

  lemma HandlePlaces(m: Net, w: Work, c: Completion, k: Client)
    ensures Places(Handle(m, w, c), k) == Places(m, k) + One(OfWork(w), k)
  {
    hide Close, RunClose, EndShutdown, EndHandshake, RunRead, EndRead, Count;
    match w
    case UpgradeStep =>
      PostPlaces(m.(tls := true, handshaking := true, transportOpen := m.transportOpen && !m.tls), Handshake, k);
    case Handshake => EndHandshakePlaces(m, c, k);
    case ReadStep(id) => ReadPlaces(m, id, c, k);
    case Reading(id) => ReadPlaces(m, id, c, k);
    case WriteStep(data) => PostPlaces(m.(sent := m.sent + [data]), Writing(data), k);
    case Writing(_) => ClosePlaces(m, None, k);
    case CloseStep => RunClosePlaces(m, k);
    case Shutdown => RunClosePlaces(m, k);
    case CancelStep =>
  }

  /** One step moves a callback from one place to another, or to an invocation; only calls add any. */
  lemma ApplyPlaces(m: Net, e: Event, k: Client)
    requires Possible(m, e)
    ensures Places(Apply(m, e), k) == Places(m, k) + One(OfEvent(e), k)
  {
    hide Handle, Close, Count;
    match e
    case CallUpgrade => PostPlaces(m, UpgradeStep, k);
    case CallRead(id) =>
      PostPlaces(m, ReadStep(id), k);
      InvokePlaces(m, ReadCall(id, Error(OPERATION_ABORTED)), k);
    case CallCancelRead => PostPlaces(m, CancelStep, k);
    case CallWrite(data) => PostPlaces(m, WriteStep(data), k);
    case CallClose(None) => ClosePlaces(m, None, k);
    case CallClose(Some(id)) => ClosePlaces(m, Some(OnClose(id)), k);
    case Occur(i, c) =>
      CountWithout(m.pending, i, OfWork, k);
      HandlePlaces(m.(pending := Without(m.pending, i)), m.pending[i], c, k);
  }

  /** How often the calls of a run hand in a callback for `k`. */
  function Requested(run: seq<Event>, k: Client): nat {
    if run == [] then 0 else One(OfEvent(run[0]), k) + Requested(run[1..], k)
  }

  /**
   * Along every run, overlapping upgrades included, every callback handed in has been invoked or
   * is waiting in exactly one place: none is lost, none doubled.
   */
  lemma {:induction false} CallbacksConserved(m: Net, run: seq<Event>, k: Client)
    requires IsRun(m, run)
    ensures Waiting(Execute(m, run), k) + Answered(Execute(m, run), k) == Places(m, k) + Requested(run, k)
    decreases |run|
  {
    hide Apply, Waiting, Answered;
    if run != [] {
      ApplyPlaces(m, run[0], k);
      CallbacksConserved(Apply(m, run[0]), run[1..], k);
    }
  }

  // ----- runs in which no upgrade step overlaps a handshake

  /** The announcements behind a state. Only a close that began during a handshake announces CLOSED twice. */
  predicate Announced(m: Net, closeSteps: nat) {
    match m.state
    case Insecure => m.changes == []
    case Secure => m.changes == [Secure]
    case Closing => m.changes == [Closing] || (m.changes == [Secure, Closing] && m.tls && !m.handshaking)
    case Closed =>
      || m.changes == [Closing, Closed]
      || (m.changes == [Secure, Closing, Closed] && m.tls && closeSteps == 0)
      || (m.changes == [Closing, Closed, Closed] && m.tls && closeSteps == 0)
  }

  /** The invariant, given how many handshakes, close steps and shutdowns are pending. */
  predicate Sound(m: Net, handshakes: nat, closeSteps: nat, shutdowns: nat) {
    && Announced(m, closeSteps)
    && handshakes == (if m.handshaking then 1 else 0)
    && closeSteps <= 1
    && shutdowns == 0
    && (m.handshaking ==> m.tls && (m.state == Insecure || m.state == Closing))
    && (m.state == Secure ==> m.tls)
    && (m.state == Insecure && m.tls ==> m.handshaking)
    && (IsOpen(m.state) ==> closeSteps == 0 && m.closeCallbacks == [])
    && (m.state == Closing ==> closeSteps == 1 || m.handshaking)
    && (m.state == Closed ==> m.closeCallbacks == [] && (closeSteps == 1 ==> m.tls))
    && (m.state != Closed ==> forall c | c in m.calls :: !c.CloseCall?)
  }

  predicate Invariant(m: Net) {
    Sound(m, Tally(m.pending, Handshake), Tally(m.pending, CloseStep), Tally(m.pending, Shutdown))
  }

  /** `m` without one `w`, which is about to run. */
  predicate Taken(m: Net, w: Work) {
    Sound(m, Tally(m.pending, Handshake) + (if w == Handshake then 1 else 0),
          Tally(m.pending, CloseStep) + (if w == CloseStep then 1 else 0),
          Tally(m.pending, Shutdown) + (if w == Shutdown then 1 else 0))
  }

  lemma TakeOut(m: Net, i: nat)
    requires Invariant(m) && i < |m.pending|
    ensures Taken(m.(pending := Without(m.pending, i)), m.pending[i])
  {
    TallyWithout(m.pending, i, Handshake);
    TallyWithout(m.pending, i, CloseStep);
    TallyWithout(m.pending, i, Shutdown);
    hide Tally, Without, Announced;
  }

  /** Posting work other than the three kinds that are counted, or answering a read, changes nothing. */
  lemma PostInvariant(m: Net, w: Work)
    requires Invariant(m) && w !in {Handshake, CloseStep, Shutdown}
    ensures Invariant(Post(m, w))
  {
    TallySnoc(m.pending, w, Handshake);
    TallySnoc(m.pending, w, CloseStep);
    TallySnoc(m.pending, w, Shutdown);
  }

  lemma InvokeInvariant(m: Net, id: nat, r: ReadResult)
    requires Invariant(m)
    ensures Invariant(Invoke(m, ReadCall(id, r)))
  {
    hide Tally;
  }

  /** Closing restores the invariant also when a handshake has just failed. */
  lemma CloseInvariant(m: Net, c: Option<Callback>)
    requires Invariant(m) || (m.state == Insecure && !m.handshaking && Invariant(m.(tls := false)))
    ensures Invariant(Close(m, c))
  {
    TallySnoc(m.pending, CloseStep, Handshake);
    TallySnoc(m.pending, CloseStep, CloseStep);
    TallySnoc(m.pending, CloseStep, Shutdown);
    hide Tally;
  }

  lemma EndHandshakeInvariant(m: Net, c: Completion)
    requires Taken(m, Handshake)
    ensures Invariant(EndHandshake(m, c))
  {
    hide Tally, Close;
    if m.state == Insecure && c.Failed? { CloseInvariant(m.(handshaking := false), None); }
  }

  lemma RunUpgradeInvariant(m: Net)
    requires Invariant(m) && !(m.handshaking && m.state == Insecure)
    ensures Invariant(RunUpgrade(m))
  {
    TallySnoc(m.pending, Handshake, Handshake);
    TallySnoc(m.pending, Handshake, CloseStep);
    TallySnoc(m.pending, Handshake, Shutdown);
    hide Tally;
  }

  /** The posted close step finds the connection CLOSING or CLOSED, so no TLS shutdown is ever started. */
  lemma RunCloseInvariant(m: Net)
    requires Taken(m, CloseStep)
    ensures !IsOpen(m.state)
    ensures Invariant(RunClose(m))
  {
    hide Tally, CallsOf;
  }

  lemma HandleInvariant(m: Net, w: Work, c: Completion)
    requires Taken(m, w)
    requires !(w == UpgradeStep && m.handshaking && m.state == Insecure)
    ensures Invariant(Handle(m, w, c))
  {
    hide Close, Tally, EndHandshake, RunUpgrade, RunCancel, RunClose, Sound, EndShutdown;
    match w
    case UpgradeStep => RunUpgradeInvariant(m);
    case Handshake => EndHandshakeInvariant(m, c);
    case ReadStep(id) =>
      PostInvariant(m, Reading(id));
      InvokeInvariant(m, id, Error(OPERATION_ABORTED));
    case Reading(id) =>
      if c.Failed? {
        CloseInvariant(m, Some(OnReadFailure(id, c.error)));
      } else {
        InvokeInvariant(m, id, Data(c.bytes));
      }
    case WriteStep(data) => SentInvariant(m, data);
    case Writing(_) => CloseInvariant(m, None);
    case CloseStep => RunCloseInvariant(m);
    case Shutdown => NoShutdown(m);
    case CancelStep => CancelInvariant(m);
  }

  lemma SentInvariant(m: Net, data: string)
    requires Invariant(m)
    ensures Invariant(RunWrite(m, data))
  {
    PostInvariant(m, Writing(data));
    hide Tally;
  }

  lemma CancelInvariant(m: Net)
    requires Invariant(m)
    ensures Invariant(RunCancel(m))
  {}

  lemma NoShutdown(m: Net)
    ensures !Taken(m, Shutdown)
  {}

  lemma ApplyInvariant(m: Net, e: Event)
    requires Possible(m, e) && !Overlaps(m, e) && Invariant(m)
    ensures Invariant(Apply(m, e))
  {
    hide Handle, Close, Tally;
    match e
    case CallUpgrade => PostInvariant(m, UpgradeStep);
    case CallRead(id) =>
      PostInvariant(m, ReadStep(id));
      InvokeInvariant(m, id, Error(OPERATION_ABORTED));
    case CallCancelRead => PostInvariant(m, CancelStep);
    case CallWrite(data) => PostInvariant(m, WriteStep(data));
    case CallClose(None) => CloseInvariant(m, None);
    case CallClose(Some(id)) => CloseInvariant(m, Some(OnClose(id)));
    case Occur(i, c) =>
      TakeOut(m, i);
      HandleInvariant(m.(pending := Without(m.pending, i)), m.pending[i], c);
  }
}
