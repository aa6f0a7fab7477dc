/**
 * Ownership of client sessions. Each section the manager runs under its callback lock, and each
 * handler the I/O context runs for it, is one step.
 */
module ConnectionManager {
  import opened Counting
  import opened Sequences

  /** How far the destructor has got. */
  datatype Phase = Running | Flagged | Swapped | Drained

  /** What the manager does with a session: `Hook` installs its two callbacks, `Unhook` clears that of completion. */
  datatype Action =
    | Hook(id: nat)
    | Start(id: nat)
    | Stop(id: nat)
    | HandOver(id: nat)
    | Unhook(id: nat)
    | ShutDown(id: nat)

  /**
   * `registered` is the session vector, `posted` the deletions handed to the I/O context, `held` the
   * vector the destructor swapped out, of which it has told the first `told` to shut down, `deleted`
   * the sessions deleted so far, and `log` what has been done with sessions.
   */
  datatype Manager = Manager(
    phase: Phase,
    registered: seq<nat>,
    posted: seq<nat>,
    held: seq<nat>,
    told: nat,
    deleted: seq<nat>,
    refused: nat,
    log: seq<Action>)

  const NEW := Manager(Running, [], [], [], 0, [], 0, [])

  /** A connection accepted once shutdown has begun is deleted on the spot, without a session. */
  function Accept(m: Manager, id: nat): Manager {
    if m.phase != Running then m.(refused := m.refused + 1)
    else m.(registered := m.registered + [id], log := m.log + [Hook(id)] + [Start(id)])
  }

  /** The state callback, when a session's connection reports CLOSED. */
  function Disconnect(m: Manager, id: nat): Manager {
    if m.phase != Running then m else m.(log := m.log + [Stop(id)])
  }

  /** The completion callback. A session that is no longer registered has been handed over already. */
  function Complete(m: Manager, id: nat): Manager {
    var i := IndexOf(m.registered, id);
    if m.phase != Running || i == |m.registered| then m
    else m.(registered := Without(m.registered, i), posted := m.posted + [id], log := m.log + [HandOver(id)])
  }

  function RunDeletion(m: Manager, i: nat): Manager
    requires i < |m.posted|
  {
    m.(posted := Without(m.posted, i), deleted := m.deleted + [m.posted[i]])
  }

  /** The destructor clears the next held session's callback and shuts the session down. */
  function Tell(m: Manager): Manager
    requires m.told < |m.held|
  {
    m.(told := m.told + 1, log := m.log + [Unhook(m.held[m.told])] + [ShutDown(m.held[m.told])])
  }

  datatype Event =
    | Accepted(id: nat)
    | Disconnected(id: nat)
    | Completed(id: nat)
    | DeletionRuns(i: nat)
    | DestructorFlags
    | DestructorSwaps
    | DestructorTells
    | DestructorDrains
    | DestructorDeletes

  predicate IsFresh(m: Manager, id: nat) {
    id !in m.registered && id !in m.posted && id !in m.held && id !in m.deleted
  }

  /** The drain begins when every held session has been told, and returns once the I/O context has no work left. */
  predicate Possible(m: Manager, e: Event) {
    match e
    case Accepted(id) => IsFresh(m, id)
    case Disconnected(_) => true
    case Completed(_) => true
    case DeletionRuns(i) => i < |m.posted|
    case DestructorFlags => m.phase == Running
    case DestructorSwaps => m.phase == Flagged
    case DestructorTells => m.phase == Swapped && m.told < |m.held|
    case DestructorDrains => m.phase == Swapped && m.told == |m.held| && m.posted == []
    case DestructorDeletes => m.phase == Drained && m.held != []
  }

  function Apply(m: Manager, e: Event): Manager
    requires Possible(m, e)
  {
    match e
    case Accepted(id) => Accept(m, id)
    case Disconnected(id) => Disconnect(m, id)
    case Completed(id) => Complete(m, id)
    case DeletionRuns(i) => RunDeletion(m, i)
    case DestructorFlags => m.(phase := Flagged)
    case DestructorSwaps => m.(phase := Swapped, held := m.registered, registered := [])
    case DestructorTells => Tell(m)
    case DestructorDrains => m.(phase := Drained)
    case DestructorDeletes =>
      m.(held := m.held[1..], told := if m.told > 0 then m.told - 1 else 0, deleted := m.deleted + [m.held[0]])
  }

  predicate IsRun(m: Manager, run: seq<Event>)
    decreases |run|
  {
    run == [] || (Possible(m, run[0]) && IsRun(Apply(m, run[0]), run[1..]))
  }

  function Execute(m: Manager, run: seq<Event>): Manager
    requires IsRun(m, run)
    decreases |run|
  {
    if run == [] then m else Execute(Apply(m, run[0]), run[1..])
  }

  /** Whether a step makes the session `id`. */
  predicate Makes(m: Manager, e: Event, id: nat) {
    e == Accepted(id) && m.phase == Running
  }

  /** How often a run makes the session `id`. */
  function Made(m: Manager, run: seq<Event>, id: nat): nat
    requires IsRun(m, run)
    decreases |run|
  {
    if run == [] then 0 else Once(Makes(m, run[0], id)) + Made(Apply(m, run[0]), run[1..], id)
  }

  lemma TallyFirst(s: seq<nat>, id: nat)
    requires s != []
    ensures Tally(s, id) == Tally(s[1..], id) + Once(s[0] == id)
  {
    assert s == [s[0]] + s[1..];
  }

  /** In how many places, with multiplicity, the session `id` is. */
  function Places(m: Manager, id: nat): nat {
    Tally(m.registered, id) + Tally(m.posted, id) + Tally(m.held, id) + Tally(m.deleted, id)
  }

  ghost predicate Invariant(m: Manager) {
    && (forall id :: Places(m, id) <= 1)
    && m.told <= |m.held|
    && (m.phase == Running || m.phase == Flagged ==> m.held == [])
    && (m.phase == Swapped || m.phase == Drained ==> m.registered == [])
    && (m.phase == Drained ==> m.posted == [] && m.told == |m.held|)
  }

  lemma ApplyPlaces(m: Manager, e: Event, id: nat)
    requires Possible(m, e) && (e == DestructorSwaps ==> m.held == [])
    ensures Places(Apply(m, e), id) == Places(m, id) + Once(Makes(m, e, id))
  {
    hide Tally, Without, IndexOf;
    match e
    case Accepted(x) => TallySnoc(m.registered, x, id);
    case Completed(x) =>
      if IndexOf(m.registered, x) < |m.registered| { TallyWithout(m.registered, IndexOf(m.registered, x), id); }
      TallySnoc(m.posted, x, id);
    case DeletionRuns(i) =>
      TallyWithout(m.posted, i, id);
      TallySnoc(m.deleted, m.posted[i], id);
    case DestructorDeletes =>
      TallyFirst(m.held, id);
      TallySnoc(m.deleted, m.held[0], id);
    case DestructorSwaps => TallyEmpty(id);
    case _ =>
  }

  lemma FreshPlaces(m: Manager, id: nat)
    requires IsFresh(m, id)
    ensures Places(m, id) == 0
  {}

  lemma ApplyInvariant(m: Manager, e: Event)
    requires Possible(m, e) && Invariant(m)
    ensures Invariant(Apply(m, e))
  {
    forall id
      ensures Places(Apply(m, e), id) <= 1
    {
      ApplyPlaces(m, e, id);
      if e.Accepted? { FreshPlaces(m, e.id); }
    }
    hide Places, Without, IndexOf, Tally;
  }

  /** Each session made is, at every moment, in exactly one place: registered, posted, held or deleted. */
  lemma {:induction false} HandedOverOnce(m: Manager, run: seq<Event>, id: nat)
    requires Invariant(m) && IsRun(m, run)
    ensures Invariant(Execute(m, run))
    ensures Places(Execute(m, run), id) == Places(m, id) + Made(m, run, id) <= 1
    decreases |run|
  {
    if run != [] {
      ApplyPlaces(m, run[0], id);
      ApplyInvariant(m, run[0]);
      HandedOverOnce(Apply(m, run[0]), run[1..], id);
    }
    hide Apply, Possible, Places;
  }

  predicate IsDestroyed(m: Manager) {
    m.phase == Drained && m.held == []
  }

  /** When the destructor returns, exactly the sessions made have been deleted, each once. */
  lemma AllDeletedOnce(run: seq<Event>, id: nat)
    requires IsRun(NEW, run) && IsDestroyed(Execute(NEW, run))
    ensures Tally(Execute(NEW, run).deleted, id) == Made(NEW, run, id) <= 1
  {
    assert Invariant(NEW);
    HandedOverOnce(NEW, run, id);
  }

  // ----- what is done with each session

  /**
   * A session in some place has been hooked and started once; it is past the vector because it was
   * handed over or told to shut down, and only one of the two.
   */
  predicate Accounts(m: Manager, id: nat) {
    && m.told <= |m.held|
    && Tally(m.log, Hook(id)) == Tally(m.log, Start(id)) == Places(m, id)
    && Tally(m.log, Unhook(id)) == Tally(m.log, ShutDown(id))
    && Tally(m.log, HandOver(id)) + Tally(m.log, ShutDown(id)) + Tally(m.registered, id) + Tally(m.held[m.told..], id)
       == Places(m, id)
  }

  /** The log grown by one action. */
  lemma LogOne(log: seq<Action>, a: Action, id: nat)
    ensures Tally(log + [a], Hook(id)) == Tally(log, Hook(id)) + Once(a == Hook(id))
    ensures Tally(log + [a], Start(id)) == Tally(log, Start(id)) + Once(a == Start(id))
    ensures Tally(log + [a], Unhook(id)) == Tally(log, Unhook(id)) + Once(a == Unhook(id))
    ensures Tally(log + [a], ShutDown(id)) == Tally(log, ShutDown(id)) + Once(a == ShutDown(id))
    ensures Tally(log + [a], HandOver(id)) == Tally(log, HandOver(id)) + Once(a == HandOver(id))
  {
    TallySnoc(log, a, Hook(id));
    TallySnoc(log, a, Start(id));
    TallySnoc(log, a, Unhook(id));
    TallySnoc(log, a, ShutDown(id));
    TallySnoc(log, a, HandOver(id));
    hide Tally;
  }

  lemma LogTwo(log: seq<Action>, a: Action, b: Action, id: nat)
    ensures Tally(log + [a] + [b], Hook(id)) == Tally(log, Hook(id)) + Once(a == Hook(id)) + Once(b == Hook(id))
    ensures Tally(log + [a] + [b], Start(id)) == Tally(log, Start(id)) + Once(a == Start(id)) + Once(b == Start(id))
    ensures Tally(log + [a] + [b], Unhook(id)) == Tally(log, Unhook(id)) + Once(a == Unhook(id)) + Once(b == Unhook(id))
    ensures Tally(log + [a] + [b], ShutDown(id)) ==
            Tally(log, ShutDown(id)) + Once(a == ShutDown(id)) + Once(b == ShutDown(id))
    ensures Tally(log + [a] + [b], HandOver(id)) ==
            Tally(log, HandOver(id)) + Once(a == HandOver(id)) + Once(b == HandOver(id))
  {
    LogOne(log, a, id);
    LogOne(log + [a], b, id);
    hide Tally;
  }

  lemma TellAccounts(m: Manager, id: nat)
    requires Invariant(m) && Possible(m, DestructorTells) && Accounts(m, id)
    ensures Accounts(Tell(m), id)
  {
    var x := m.held[m.told];
    LogTwo(m.log, Unhook(x), ShutDown(x), id);
    assert m.held[m.told..][1..] == m.held[m.told + 1..];
    TallyFirst(m.held[m.told..], id);
    hide Tally, Invariant;
  }

  lemma DeleteAccounts(m: Manager, id: nat)
    requires Invariant(m) && Possible(m, DestructorDeletes) && Accounts(m, id)
    ensures Accounts(Apply(m, DestructorDeletes), id)
  {
    ApplyPlaces(m, DestructorDeletes, id);
    TallyEmpty(id);
    assert m.held[1..][m.told - 1..] == m.held[m.told..] == [];
    hide Tally, Places;
  }

  lemma CompleteAccounts(m: Manager, x: nat, id: nat)
    requires Invariant(m) && Accounts(m, id)
    ensures Accounts(Complete(m, x), id)
  {
    ApplyPlaces(m, Completed(x), id);
    var i := IndexOf(m.registered, x);
    if i < |m.registered| { TallyWithout(m.registered, i, id); }
    LogOne(m.log, HandOver(x), id);
    hide Tally, Places, Without, IndexOf;
  }

  lemma AcceptAccounts(m: Manager, x: nat, id: nat)
    requires Invariant(m) && IsFresh(m, x) && Accounts(m, id)
    ensures Accounts(Accept(m, x), id)
  {
    hide Tally, Places, Invariant, IsFresh;
    ApplyPlaces(m, Accepted(x), id);
    if m.phase == Running {
      TallySnoc(m.registered, x, id);
      LogTwo(m.log, Hook(x), Start(x), id);
    }
  }

  lemma SwapAccounts(m: Manager, id: nat)
    requires Invariant(m) && m.phase == Flagged && Accounts(m, id)
    ensures Accounts(Apply(m, DestructorSwaps), id)
  {
    ApplyPlaces(m, DestructorSwaps, id);
    TallyEmpty(id);
    assert m.registered[0..] == m.registered && m.held[m.told..] == [];
    hide Tally, Places;
  }

  lemma ApplyAccounts(m: Manager, e: Event, id: nat)
    requires Invariant(m) && Possible(m, e) && Accounts(m, id)
    ensures Accounts(Apply(m, e), id)
  {
    hide Tally, Places, Without, Complete, Accept, Tell, Invariant;
    match e
    case Accepted(x) => AcceptAccounts(m, x, id);
    case Disconnected(x) =>
      ApplyPlaces(m, e, id);
      LogOne(m.log, Stop(x), id);
    case Completed(x) => CompleteAccounts(m, x, id);
    case DestructorSwaps => SwapAccounts(m, id);
    case DestructorTells => TellAccounts(m, id);
    case DestructorDeletes => DeleteAccounts(m, id);
    case DeletionRuns(i) => ApplyPlaces(m, e, id);
    case _ => ApplyPlaces(m, e, id);
  }

  lemma {:induction false} RunAccounts(m: Manager, run: seq<Event>, id: nat)
    requires Invariant(m) && IsRun(m, run) && Accounts(m, id)
    ensures Accounts(Execute(m, run), id)
    decreases |run|
  {
    hide Apply, Possible, Accounts, Invariant;
    if run != [] {
      ApplyInvariant(m, run[0]);
      ApplyAccounts(m, run[0], id);
      RunAccounts(Apply(m, run[0]), run[1..], id);
    }
  }

  lemma HeldBack(held: seq<nat>, told: nat, id: nat)
    requires told <= |held|
    ensures Tally(held[told..], id) <= Tally(held, id)
  {
    assert held == held[..told] + held[told..];
  }

  /**
   * At every moment each session made has been hooked and started exactly once. When the destructor
   * returns it has been either handed over by completing, or told to shut down, its completion
   * callback cleared first, exactly once.
   */
  lemma EachStartedAndEnded(run: seq<Event>, id: nat)
    requires IsRun(NEW, run)
    ensures var m := Execute(NEW, run);
            && Tally(m.log, Hook(id)) == Tally(m.log, Start(id)) == Made(NEW, run, id) <= 1
            && Tally(m.log, Unhook(id)) == Tally(m.log, ShutDown(id))
            && Tally(m.log, HandOver(id)) + Tally(m.log, ShutDown(id)) <= Made(NEW, run, id)
            && (id in m.deleted ==> Tally(m.log, HandOver(id)) + Tally(m.log, ShutDown(id)) == 1)
            && (IsDestroyed(m) ==>
                  Tally(m.log, HandOver(id)) + Tally(m.log, ShutDown(id)) == Tally(m.deleted, id) == Made(NEW, run, id))
  {
    assert Invariant(NEW);
    HandedOverOnce(NEW, run, id);
    RunAccounts(NEW, run, id);
    TallyEmpty(id);
    var m := Execute(NEW, run);
    HeldBack(m.held, m.told, id);
    assert id in m.deleted ==> Tally(m.deleted, id) >= 1;
    hide Execute, Made, Tally;
  }

  // ----- the order of what is done

  predicate IsEnding(a: Action) {
    a.Unhook? || a.ShutDown?
  }

  /**
   * Callbacks are installed right before a session is started, and that of completion is cleared right
   * before it is shut down; once a session has been shut down, the log holds nothing else any more.
   */
  predicate InOrder(log: seq<Action>) {
    && (forall i | 0 <= i < |log| && log[i].Start? :: i > 0 && log[i - 1] == Hook(log[i].id))
    && (forall i | 0 <= i < |log| && log[i].ShutDown? :: i > 0 && log[i - 1] == Unhook(log[i].id))
    && (forall i, j | 0 <= i < j < |log| && IsEnding(log[i]) :: IsEnding(log[j]))
  }

  predicate EndsOnlyAtShutdown(m: Manager) {
    m.phase == Running || m.phase == Flagged ==> forall a | a in m.log :: !IsEnding(a)
  }

  lemma OrderOne(log: seq<Action>, a: Action)
    requires InOrder(log) && !a.Start? && !a.ShutDown? && (IsEnding(a) || forall b | b in log :: !IsEnding(b))
    ensures InOrder(log + [a])
  {
    var l := log + [a];
    assert forall i | 0 <= i < |log| :: l[i] == log[i];
    hide IsEnding;
  }

  lemma OrderTwo(log: seq<Action>, a: Action, b: Action)
    requires InOrder(log)
    requires (a.Hook? && b == Start(a.id) && forall c | c in log :: !IsEnding(c)) || (a.Unhook? && b == ShutDown(a.id))
    ensures InOrder(log + [a] + [b])
  {
    OrderOne(log, a);
    var l, l' := log + [a], log + [a] + [b];
    assert forall i | 0 <= i < |l| :: l'[i] == l[i];
    assert l[|log|] == a && l'[|l|] == b;
    assert a.Hook? ==> forall c | c in l :: !IsEnding(c);
  }

  lemma ApplyOrder(m: Manager, e: Event)
    requires Possible(m, e) && InOrder(m.log) && EndsOnlyAtShutdown(m)
    ensures InOrder(Apply(m, e).log) && EndsOnlyAtShutdown(Apply(m, e))
  {
    hide InOrder, Without, IndexOf;
    match e
    case Accepted(id) => if m.phase == Running { OrderTwo(m.log, Hook(id), Start(id)); }
    case Disconnected(id) => if m.phase == Running { OrderOne(m.log, Stop(id)); }
    case Completed(id) => if m.phase == Running { OrderOne(m.log, HandOver(id)); }
    case DestructorTells => OrderTwo(m.log, Unhook(m.held[m.told]), ShutDown(m.held[m.told]));
    case _ =>
  }

  lemma {:induction false} RunOrder(m: Manager, run: seq<Event>)
    requires IsRun(m, run) && InOrder(m.log) && EndsOnlyAtShutdown(m)
    ensures InOrder(Execute(m, run).log)
    decreases |run|
  {
    hide Apply, Possible, InOrder, EndsOnlyAtShutdown;
    if run != [] {
      ApplyOrder(m, run[0]);
      RunOrder(Apply(m, run[0]), run[1..]);
    }
  }

  /** In every interleaving things are done in that order. */
  lemma LogInOrder(run: seq<Event>)
    requires IsRun(NEW, run)
    ensures InOrder(Execute(NEW, run).log)
  {
    RunOrder(NEW, run);
  }

  /** How often, while the manager runs, the connection of `id` reports CLOSED. */
  function Disconnects(m: Manager, run: seq<Event>, id: nat): nat
    requires IsRun(m, run)
    decreases |run|
  {
    if run == [] then 0
    else Once(run[0] == Disconnected(id) && m.phase == Running) + Disconnects(Apply(m, run[0]), run[1..], id)
  }

  /** How often a connection is accepted after shutdown has begun. */
  function TooLate(m: Manager, run: seq<Event>): nat
    requires IsRun(m, run)
    decreases |run|
  {
    if run == [] then 0
    else Once(run[0].Accepted? && m.phase != Running) + TooLate(Apply(m, run[0]), run[1..])
  }

  lemma ApplyStops(m: Manager, e: Event, id: nat)
    requires Possible(m, e)
    ensures Tally(Apply(m, e).log, Stop(id)) ==
            Tally(m.log, Stop(id)) + Once(e == Disconnected(id) && m.phase == Running)
    ensures Apply(m, e).refused == m.refused + Once(e.Accepted? && m.phase != Running)
  {
    hide Tally, Without, IndexOf;
    match e
    case Accepted(x) =>
      TallySnoc(m.log, Hook(x), Stop(id));
      TallySnoc(m.log + [Hook(x)], Start(x), Stop(id));
    case Disconnected(x) => TallySnoc(m.log, Stop(x), Stop(id));
    case Completed(x) => TallySnoc(m.log, HandOver(x), Stop(id));
    case DestructorTells =>
      var x := m.held[m.told];
      TallySnoc(m.log, Unhook(x), Stop(id));
      TallySnoc(m.log + [Unhook(x)], ShutDown(x), Stop(id));
    case _ =>
  }

  /**
   * A session is stopped once for each time its connection reports CLOSED while the manager runs, and a
   * connection is refused exactly when it is accepted after shutdown has begun.
   */
  lemma {:induction false} StopsExactly(m: Manager, run: seq<Event>, id: nat)
    requires IsRun(m, run)
    ensures Tally(Execute(m, run).log, Stop(id)) == Tally(m.log, Stop(id)) + Disconnects(m, run, id)
    ensures Execute(m, run).refused == m.refused + TooLate(m, run)
    decreases |run|
  {
    hide Apply, Possible, Tally;
    if run != [] {
      ApplyStops(m, run[0], id);
      StopsExactly(Apply(m, run[0]), run[1..], id);
    }
  }

  /** While the manager runs a new session goes to the end of the vector. */
  lemma Accepting(m: Manager, id: nat)
    requires Possible(m, Accepted(id))
    ensures var m' := Apply(m, Accepted(id));
            if m.phase == Running then m' == m.(registered := m.registered + [id], log := m.log + [Hook(id), Start(id)])
            else m' == m.(refused := m.refused + 1)
  {
    assert m.log + [Hook(id)] + [Start(id)] == m.log + [Hook(id), Start(id)];
  }

  predicate CompletesIn(run: seq<Event>, id: nat) {
    exists k | 0 <= k < |run| :: run[k] == Completed(id)
  }

  /** Until the destructor begins, only sessions that have completed are handed over for deletion. */
  lemma {:induction false} OnlyCompletedHandedOver(m: Manager, run: seq<Event>, id: nat)
    requires Invariant(m) && IsRun(m, run)
    requires id !in m.posted && id !in m.deleted && m.held == []
    requires Execute(m, run).phase == Running
    ensures id in Execute(m, run).posted || id in Execute(m, run).deleted ==> CompletesIn(run, id)
    decreases |run|
  {
    if run != [] {
      PhaseForward(Apply(m, run[0]), run[1..]);
      var next := Apply(m, run[0]);
      ApplyInvariant(m, run[0]);
      if run[0] == Completed(id) {
        assert CompletesIn(run, id);
      } else {
        StaysClear(m, run[0], id);
        OnlyCompletedHandedOver(next, run[1..], id);
        if CompletesIn(run[1..], id) {
          var k :| 0 <= k < |run[1..]| && run[1..][k] == Completed(id);
          assert run[k + 1] == Completed(id);
        }
      }
    }
  }

  lemma StaysClear(m: Manager, e: Event, id: nat)
    requires Possible(m, e) && id !in m.posted && id !in m.deleted && m.held == [] && e != Completed(id)
    requires m.phase == Running && Apply(m, e).phase == Running
    ensures id !in Apply(m, e).posted && id !in Apply(m, e).deleted && Apply(m, e).held == []
  {}

  lemma {:induction false} RunSplits(m: Manager, a: seq<Event>, b: seq<Event>)
    requires IsRun(m, a + b)
    ensures IsRun(m, a) && IsRun(Execute(m, a), b) && Execute(m, a + b) == Execute(Execute(m, a), b)
    decreases |a|
  {
    hide Apply, Possible;
    if a == [] {
      assert a + b == b;
    } else {
      assert (a + b)[1..] == a[1..] + b;
      RunSplits(Apply(m, a[0]), a[1..], b);
    }
  }

  predicate IsHandedOver(m: Manager, id: nat) {
    id in m.posted || id in m.deleted
  }

  lemma WithoutKeeps(s: seq<nat>, i: nat, x: nat)
    requires i < |s| && x in s && x != s[i]
    ensures x in Without(s, i)
  {
    assert s == s[..i] + [s[i]] + s[i + 1..];
  }

  lemma StepKeepsHandedOver(m: Manager, e: Event, id: nat)
    requires Possible(m, e) && IsHandedOver(m, id)
    ensures IsHandedOver(Apply(m, e), id)
  {
    if e.DeletionRuns? && id in m.posted && id != m.posted[e.i] {
      WithoutKeeps(m.posted, e.i, id);
    }
    hide Without, IndexOf;
  }

  /** A session handed over stays handed over. */
  lemma {:induction false} StaysHandedOver(m: Manager, run: seq<Event>, id: nat)
    requires IsRun(m, run) && IsHandedOver(m, id)
    ensures IsHandedOver(Execute(m, run), id)
    decreases |run|
  {
    hide Apply, Possible, IsHandedOver;
    if run != [] {
      StepKeepsHandedOver(m, run[0], id);
      StaysHandedOver(Apply(m, run[0]), run[1..], id);
    }
  }

  lemma CompletingHandsOver(m: Manager, id: nat)
    requires m.phase == Running && (id in m.registered || IsHandedOver(m, id))
    ensures IsHandedOver(Complete(m, id), id)
  {
    hide Without;
  }

  /** A session made before it completes, the manager running, is handed over by its completion for good. */
  lemma CompletedIsHandedOver(before: seq<Event>, id: nat, after: seq<Event>)
    requires IsRun(NEW, before + [Completed(id)] + after)
    requires IsRun(NEW, before) && Execute(NEW, before).phase == Running && Made(NEW, before, id) == 1
    ensures IsHandedOver(Execute(NEW, before + [Completed(id)] + after), id)
  {
    assert Invariant(NEW);
    HandedOverOnce(NEW, before, id);
    var m := Execute(NEW, before);
    assert id in m.registered || IsHandedOver(m, id);
    CompletingHandsOver(m, id);
    hide Execute, Complete, IsHandedOver;
    RunSplits(NEW, before + [Completed(id)], after);
    RunSplits(NEW, before, [Completed(id)]);
    OneStep(m, Completed(id));
    StaysHandedOver(Execute(NEW, before + [Completed(id)]), after, id);
  }

  lemma OneStep(m: Manager, e: Event)
    requires IsRun(m, [e])
    ensures Execute(m, [e]) == Apply(m, e)
  {
    assert [e][1..] == [];
  }

  function Order(p: Phase): nat {
    match p
    case Running => 0
    case Flagged => 1
    case Swapped => 2
    case Drained => 3
  }

  lemma {:induction false} PhaseForward(m: Manager, run: seq<Event>)
    requires IsRun(m, run)
    ensures Order(m.phase) <= Order(Execute(m, run).phase)
    decreases |run|
  {
    if run != [] { PhaseForward(Apply(m, run[0]), run[1..]); }
  }

  /** What the destructor still has to wait for and do. */
  function Remaining(m: Manager): nat {
    2 * |m.registered| + |m.posted| + (if m.told <= |m.held| then 2 * |m.held| - m.told else 0) + (3 - Order(m.phase))
  }

  /** Once shutdown has begun no step adds work, and each of the destructor's own steps uses some up. */
  lemma ShutdownUsesUp(m: Manager, e: Event)
    requires Invariant(m) && m.phase != Running && Possible(m, e)
    ensures Apply(m, e).phase != Running
    ensures Remaining(Apply(m, e)) <= Remaining(m) - Once(!e.Accepted? && !e.Disconnected? && !e.Completed?)
  {
    hide IndexOf, Places;
  }

  /** The next thing an undisturbed shutdown does. */
  function NextStep(m: Manager): Event {
    if m.posted != [] then DeletionRuns(0)
    else if m.phase == Flagged then DestructorSwaps
    else if m.phase == Swapped then if m.told < |m.held| then DestructorTells else DestructorDrains
    else DestructorDeletes
  }

  /** Until everything is deleted the shutdown can always go on. */
  lemma ShutdownGoesOn(m: Manager)
    requires Invariant(m) && m.phase != Running
    ensures IsDestroyed(m) <==> Remaining(m) == 0
    ensures !IsDestroyed(m) ==> Possible(m, NextStep(m))
  {
    hide Places;
  }

  /** So a destructor that has begun can always finish, with nothing registered or posted left over. */
  lemma {:induction false} ShutdownFinishes(m: Manager) returns (run: seq<Event>)
    requires Invariant(m) && m.phase != Running
    ensures IsRun(m, run) && |run| <= Remaining(m)
    ensures var end := Execute(m, run); IsDestroyed(end) && end.registered == [] && end.posted == []
    decreases Remaining(m)
  {
    ShutdownGoesOn(m);
    if IsDestroyed(m) {
      run := [];
    } else {
      var e := NextStep(m);
      ShutdownUsesUp(m, e);
      ApplyInvariant(m, e);
      var rest := ShutdownFinishes(Apply(m, e));
      run := [e] + rest;
      assert run[1..] == rest;
      hide Apply, Possible, Remaining, NextStep, Places;
    }
  }
}
