/** The manager object: its session vector and shutdown flag, updated in place. */
module ClientConnectionManager {
  import opened ConnectionManager
  import opened Sequences

  class ClientConnectionManager {
    var clientSessions: seq<nat>
    var isShuttingDown: bool

    // The I/O context's queue of deletions, the destructor's own vector and how far it has told it to
    // shut down, what has been deleted, and what has been done with sessions.
    var posted: seq<nat>
    var held: seq<nat>
    var told: nat
    var deleted: seq<nat>
    var refused: nat
    var log: seq<Action>
    var phase: Phase

    ghost predicate Valid()
      reads this
    {
      isShuttingDown == (phase != Running)
    }

    function Contents(): Manager
      reads this
    {
      Manager(phase, clientSessions, posted, held, told, deleted, refused, log)
    }

    constructor ()
      ensures Valid() && Contents() == NEW
    {
      clientSessions, isShuttingDown, phase := [], false, Running;
      posted, held, told, deleted, refused, log := [], [], 0, [], 0, [];
    }

    method OnObservation(id: nat)
      requires Valid()
      modifies this
      ensures Valid() && Contents() == Accept(old(Contents()), id)
    {
      if isShuttingDown {
        refused := refused + 1;
        return;
      }
      clientSessions := clientSessions + [id];
      log := log + [Hook(id)];
      log := log + [Start(id)];
    }

    /** The state callback installed on the session's connection. */
    method OnStateChange(id: nat, closed: bool)
      requires Valid()
      modifies this
      ensures Valid() && Contents() == if closed then Disconnect(old(Contents()), id) else old(Contents())
    {
      if !isShuttingDown && closed {
        log := log + [Stop(id)];
      }
    }

    /** `std::find` over the session vector. */
    method FindSession(id: nat) returns (i: nat)
      ensures i == IndexOf(clientSessions, id)
    {
      i := 0;
      while i < |clientSessions| && clientSessions[i] != id
        invariant i <= |clientSessions|
        invariant IndexOf(clientSessions, id) == i + IndexOf(clientSessions[i..], id)
      {
        i := i + 1;
      }
    }

    method OnCompletion(id: nat)
      requires Valid()
      modifies this
      ensures Valid() && Contents() == Complete(old(Contents()), id)
    {
      if isShuttingDown { return; }
      var i := FindSession(id);
      if i == |clientSessions| { return; }
      clientSessions := clientSessions[..i] + clientSessions[i + 1..];
      posted := posted + [id];
      log := log + [HandOver(id)];
    }

    method RunPosted(i: nat)
      requires Valid() && i < |posted|
      modifies this
      ensures Valid() && Contents() == RunDeletion(old(Contents()), i)
    {
      deleted := deleted + [posted[i]];
      posted := posted[..i] + posted[i + 1..];
    }

    method BeginShutdown()
      requires Valid() && Possible(Contents(), DestructorFlags)
      modifies this
      ensures Valid() && Contents() == Apply(old(Contents()), DestructorFlags)
    {
      isShuttingDown, phase := true, Flagged;
    }

    method SwapSessions()
      requires Valid() && phase == Flagged && held == []
      modifies this
      ensures Valid() && Contents() == Apply(old(Contents()), DestructorSwaps)
    {
      clientSessions, held, phase := held, clientSessions, Swapped;
    }

    /** What the destructor does with the sessions it is to tell. */
    static function Telling(ids: seq<nat>): seq<Action> {
      if ids == [] then []
      else Telling(ids[..|ids| - 1]) + [Unhook(ids[|ids| - 1])] + [ShutDown(ids[|ids| - 1])]
    }

    /** Each held session's callback is cleared and the session shut down, in order. */
    method TellHeld()
      requires Valid() && phase == Swapped && told == 0
      modifies this
      ensures Valid() && Contents() == old(Contents()).(told := |held|, log := old(log) + Telling(held))
    {
      while told < |held|
        invariant told <= |held| && Valid()
        invariant Contents() == old(Contents()).(told := told, log := old(log) + Telling(held[..told]))
      {
        assert held[..told + 1][..told] == held[..told];
        Associate(old(log), Telling(held[..told]), [Unhook(held[told])]);
        Associate(old(log), Telling(held[..told]) + [Unhook(held[told])], [ShutDown(held[told])]);
        log := log + [Unhook(held[told])];
        log := log + [ShutDown(held[told])];
        told := told + 1;
      }
      assert held[..told] == held;
    }

    /** The I/O context runs until nothing is posted; here in the order of the queue. */
    method Drain()
      requires Valid() && phase == Swapped && told == |held|
      modifies this
      ensures Valid()
      ensures Contents() == old(Contents()).(phase := Drained, posted := [], deleted := old(deleted) + old(posted))
    {
      while posted != []
        invariant Valid() && Contents() == old(Contents()).(posted := posted, deleted := deleted)
        invariant deleted + posted == old(deleted) + old(posted)
        decreases |posted|
      {
        RunPosted(0);
      }
      phase := Drained;
    }

    method DeleteHeld()
      requires Valid() && phase == Drained
      modifies this
      ensures Valid() && IsDestroyed(Contents())
      ensures Contents() == old(Contents()).(held := [], told := 0, deleted := old(deleted) + old(held))
    {
      var i := 0;
      while i < |held|
        invariant 0 <= i <= |held|
        invariant Contents() == old(Contents()).(deleted := deleted)
        invariant deleted == old(deleted) + held[..i]
        invariant Valid()
      {
        deleted := deleted + [held[i]];
        i := i + 1;
      }
      assert held[..i] == held;
      held, told := [], 0;
    }

    /**
     * The destructor without interference: every registered session is told to shut down, and then what
     * was posted and what was registered is deleted, in order.
     */
    method Destroy()
      requires Valid() && phase == Running && held == [] && told == 0
      modifies this
      ensures Valid() && IsDestroyed(Contents()) && clientSessions == [] && posted == []
      ensures log == old(log) + Telling(old(clientSessions))
      ensures deleted == old(deleted) + old(posted) + old(clientSessions)
    {
      BeginShutdown();
      SwapSessions();
      TellHeld();
      Drain();
      DeleteHeld();
    }
  }
}
