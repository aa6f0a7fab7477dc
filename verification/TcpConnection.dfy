/** The connection object: each API call and each handler updates its fields in place. */
module TcpConnection {
  import opened Connection
  import opened ConnectionProperties
  import opened ConnectionRuns
  import opened Options

  class TcpConnection {
    var state: ConnectionState
    var tlsHandshakeInProgress: bool
    var hasSslStream: bool
    var closeCallbacks: seq<Callback>

    // The socket, the executor's queue, and what listeners, callbacks and the transport have seen.
    var transportOpen: bool
    var pending: seq<Work>
    var changes: seq<ConnectionState>
    var calls: seq<Call>
    var sent: seq<string>
    var cancels: nat

    function Contents(): Net
      reads this
    {
      Net(state, tlsHandshakeInProgress, hasSslStream, transportOpen,
          closeCallbacks, pending, changes, calls, sent, cancels)
    }

    constructor ()
      ensures Contents() == ACCEPTED
    {
      state, tlsHandshakeInProgress, hasSslStream, transportOpen := Insecure, false, false, true;
      closeCallbacks, pending, changes, calls, sent, cancels := [], [], [], [], [], 0;
    }

    predicate IsOpen()
      reads this
    {
      Connection.IsOpen(state)
    }

    predicate IsSecure()
      reads this
    {
      state == Secure
    }

    method DispatchStateChange(newState: ConnectionState)
      modifies this
      ensures Contents() == Announce(old(Contents()), newState)
    {
      state := newState;
      changes := changes + [newState];
    }

    method InvokeCallback(c: Callback)
      modifies this
      ensures Contents() == Invoke(old(Contents()), CallOf(c))
    {
      match c
      case OnClose(id) => calls := calls + [CloseCall(id)];
      case OnReadFailure(id, error) => calls := calls + [ReadCall(id, Error(error))];
    }

    /** Takes the list over first, so that it is empty when the callbacks run; they run in order, once each. */
    method DispatchCloseCallbacks()
      modifies this
      ensures Contents() == old(Contents()).(
                              closeCallbacks := [],
                              calls := old(calls) + CallsOf(old(closeCallbacks)))
    {
      var callbacks := closeCallbacks;
      closeCallbacks := [];
      var i := 0;
      while i < |callbacks|
        invariant 0 <= i <= |callbacks|
        invariant Contents() == old(Contents()).(
                                  closeCallbacks := [],
                                  calls := old(calls) + CallsOf(callbacks[..i]))
      {
        assert callbacks[..i + 1][..i] == callbacks[..i];
        InvokeCallback(callbacks[i]);
        i := i + 1;
      }
      assert callbacks[..i] == callbacks;
    }

    method Upgrade()
      modifies this
      ensures Contents() == Connection.Upgrade(old(Contents()))
    {
      if !IsOpen() { return; }
      pending := pending + [UpgradeStep];
    }

    method Read(id: nat)
      modifies this
      ensures Contents() == Connection.Read(old(Contents()), id)
    {
      if !IsOpen() {
        calls := calls + [ReadCall(id, Error(OPERATION_ABORTED))];
        return;
      }
      pending := pending + [ReadStep(id)];
    }

    method CancelRead()
      modifies this
      ensures Contents() == Connection.CancelRead(old(Contents()))
    {
      pending := pending + [CancelStep];
    }

    method Write(data: string)
      modifies this
      ensures Contents() == Connection.Write(old(Contents()), data)
    {
      if !IsOpen() { return; }
      pending := pending + [WriteStep(data)];
    }

    method Close(callback: Option<Callback>)
      modifies this
      ensures Contents() == Connection.Close(old(Contents()), callback)
    {
      if state == Closed || state == Closing {
        if state == Closed && callback.Some? {
          InvokeCallback(callback.value);
        } else if state == Closing && callback.Some? {
          closeCallbacks := closeCallbacks + [callback.value];
        }
        return;
      }
      if callback.Some? {
        closeCallbacks := closeCallbacks + [callback.value];
      }
      DispatchStateChange(Closing);
      pending := pending + [CloseStep];
    }

    method RunUpgrade()
      modifies this
      ensures Contents() == Connection.RunUpgrade(old(Contents()))
    {
      if state == Closed || state == Closing || IsSecure() { return; }
      if hasSslStream { transportOpen := false; }
      hasSslStream := true;
      tlsHandshakeInProgress := true;
      pending := pending + [Handshake];
    }

    method FinishClosing()
      modifies this
      ensures Contents() == Finish(old(Contents()))
    {
      DispatchStateChange(Closed);
      DispatchCloseCallbacks();
    }

    method EndHandshake(c: Completion)
      modifies this
      ensures Contents() == Connection.EndHandshake(old(Contents()), c)
    {
      tlsHandshakeInProgress := false;
      if c.Failed? {
        if state == Closing {
          transportOpen := false;
          FinishClosing();
          return;
        }
        Close(None);
        return;
      }
      if state == Closing {
        transportOpen := false;
        FinishClosing();
        return;
      }
      DispatchStateChange(Secure);
    }

    method RunCancel()
      modifies this
      ensures Contents() == Connection.RunCancel(old(Contents()))
    {
      if IsOpen() { cancels := cancels + 1; }
    }

    /** Both transports start the same kind of read. */
    method RunRead(id: nat)
      modifies this
      ensures Contents() == Connection.RunRead(old(Contents()), id)
    {
      if !IsOpen() {
        calls := calls + [ReadCall(id, Error(OPERATION_ABORTED))];
        return;
      }
      pending := pending + [Reading(id)];
    }

    method EndRead(id: nat, c: Completion)
      modifies this
      ensures Contents() == Connection.EndRead(old(Contents()), id, c)
    {
      match c
      case Failed(error) => Close(Some(OnReadFailure(id, error)));
      case Succeeded(bytes) => calls := calls + [ReadCall(id, Data(bytes))];
    }

    method RunWrite(data: string)
      modifies this
      ensures Contents() == Connection.RunWrite(old(Contents()), data)
    {
      if !IsOpen() { return; }
      sent := sent + [data];
      pending := pending + [Writing(data)];
    }

    method EndWrite(c: Completion)
      modifies this
      ensures Contents() == Connection.EndWrite(old(Contents()), c)
    {
      if c.Failed? { Close(None); }
    }

    method RunClose()
      modifies this
      ensures Contents() == Connection.RunClose(old(Contents()))
    {
      if tlsHandshakeInProgress && hasSslStream {
        cancels := cancels + 1;
        return;
      }
      if IsSecure() && hasSslStream {
        cancels := cancels + 1;
        pending := pending + [Shutdown];
        return;
      }
      if !hasSslStream { transportOpen := false; }
      FinishClosing();
    }

    method EndShutdown()
      modifies this
      ensures Contents() == Connection.EndShutdown(old(Contents()))
    {
      if hasSslStream { transportOpen := false; }
      FinishClosing();
    }

    /** The executor picks any pending work; `c` says how it ended when it is an I/O completion. */
    method RunPending(index: nat, c: Completion)
      requires index < |pending|
      modifies this
      ensures Contents() == Apply(old(Contents()), Occur(index, c))
    {
      var work := pending[index];
      pending := pending[..index] + pending[index + 1..];
      match work
      case UpgradeStep => RunUpgrade();
      case Handshake => EndHandshake(c);
      case ReadStep(id) => RunRead(id);
      case Reading(id) => EndRead(id, c);
      case CancelStep => RunCancel();
      case WriteStep(data) => RunWrite(data);
      case Writing(_) => EndWrite(c);
      case CloseStep => RunClose();
      case Shutdown => EndShutdown();
    }

    /**
     * Once closing, the executor runs whatever is pending, in any order and with any outcomes, until
     * nothing is; every read and close callback handed in has been invoked by then, as often.
     */
    method Drain()
      requires Invariant(Contents()) && !Connection.IsOpen(state)
      modifies this
      ensures state == Closed && closeCallbacks == [] && pending == []
      ensures forall k :: Answered(Contents(), k) == Places(old(Contents()), k)
    {
      hide Apply, Invariant, Places, Possible;
      while pending != []
        invariant Invariant(Contents()) && !Connection.IsOpen(state)
        invariant forall k :: Places(Contents(), k) == Places(old(Contents()), k)
        decreases |pending|
      {
        var i: nat :| i < |pending|;
        var c: Completion := *;
        ghost var before := Contents();
        Chosen(before, i, c);
        ClosingShrinks(before, Occur(i, c));
        ApplyInvariant(before, Occur(i, c));
        RunPending(i, c);
        forall k
          ensures Places(Contents(), k) == Places(before, k)
        {
          ApplyPlaces(before, Occur(i, c), k);
        }
      }
      Idle();
    }

    lemma Chosen(m: Net, i: nat, c: Completion)
      requires i < |m.pending|
      ensures Possible(m, Occur(i, c))
    {}

    /** A connection with nothing pending that is no longer open is CLOSED, and nobody waits. */
    lemma Idle()
      requires Invariant(Contents()) && !Connection.IsOpen(state) && pending == []
      ensures state == Closed && closeCallbacks == []
      ensures forall k :: Answered(Contents(), k) == Places(Contents(), k)
    {
      ClosedWhenIdle(Contents());
    }
  }
}
