/** The class `Tcp_session`: the deque and flag it updates in place, and its handlers. */
module TcpSessions {
  import opened Messages
  import WQ = WriteQueue

  class TcpSession {
    var writeMsgs: seq<Message>
    var closed: bool

    // The socket: writes in flight, and every message handed to it so far.
    var pending: nat
    var started: seq<Message>

    ghost function View(): WQ.Link<Message>
      reads this
    {
      WQ.Link(writeMsgs, pending, closed, started)
    }

    ghost predicate Valid()
      reads this
    {
      WQ.Agrees(View())
    }

    /** The flag `closed` is not initialised here; `TcpServer.StartAccept` clears it. */
    constructor ()
      ensures writeMsgs == [] && pending == 0 && started == []
    {
      writeMsgs, pending, started := [], 0, [];
      closed := *;
    }

    method AsyncWrite(m: Message)
      modifies this`pending, this`started
      ensures pending == old(pending) + 1 && started == old(started) + [m]
    {
      pending, started := pending + 1, started + [m];
    }

    method Post(m: Message)
      modifies this
      ensures View() == WQ.Step(old(View()), WQ.Post(m))
      ensures closed == old(closed)
      ensures old(Valid()) ==> Valid()
    {
      var empty := writeMsgs == [];
      writeMsgs := [m] + writeMsgs;
      if empty {
        AsyncWrite(writeMsgs[0]);
      }
    }

    method CloseSocket()
      modifies this`closed
      ensures closed
    {
      closed := true;
    }

    /** Completion of the write in flight. `Valid` gives the non-empty deque `pop_front` needs. */
    method HandleWrite(error: bool)
      requires Valid() && pending > 0
      modifies this
      ensures View() == WQ.Step(old(View()), if error then WQ.WriteFailed else WQ.WriteOk)
      ensures error ==> closed && pending == 0 && writeMsgs == old(writeMsgs) && started == old(started)
      ensures !error ==> !closed && writeMsgs == old(writeMsgs)[1..]
                         && started == old(started) + (if writeMsgs == [] then [] else [writeMsgs[0]])
      ensures Valid()
    {
      pending := pending - 1;
      if !error {
        writeMsgs := writeMsgs[1..];
        if writeMsgs != [] {
          AsyncWrite(writeMsgs[0]);
        }
      } else {
        CloseSocket();
      }
    }
  }
}
