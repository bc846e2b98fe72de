/** The connection object: its methods in the order of the source, each proved to make the step the protocol has for it. */
module Connections {
  import P = ConnectionProtocol

  class Connection {
    var status: P.Status
    var pendingRead: int
    var pendingWrite: int
    var readError: bool
    var writeError: bool
    var socketOpen: bool
    var refCount: nat
    /** What the connection has outstanding with the network, the dispatcher and the service. */
    var reading: P.Reading
    var writes: nat
    var closeTasks: nat
    var releaseTasks: nat
    var deletions: nat
    var stops: nat

    function Now(): P.Connection
      reads this
    {
      P.Connection(status, pendingRead, pendingWrite, readError, writeError, socketOpen, refCount,
                   reading, writes, closeTasks, releaseTasks, deletions, stops)
    }

    constructor ()
      ensures Now() == P.New()
    {
      status, pendingRead, pendingWrite, readError, writeError := P.Open, 0, 0, false, false;
      socketOpen, refCount, reading, writes := true, 0, P.Unstarted, 0;
      closeTasks, releaseTasks, deletions, stops := 0, 0, 0, 0;
    }

    method Close(taken: bool)
      modifies this
      ensures Now() == P.CloseRequested(old(Now()), taken)
    {
      if status == P.Closed || status == P.RequestClose {
        return;
      }
      status := P.RequestClose;
      if taken {
        closeTasks := closeTasks + 1;
      }
    }

    method CloseConnection(taken: bool)
      modifies this
      ensures Now() == P.ConnectionClosed(old(Now()), taken)
    {
      if status != P.RequestClose {
        return;
      }
      status := P.Closing;
      if pendingWrite == 0 || writeError {
        CloseSocket();
        ReleaseConnection(taken);
        status := P.Closed;
      }
    }

    method CloseSocket()
      modifies this
      ensures Now() == P.SocketClosed(old(Now()))
    {
      if socketOpen {
        pendingRead, pendingWrite := 0, 0;
        socketOpen := false;
      }
    }

    method ReleaseConnection(taken: bool)
      modifies this
      ensures Now() == P.Released(old(Now()), taken)
    {
      if refCount > 0 {
        if taken {
          releaseTasks := releaseTasks + 1;
        }
      } else {
        deletions := deletions + 1;
      }
    }

    /** `async_read` in its try block. */
    method StartRead(next: P.Reading, started: bool, logging: bool, taken: bool)
      modifies this
      ensures Now() == P.ReadStarted(old(Now()), next, started, logging, taken)
    {
      pendingRead := pendingRead + 1;
      if started {
        reading := next;
      } else {
        if logging {
          Close(taken);
        }
        reading := P.Idle;
      }
    }

    method HandleReadError(error: P.Error, taken: bool)
      modifies this
      ensures Now() == P.ReadFailed(old(Now()), error, taken)
    {
      if error != P.Aborted {
        Close(taken);
      }
      readError := true;
    }

    method HandleWriteError(error: P.Error, taken: bool)
      modifies this
      ensures Now() == P.WriteFailed(old(Now()), error, taken)
    {
      if error != P.Aborted {
        Close(taken);
      }
      writeError := true;
    }

    method ParseHeader(e: P.Event)
      requires e.ParseHeader?
      modifies this
      ensures Now() == P.HeaderParsed(old(Now()), e)
    {
      if e.error != P.NoError || e.badSize {
        HandleReadError(e.error, e.taken);
      }
      if status != P.Open || readError {
        Close(e.taken);
        reading := P.Idle;
        return;
      }
      if e.flood {
        CloseConnection(e.taken);
        reading := P.Idle;
        return;
      }
      pendingRead := pendingRead - 1;
      StartRead(P.Packet, e.started, e.logging, e.taken);
    }

    /** `parsePacket` up to handing the packet to the protocol; `StartRead` follows when that returns. */
    method ParsePacket(e: P.Event)
      requires e.ParsePacket?
      modifies this
      ensures Now() == P.PacketParsed(old(Now()), e)
    {
      if e.error != P.NoError {
        HandleReadError(e.error, e.taken);
      }
      if status != P.Open || readError {
        Close(e.taken);
        reading := P.Idle;
        return;
      }
      pendingRead := pendingRead - 1;
      if e.noProtocol {
        Close(e.taken);
        reading := P.Idle;
        return;
      }
      reading := P.Handling;
    }

    method Send(e: P.Event)
      requires e.Send?
      modifies this
      ensures Now() == P.Sent(old(Now()), e)
    {
      if status != P.Open || writeError {
        return;
      }
      if pendingWrite == 0 {
        InternalSend(e.started);
      } else if pendingWrite > P.MANY_WRITES && e.force {
        Close(e.taken);
      }
    }

    method InternalSend(started: bool)
      modifies this
      ensures Now() == old(Now()).(pendingWrite := old(pendingWrite) + 1, writes := if started then old(writes) + 1 else old(writes))
    {
      pendingWrite := pendingWrite + 1;
      if started {
        writes := writes + 1;
      }
    }

    method OnWrite(error: P.Error, taken: bool)
      modifies this
      ensures Now() == P.Written(old(Now()), error, taken)
    {
      if error != P.NoError {
        HandleWriteError(error, taken);
      }
      if status != P.Open || writeError {
        CloseSocket();
        Close(taken);
        return;
      }
      pendingWrite := pendingWrite - 1;
    }

    method OnReadTimeout(taken: bool)
      modifies this
      ensures Now() == P.Next(old(Now()), P.ReadTimeout(taken))
    {
      if pendingRead > 0 || readError {
        CloseSocket();
        Close(taken);
      }
    }

    method OnWriteTimeout(taken: bool)
      modifies this
      ensures Now() == P.Next(old(Now()), P.WriteTimeout(taken))
    {
      if pendingWrite > 0 || writeError {
        CloseSocket();
        Close(taken);
      }
    }

    /** One event reaches the object. */
    method Handle(e: P.Event)
      requires P.Enabled(Now(), e)
      modifies this
      ensures Now() == P.Next(old(Now()), e)
    {
      hide P.HeaderParsed, P.PacketParsed, P.Written, P.Sent, P.ReadStarted, P.CloseRequested, P.SocketClosed, P.ConnectionClosed, P.Released;
      match e {
        case Accept(started, logging, taken) => StartRead(P.Header, started, logging, taken);
        case Close(taken) => Close(taken);
        case RunClose(taken) =>
          closeTasks := closeTasks - 1;
          CloseConnection(taken);
        case RunRelease(taken) =>
          releaseTasks := releaseTasks - 1;
          ReleaseConnection(taken);
        case ParseHeader(_, _, _, _, _, _) => ParseHeader(e);
        case ParsePacket(_, _, _) => ParsePacket(e);
        case ReadNext(started, logging, taken) => StartRead(P.Header, started, logging, taken);
        case Send(_, _, _) => Send(e);
        case OnWrite(error, taken) =>
          writes := writes - 1;
          OnWrite(error, taken);
        case ReadTimeout(taken) => OnReadTimeout(taken);
        case WriteTimeout(taken) => OnWriteTimeout(taken);
        case AddRef => refCount := refCount + 1;
        case UnRef => refCount := refCount - 1;
        case OnStop => socketOpen, stops := false, stops + 1;
        case ManagerShutdown => socketOpen := false;
      }
    }

    /** Any run of events on the object is a run of the protocol: it keeps the connection sound, and never leads back
        out of CLOSED or into OPEN. */
    method HandleAll(es: seq<P.Event>)
      requires P.Sound(Now()) && P.Run(Now(), es)
      modifies this
      ensures Now() == P.After(old(Now()), es) && P.Sound(Now())
      ensures closeTasks <= 1 && (closeTasks == 1 ==> status == P.RequestClose)
      ensures releaseTasks + deletions <= 1 && (releaseTasks + deletions == 1 ==> status == P.Closed)
      ensures writes <= 1 && 0 <= pendingWrite <= 1 && 0 <= pendingRead <= 1
      ensures (old(status) == P.Closed ==> status == P.Closed) && (old(status) != P.Open ==> status != P.Open)
    {
      RunAll(es);
      P.NoWayBack(old(Now()), es);
    }

    method RunAll(es: seq<P.Event>)
      requires P.Sound(Now()) && P.Run(Now(), es)
      modifies this
      ensures Now() == P.After(old(Now()), es) && P.Sound(Now())
    {
      hide P.Next, P.Enabled, P.Sound;
      assert es[0..] == es;
      for i := 0 to |es|
        invariant P.Sound(Now()) && P.Run(Now(), es[i..])
        invariant P.After(Now(), es[i..]) == P.After(old(Now()), es)
      {
        assert es[i..][1..] == es[i + 1..];
        P.SoundKept(Now(), es[i]);
        Handle(es[i]);
      }
      assert es[|es|..] == [];
    }
  }
}
