/** How a connection is closed: the states a connection goes through, event by event, and what holds in all of them.
    Every handler runs under the connection's own lock, so one event is one step. */
module ConnectionProtocol {

  datatype Status = Open | RequestClose | Closing | Closed

  /** Which read is outstanding; Handling is the time between taking a packet in and asking for the next one. */
  datatype Reading = Unstarted | Header | Packet | Handling | Idle

  datatype Error = NoError | Aborted | Failed

  /** The fields of a connection, and what it has outstanding elsewhere: tasks in the dispatcher,
      deletions and stops in the service, writes in flight. */
  datatype Connection = Connection(status: Status, pendingRead: int, pendingWrite: int, readError: bool, writeError: bool,
                                   socketOpen: bool, refCount: nat, reading: Reading, writes: nat,
                                   closeTasks: nat, releaseTasks: nat, deletions: nat, stops: nat)

  const MANY_WRITES := 100

  function New(): Connection {
    Connection(Open, 0, 0, false, false, true, 0, Unstarted, 0, 0, 0, 0, 0)
  }

  // ---------------------------------------------------------------- what the methods compute

  /** `close`; `taken` says whether the dispatcher accepts the task. */
  function CloseRequested(c: Connection, taken: bool): Connection {
    if c.status == Closed || c.status == RequestClose then c
    else c.(status := RequestClose, closeTasks := if taken then c.closeTasks + 1 else c.closeTasks)
  }

  function SocketClosed(c: Connection): Connection {
    if c.socketOpen then c.(pendingRead := 0, pendingWrite := 0, socketOpen := false) else c
  }

  function Released(c: Connection, taken: bool): Connection {
    if c.refCount > 0 then c.(releaseTasks := if taken then c.releaseTasks + 1 else c.releaseTasks)
    else c.(deletions := c.deletions + 1)
  }

  /** `closeConnection` */
  function ConnectionClosed(c: Connection, taken: bool): Connection {
    if c.status != RequestClose then c
    else if c.pendingWrite == 0 || c.writeError then Released(SocketClosed(c.(status := Closing)), taken).(status := Closed)
    else c.(status := Closing)
  }

  /** The common beginning of both read handlers: the error flag is set and the connection asked to close. */
  function ReadFailed(c: Connection, error: Error, taken: bool): Connection {
    (if error == Aborted then c else CloseRequested(c, taken)).(readError := true)
  }

  function WriteFailed(c: Connection, error: Error, taken: bool): Connection {
    (if error == Aborted then c else CloseRequested(c, taken)).(writeError := true)
  }

  /** `async_read`, which may throw; then the connection is closed unless an error has been logged before. */
  function ReadStarted(c: Connection, next: Reading, started: bool, logging: bool, taken: bool): Connection {
    var d := c.(pendingRead := c.pendingRead + 1);
    if started then d.(reading := next)
    else if logging then CloseRequested(d, taken).(reading := Idle)
    else d.(reading := Idle)
  }

  datatype Event =
    | Accept(started: bool, logging: bool, taken: bool)
    | Close(taken: bool)
    | RunClose(taken: bool)
    | RunRelease(taken: bool)
    | ParseHeader(error: Error, badSize: bool, flood: bool, started: bool, logging: bool, taken: bool)
    | ParsePacket(error: Error, noProtocol: bool, taken: bool)
    | ReadNext(started: bool, logging: bool, taken: bool)
    | Send(started: bool, force: bool, taken: bool)
    | OnWrite(error: Error, taken: bool)
    | ReadTimeout(taken: bool)
    | WriteTimeout(taken: bool)
    | AddRef
    | UnRef
    | OnStop
    | ManagerShutdown

  predicate Enabled(c: Connection, e: Event) {
    match e
    case Accept(_, _, _) => c.reading == Unstarted
    case RunClose(_) => c.closeTasks > 0
    case RunRelease(_) => c.releaseTasks > 0
    case ParseHeader(_, _, _, _, _, _) => c.reading == Header
    case ParsePacket(_, _, _) => c.reading == Packet
    case ReadNext(_, _, _) => c.reading == Handling
    case OnWrite(_, _) => c.writes > 0
    case UnRef => c.refCount > 0
    case OnStop => c.stops < c.deletions
    case _ => true
  }

  function HeaderParsed(c: Connection, e: Event): Connection
    requires e.ParseHeader?
  {
    var d := if e.error != NoError || e.badSize then ReadFailed(c, e.error, e.taken) else c;
    if d.status != Open || d.readError then CloseRequested(d, e.taken).(reading := Idle)
    else if e.flood then ConnectionClosed(d, e.taken).(reading := Idle)
    else ReadStarted(d.(pendingRead := d.pendingRead - 1), Packet, e.started, e.logging, e.taken)
  }

  function PacketParsed(c: Connection, e: Event): Connection
    requires e.ParsePacket?
  {
    var d := if e.error != NoError then ReadFailed(c, e.error, e.taken) else c;
    if d.status != Open || d.readError then CloseRequested(d, e.taken).(reading := Idle)
    else
      var f := d.(pendingRead := d.pendingRead - 1);
      if e.noProtocol then CloseRequested(f, e.taken).(reading := Idle) else f.(reading := Handling)
  }

  function Sent(c: Connection, e: Event): Connection
    requires e.Send?
  {
    if c.status != Open || c.writeError then c
    else if c.pendingWrite == 0 then c.(pendingWrite := c.pendingWrite + 1, writes := if e.started then c.writes + 1 else c.writes)
    else if c.pendingWrite > MANY_WRITES && e.force then CloseRequested(c, e.taken)
    else c
  }

  function Written(c: Connection, error: Error, taken: bool): Connection {
    var d := if error != NoError then WriteFailed(c, error, taken) else c;
    if d.status != Open || d.writeError then CloseRequested(SocketClosed(d), taken)
    else d.(pendingWrite := d.pendingWrite - 1)
  }

  function Next(c: Connection, e: Event): Connection
    requires Enabled(c, e)
  {
    match e
    case Accept(started, logging, taken) => ReadStarted(c, Header, started, logging, taken)
    case Close(taken) => CloseRequested(c, taken)
    case RunClose(taken) => ConnectionClosed(c.(closeTasks := c.closeTasks - 1), taken)
    case RunRelease(taken) => Released(c.(releaseTasks := c.releaseTasks - 1), taken)
    case ParseHeader(_, _, _, _, _, _) => HeaderParsed(c, e)
    case ParsePacket(_, _, _) => PacketParsed(c, e)
    case ReadNext(started, logging, taken) => ReadStarted(c, Header, started, logging, taken)
    case Send(_, _, _) => Sent(c, e)
    case OnWrite(error, taken) => Written(c.(writes := c.writes - 1), error, taken)
    case ReadTimeout(taken) =>
      if c.pendingRead > 0 || c.readError then CloseRequested(SocketClosed(c), taken) else c
    case WriteTimeout(taken) =>
      if c.pendingWrite > 0 || c.writeError then CloseRequested(SocketClosed(c), taken) else c
    case AddRef => c.(refCount := c.refCount + 1)
    case UnRef => c.(refCount := c.refCount - 1)
    case OnStop => c.(socketOpen := false, stops := c.stops + 1)
    case ManagerShutdown => c.(socketOpen := false)
  }

  predicate Run(c: Connection, es: seq<Event>)
    decreases |es|
  {
    es == [] || (Enabled(c, es[0]) && Run(Next(c, es[0]), es[1..]))
  }

  function After(c: Connection, es: seq<Event>): Connection
    requires Run(c, es)
    decreases |es|
  {
    if es == [] then c else After(Next(c, es[0]), es[1..])
  }

  lemma RunCons(c: Connection, e: Event, es: seq<Event>)
    requires Enabled(c, e) && Run(Next(c, e), es)
    ensures Run(c, [e] + es) && After(c, [e] + es) == After(Next(c, e), es)
  {
    hide Next, Enabled;
    assert ([e] + es)[1..] == es;
  }

  // ---------------------------------------------------------------- what every event keeps

  /** One close task at most, and only while it is asked for. */
  predicate OneCloseTask(c: Connection) {
    c.closeTasks <= 1 && (c.closeTasks == 1 ==> c.status == RequestClose)
  }

  /** Being released and being deleted are one occasion, and it comes with CLOSED. */
  predicate OneDeletion(c: Connection) {
    && c.releaseTasks + c.deletions <= 1 && c.stops <= c.deletions
    && (c.releaseTasks + c.deletions == 1 ==> c.status == Closed)
  }

  /** The write counter counts the write in flight while the connection is open; it is never anything but 0 or 1. */
  predicate OneWrite(c: Connection) {
    && 0 <= c.pendingWrite <= 1 && c.writes <= 1
    && (c.status == Open ==> c.writes <= c.pendingWrite && !c.writeError)
    && (c.status == Closing ==> c.pendingWrite == 1 && !c.writeError)
  }

  predicate OneRead(c: Connection) {
    && 0 <= c.pendingRead <= 1
    && (c.status == Open ==> !c.readError)
    && (c.reading == Unstarted || c.reading == Handling ==> c.pendingRead == 0)
    && ((c.reading == Header || c.reading == Packet) && c.status == Open ==> c.pendingRead == 1)
  }

  predicate Sound(c: Connection) {
    OneCloseTask(c) && OneDeletion(c) && OneWrite(c) && OneRead(c)
  }

  /** The next connection is sound, and a deletion is the first, unreferenced, and of a closed connection. */
  predicate Keeps(c: Connection, d: Connection) {
    && Sound(d)
    && (d.deletions != c.deletions ==> c.refCount == 0 && c.deletions == 0 && d.deletions == 1 && d.status == Closed)
  }

  lemma HeaderKept(c: Connection, e: Event)
    requires Sound(c) && Enabled(c, e) && e.ParseHeader?
    ensures Keeps(c, HeaderParsed(c, e))
  {
    hide Released, SocketClosed;
  }

  /** A read handler that gives up. */
  lemma GivenUpKept(c: Connection, error: Error, taken: bool)
    requires Sound(c) && (c.reading == Header || c.reading == Packet)
    ensures Keeps(c, CloseRequested(ReadFailed(c, error, taken), taken).(reading := Idle))
  {
  }

  lemma LeftKept(c: Connection, taken: bool)
    requires Sound(c) && c.status != Open
    ensures Keeps(c, CloseRequested(c, taken).(reading := Idle))
  {
  }

  lemma PacketKept(c: Connection, e: Event)
    requires Sound(c) && Enabled(c, e) && e.ParsePacket?
    ensures Keeps(c, PacketParsed(c, e))
  {
    if e.error != NoError {
      GivenUpKept(c, e.error, e.taken);
    } else if c.status != Open {
      LeftKept(c, e.taken);
    } else {
      TakenInKept(c, e.taken);
    }
  }

  lemma TakenInKept(c: Connection, taken: bool)
    requires Sound(c) && c.status == Open && c.reading == Packet
    ensures var d := c.(pendingRead := c.pendingRead - 1);
            Keeps(c, d.(reading := Handling)) && Keeps(c, CloseRequested(d, taken).(reading := Idle))
  {
  }

  lemma WrittenKept(c: Connection, error: Error, taken: bool)
    requires Sound(c) && c.writes > 0
    ensures Keeps(c, Written(c.(writes := c.writes - 1), error, taken))
  {
    var less := c.(writes := c.writes - 1);
    if error != NoError {
      WriteFailedKept(less, error, taken);
    } else if c.status != Open {
      CloseKept(less, taken);
    }
  }

  lemma WriteFailedKept(c: Connection, error: Error, taken: bool)
    requires Sound(c)
    ensures Keeps(c, CloseRequested(SocketClosed(WriteFailed(c, error, taken)), taken))
  {
  }

  lemma SentKept(c: Connection, e: Event)
    requires Sound(c) && e.Send?
    ensures Keeps(c, Sent(c, e))
  {
  }

  lemma StartKept(c: Connection, started: bool, logging: bool, taken: bool)
    requires Sound(c) && (c.reading == Unstarted || c.reading == Handling)
    ensures Keeps(c, ReadStarted(c, Header, started, logging, taken))
  {
  }

  lemma CloseKept(c: Connection, taken: bool)
    requires Sound(c)
    ensures Keeps(c, CloseRequested(c, taken)) && Keeps(c, CloseRequested(SocketClosed(c), taken))
  {
  }

  lemma RunCloseKept(c: Connection, taken: bool)
    requires Sound(c) && c.closeTasks > 0
    ensures Keeps(c, ConnectionClosed(c.(closeTasks := c.closeTasks - 1), taken))
  {
  }

  lemma RunReleaseKept(c: Connection, taken: bool)
    requires Sound(c) && c.releaseTasks > 0
    ensures Keeps(c, Released(c.(releaseTasks := c.releaseTasks - 1), taken))
  {
  }

  lemma StopKept(c: Connection)
    requires Sound(c)
    ensures Keeps(c, c)
    ensures c.stops < c.deletions ==> Keeps(c, c.(socketOpen := false, stops := c.stops + 1))
    ensures Keeps(c, c.(socketOpen := false)) && Keeps(c, c.(refCount := c.refCount + 1))
    ensures c.refCount > 0 ==> Keeps(c, c.(refCount := c.refCount - 1))
  {
  }

  lemma StepKeeps(c: Connection, e: Event)
    requires Sound(c) && Enabled(c, e)
    ensures Keeps(c, Next(c, e))
  {
    hide Keeps, Sound, HeaderParsed, PacketParsed, Written, Sent, ReadStarted, CloseRequested, SocketClosed, ConnectionClosed, Released;
    match e {
      case Accept(started, logging, taken) => StartKept(c, started, logging, taken);
      case RunClose(taken) => RunCloseKept(c, taken);
      case RunRelease(taken) => RunReleaseKept(c, taken);
      case ParseHeader(_, _, _, _, _, _) => HeaderKept(c, e);
      case ParsePacket(_, _, _) => PacketKept(c, e);
      case ReadNext(started, logging, taken) => StartKept(c, started, logging, taken);
      case Send(_, _, _) => SentKept(c, e);
      case OnWrite(error, taken) => WrittenKept(c, error, taken);
      case Close(taken) => CloseKept(c, taken);
      case ReadTimeout(taken) =>
        CloseKept(c, taken);
        StopKept(c);
      case WriteTimeout(taken) =>
        CloseKept(c, taken);
        StopKept(c);
      case _ => StopKept(c);
    }
  }

  /** Every event, in whatever order events come, keeps a connection sound; it deletes the connection only
      when nobody refers to it, once, and as a closed one. */
  lemma SoundKept(c: Connection, e: Event)
    requires Sound(c) && Enabled(c, e)
    ensures Sound(Next(c, e))
    ensures var d := Next(c, e);
            d.deletions != c.deletions ==> c.refCount == 0 && c.deletions == 0 && d.deletions == 1 && d.status == Closed
  {
    hide Sound, Next, Enabled;
    StepKeeps(c, e);
  }

  lemma {:induction false} SoundAlong(c: Connection, es: seq<Event>)
    requires Sound(c) && Run(c, es)
    ensures Sound(After(c, es))
    decreases |es|
  {
    hide Sound, Next, Enabled;
    if es != [] {
      SoundKept(c, es[0]);
      SoundAlong(Next(c, es[0]), es[1..]);
    }
  }

  // ---------------------------------------------------------------- over all runs

  /** From its creation on, through every run: one close task at most and only in REQUEST_CLOSE, one deletion at most
      and only once CLOSED, one write in flight at most, the write counter 0 or 1. */
  lemma AlwaysSound(es: seq<Event>)
    requires Run(New(), es)
    ensures var c := After(New(), es);
            && c.closeTasks <= 1 && (c.closeTasks > 0 ==> c.status == RequestClose)
            && c.deletions <= 1 && (c.deletions > 0 ==> c.status == Closed)
            && c.stops <= 1
            && c.writes <= 1 && 0 <= c.pendingWrite <= 1
  {
    hide Run, After, New;
    assert Sound(New()) by { NewIsSound(); }
    SoundAlong(New(), es);
  }

  lemma NewIsSound()
    ensures Sound(New())
  {
  }

  predicate Silent(c: Connection) {
    c.writes == 0 && (c.status == Open ==> c.pendingWrite == 1)
  }

  /** Where every step leads: not back to OPEN, not out of CLOSED, not back to reading, not back to writing. */
  predicate Onward(c: Connection, d: Connection) {
    && (c.status == Closed ==> d.status == Closed)
    && (c.status != Open ==> d.status != Open)
    && (c.reading == Idle ==> d.reading == Idle)
    && (Silent(c) ==> Silent(d))
  }

  /** A step that leaves a request where it is. */
  predicate Waits(c: Connection, d: Connection) {
    c.status == RequestClose ==> d.status == RequestClose && d.closeTasks == c.closeTasks && d.deletions == c.deletions
  }

  lemma HeaderMoves(c: Connection, e: Event)
    requires Enabled(c, e) && e.ParseHeader?
    ensures Onward(c, HeaderParsed(c, e)) && Waits(c, HeaderParsed(c, e))
  {
    hide Released, SocketClosed;
  }

  lemma PacketMoves(c: Connection, e: Event)
    requires Enabled(c, e) && e.ParsePacket?
    ensures Onward(c, PacketParsed(c, e)) && Waits(c, PacketParsed(c, e))
  {
  }

  lemma WriteMoves(c: Connection, error: Error, taken: bool)
    requires c.writes > 0
    ensures var d := Written(c.(writes := c.writes - 1), error, taken); Onward(c, d) && Waits(c, d)
  {
  }

  lemma StartMoves(c: Connection, started: bool, logging: bool, taken: bool)
    requires c.reading == Unstarted || c.reading == Handling
    ensures var d := ReadStarted(c, Header, started, logging, taken); Onward(c, d) && Waits(c, d)
  {
  }

  lemma CloseMoves(c: Connection, taken: bool)
    ensures Onward(c, CloseRequested(c, taken)) && Waits(c, CloseRequested(c, taken))
    ensures var d := CloseRequested(SocketClosed(c), taken); Onward(c, d) && Waits(c, d)
  {
  }

  lemma RunCloseMoves(c: Connection, taken: bool)
    requires c.closeTasks > 0
    ensures Onward(c, ConnectionClosed(c.(closeTasks := c.closeTasks - 1), taken))
  {
  }

  lemma ReleaseMoves(c: Connection, taken: bool)
    requires c.releaseTasks > 0
    ensures var d := Released(c.(releaseTasks := c.releaseTasks - 1), taken);
            Onward(c, d) && d.status == c.status && d.closeTasks == c.closeTasks
  {
  }

  lemma SendMoves(c: Connection, e: Event)
    requires e.Send?
    ensures Onward(c, Sent(c, e)) && Waits(c, Sent(c, e))
  {
  }

  lemma OtherMoves(c: Connection)
    ensures Onward(c, c) && Waits(c, c)
    ensures var d := c.(socketOpen := false, stops := c.stops + 1); Onward(c, d) && Waits(c, d)
    ensures var d := c.(socketOpen := false); Onward(c, d) && Waits(c, d)
    ensures var d := c.(refCount := c.refCount + 1); Onward(c, d) && Waits(c, d)
    ensures c.refCount > 0 ==> var d := c.(refCount := c.refCount - 1); Onward(c, d) && Waits(c, d)
  {
  }

  lemma NoReturn(c: Connection, e: Event)
    requires Enabled(c, e)
    ensures Onward(c, Next(c, e))
    ensures !e.RunClose? && !e.RunRelease? ==> Waits(c, Next(c, e))
    ensures e.RunRelease? ==> Next(c, e).status == c.status && Next(c, e).closeTasks == c.closeTasks
  {
    hide HeaderParsed, PacketParsed, Written, Sent, ReadStarted, CloseRequested, SocketClosed, ConnectionClosed, Released, Onward, Waits;
    match e {
      case Accept(started, logging, taken) => StartMoves(c, started, logging, taken);
      case RunClose(taken) => RunCloseMoves(c, taken);
      case RunRelease(taken) => ReleaseMoves(c, taken);
      case ParseHeader(_, _, _, _, _, _) => HeaderMoves(c, e);
      case ParsePacket(_, _, _) => PacketMoves(c, e);
      case ReadNext(started, logging, taken) => StartMoves(c, started, logging, taken);
      case Send(_, _, _) => SendMoves(c, e);
      case OnWrite(error, taken) => WriteMoves(c, error, taken);
      case Close(taken) => CloseMoves(c, taken);
      case ReadTimeout(taken) =>
        CloseMoves(c, taken);
        OtherMoves(c);
      case WriteTimeout(taken) =>
        CloseMoves(c, taken);
        OtherMoves(c);
      case _ => OtherMoves(c);
    }
  }

  /** CLOSED is for ever, and OPEN never comes back. */
  lemma {:induction false} NoWayBack(c: Connection, es: seq<Event>)
    requires Run(c, es)
    ensures c.status == Closed ==> After(c, es).status == Closed
    ensures c.status != Open ==> After(c, es).status != Open
    decreases |es|
  {
    hide Next, Enabled;
    if es != [] {
      NoReturn(c, es[0]);
      NoWayBack(Next(c, es[0]), es[1..]);
    }
  }

  /** What an open connection survives, and that anything else makes it ask to be closed, through a task if the dispatcher
      takes it. Writes that end badly and timeouts close the socket as well. */
  lemma StaysOpen(c: Connection, e: Event)
    requires Sound(c) && c.status == Open && Enabled(c, e)
    ensures Next(c, e).status == Open <==>
            match e
            case Accept(started, logging, _) => started || !logging
            case ReadNext(started, logging, _) => started || !logging
            case Close(_) => false
            case ParseHeader(error, badSize, flood, started, logging, _) =>
              error == NoError && !badSize && (flood || started || !logging)
            case ParsePacket(error, noProtocol, _) => error == NoError && !noProtocol
            case OnWrite(error, _) => error == NoError
            case ReadTimeout(_) => c.pendingRead == 0
            case WriteTimeout(_) => c.pendingWrite == 0
            case _ => true
    ensures !(e.AddRef? || e.UnRef? || e.OnStop? || e.ManagerShutdown?) && Next(c, e).status != Open ==>
              var d := Next(c, e);
              && d.status == RequestClose && d.closeTasks == (if e.taken then 1 else 0)
              && d.socketOpen == (c.socketOpen && !e.OnWrite? && !e.ReadTimeout? && !e.WriteTimeout?)
  {
    hide HeaderParsed, PacketParsed, Sent, Written;
    match e {
      case ParseHeader(_, _, _, _, _, _) => HeaderStaysOpen(c, e);
      case ParsePacket(_, _, _) => PacketStaysOpen(c, e);
      case Send(_, _, _) => SendStaysOpen(c, e);
      case OnWrite(error, taken) => WriteStaysOpen(c, error, taken);
      case _ =>
    }
  }

  /** The connection asks to be closed, its socket as it was or closed. */
  predicate Asks(c: Connection, d: Connection, taken: bool, socket: bool) {
    d.status == RequestClose && d.closeTasks == (if taken then 1 else 0) && d.socketOpen == (c.socketOpen && socket)
  }

  lemma HeaderStaysOpen(c: Connection, e: Event)
    requires Sound(c) && c.status == Open && e.ParseHeader?
    ensures var d := HeaderParsed(c, e);
            if e.error == NoError && !e.badSize && (e.flood || e.started || !e.logging) then d.status == Open else Asks(c, d, e.taken, true)
  {
    hide OneRead, OneWrite, OneDeletion, Released, SocketClosed;
    assert !c.readError by { OpenIsClean(c); }
  }

  lemma OpenIsClean(c: Connection)
    requires Sound(c) && c.status == Open
    ensures !c.readError && !c.writeError && c.closeTasks == 0 && c.pendingWrite <= 1
  {
  }

  lemma PacketStaysOpen(c: Connection, e: Event)
    requires Sound(c) && c.status == Open && e.ParsePacket?
    ensures var d := PacketParsed(c, e);
            if e.error == NoError && !e.noProtocol then d.status == Open else Asks(c, d, e.taken, true)
  {
  }

  lemma SendStaysOpen(c: Connection, e: Event)
    requires Sound(c) && c.status == Open && e.Send?
    ensures Sent(c, e).status == Open
  {
  }

  lemma WriteStaysOpen(c: Connection, error: Error, taken: bool)
    requires Sound(c) && c.status == Open && c.writes > 0
    ensures var d := Written(c.(writes := c.writes - 1), error, taken);
            if error == NoError then d.status == Open else Asks(c, d, taken, false)
  {
  }

  /** The branch that should disconnect slow clients is dead: its switch makes no difference. */
  lemma SlowClientsStay(c: Connection, started: bool, taken: bool)
    requires Sound(c)
    ensures Next(c, Send(started, true, taken)) == Next(c, Send(started, false, taken))
    ensures Next(c, Send(started, true, taken)).status == c.status
  {
  }

  /** A client over the packet limit is not disconnected either: `closeConnection`, called without a request, does nothing. */
  lemma FloodersStay(c: Connection, e: Event)
    requires Sound(c) && Enabled(c, e) && e.ParseHeader? && c.status == Open
    requires e.error == NoError && !e.badSize && e.flood
    ensures Next(c, e) == c.(reading := Idle)
  {
  }

  /** And nothing is read from it again, whatever happens. */
  lemma {:induction false} IdleForGood(c: Connection, es: seq<Event>)
    requires c.reading == Idle && Run(c, es)
    ensures After(c, es).reading == Idle
    decreases |es|
  {
    hide Next, Enabled;
    if es != [] {
      NoReturn(c, es[0]);
      IdleForGood(Next(c, es[0]), es[1..]);
    }
  }

  /** A request to close an open connection leads to CLOSED in one task exactly when no write is under way. */
  lemma CloseOfOpen(c: Connection, taken: bool)
    requires Sound(c) && c.status == Open
    ensures var d := Next(c, Close(true));
            Enabled(d, RunClose(taken)) && (Next(d, RunClose(taken)).status == Closed <==> c.pendingWrite == 0)
  {
  }

  /** Otherwise the end of the write, whatever it is, asks again; that leads to CLOSED exactly when the socket
      was still open or the write failed. */
  lemma CloseAfterWrite(c: Connection, error: Error, taken: bool)
    requires Sound(c) && c.status == Closing && c.writes == 1
    ensures var d := Next(c, OnWrite(error, true));
            && Enabled(d, RunClose(taken))
            && (Next(d, RunClose(taken)).status == Closed <==> c.socketOpen || error != NoError)
  {
  }

  lemma RefusedStep(c: Connection, e: Event)
    requires OneDeletion(c) && c.status == RequestClose && c.closeTasks == 0 && Enabled(c, e)
    ensures var d := Next(c, e); d.status == RequestClose && d.closeTasks == 0 && d.deletions == 0
  {
    hide Next, Onward;
    NoReturn(c, e);
    assert !e.RunClose? && !e.RunRelease?;
  }

  lemma {:induction false} RefusedRequest(c: Connection, es: seq<Event>)
    requires Sound(c) && c.status == RequestClose && c.closeTasks == 0 && Run(c, es)
    ensures var d := After(c, es); d.status == RequestClose && d.closeTasks == 0 && d.deletions == 0
    decreases |es|
  {
    hide OneCloseTask, OneWrite, OneRead, Next, Enabled;
    if es != [] {
      SoundKept(c, es[0]);
      RefusedStep(c, es[0]);
      RefusedRequest(Next(c, es[0]), es[1..]);
    }
  }

  lemma RunOfOne(c: Connection, e: Event)
    requires Enabled(c, e)
    ensures Run(c, [e]) && After(c, [e]) == Next(c, e)
  {
    RunCons(c, e, []);
    assert [e] + [] == [e];
  }

  /** A request is never served, whatever happens, if and only if its task is not with the dispatcher: one that was refused. */
  lemma NeverServed(c: Connection)
    requires Sound(c) && c.status == RequestClose
    ensures (forall es :: Run(c, es) ==> After(c, es).status == RequestClose) <==> c.closeTasks == 0
  {
    hide Run, After;
    if c.closeTasks == 0 {
      forall es | Run(c, es) ensures After(c, es).status == RequestClose {
        RefusedRequest(c, es);
      }
    } else {
      RunOfOne(c, RunClose(true));
      assert After(c, [RunClose(true)]).status != RequestClose;
    }
  }

  /** After a write that could not be started, an open connection sends nothing more: the counter has no way down
      but closing. */
  lemma FailedStartSilences(c: Connection, es: seq<Event>)
    requires Sound(c) && c.pendingWrite == 1 && c.writes == 0 && c.status == Open && Run(c, es)
    ensures var d := After(c, es); d.writes == 0 && (d.status == Open ==> d.pendingWrite == 1)
  {
    hide Run, After;
    SilentAlong(c, es);
  }

  /** An open connection never has a write in flight again if and only if one is counted that was never started. */
  lemma SilencedForGood(c: Connection)
    requires Sound(c) && c.status == Open
    ensures (forall es :: Run(c, es) ==> After(c, es).writes == 0) <==> c.pendingWrite == 1 && c.writes == 0
  {
    assert Run(c, []) && After(c, []) == c;
    hide Run, After;
    if c.pendingWrite == 1 && c.writes == 0 {
      forall es | Run(c, es) ensures After(c, es).writes == 0 {
        FailedStartSilences(c, es);
      }
    } else if c.writes == 0 {
      RunOfOne(c, Send(true, false, true));
      assert After(c, [Send(true, false, true)]).writes == 1;
    }
  }

  lemma {:induction false} SilentAlong(c: Connection, es: seq<Event>)
    requires Silent(c) && Run(c, es)
    ensures Silent(After(c, es))
    decreases |es|
  {
    hide Next, Enabled;
    if es != [] {
      NoReturn(c, es[0]);
      SilentAlong(Next(c, es[0]), es[1..]);
    }
  }

  // ---------------------------------------------------------------- after the socket is gone

  /** The handler of this event gets to `closeSocket`. */
  predicate ClosesSocket(c: Connection, e: Event)
    requires Enabled(c, e)
  {
    match e
    case RunClose(_) => c.status == RequestClose && (c.pendingWrite == 0 || c.writeError)
    case OnWrite(error, _) => error != NoError || c.status != Open || c.writeError
    case ReadTimeout(_) => c.pendingRead > 0 || c.readError
    case WriteTimeout(_) => c.pendingWrite > 0 || c.writeError
    case _ => false
  }

  /** `onStop` deletes the socket and leaves a null pointer, which `closeSocket` does not expect. After it, exactly these
      handlers run into that: the end of a write that was still in flight, and timeouts with something pending or an error. */
  lemma MissingSocket(es: seq<Event>, e: Event)
    requires Run(New(), es) && Enabled(After(New(), es), e) && After(New(), es).stops > 0
    ensures var c := After(New(), es);
            ClosesSocket(c, e) <==>
              e.OnWrite?
              || (e.ReadTimeout? && (c.pendingRead > 0 || c.readError))
              || (e.WriteTimeout? && (c.pendingWrite > 0 || c.writeError))
  {
    hide Run, After, New;
    assert Sound(New()) by { NewIsSound(); }
    SoundAlong(New(), es);
  }

  /** A connection that starts reading and writing, times out, is closed and stopped. */
  function Stage(i: nat): Connection {
    if i == 0 then New()
    else if i == 1 then New().(pendingRead := 1, reading := Header)
    else if i == 2 then Stage(1).(pendingWrite := 1, writes := 1)
    else if i == 3 then Stage(2).(pendingRead := 0, pendingWrite := 0, socketOpen := false, status := RequestClose, closeTasks := 1)
    else if i == 4 then Stage(3).(closeTasks := 0, deletions := 1, status := Closed)
    else Stage(4).(stops := 1)
  }

  function Cause(i: nat): Event {
    if i == 0 then Accept(true, true, true)
    else if i == 1 then Send(true, false, true)
    else if i == 2 then ReadTimeout(true)
    else if i == 3 then RunClose(true)
    else OnStop
  }

  lemma {:induction false} Staged(i: nat) returns (es: seq<Event>)
    requires i <= 5
    ensures Run(Stage(i), es) && After(Stage(i), es) == Stage(5)
    decreases 5 - i
  {
    es := [];
    if i < 5 {
      assert Enabled(Stage(i), Cause(i)) && Next(Stage(i), Cause(i)) == Stage(i + 1) by { StageStep(i); }
      hide Next, Enabled, Stage, Cause;
      var rest := Staged(i + 1);
      RunCons(Stage(i), Cause(i), rest);
      es := [Cause(i)] + rest;
    }
  }

  lemma StageStep(i: nat)
    requires i < 5
    ensures Enabled(Stage(i), Cause(i)) && Next(Stage(i), Cause(i)) == Stage(i + 1)
  {
    assert Stage(2) == New().(pendingRead := 1, reading := Header, pendingWrite := 1, writes := 1);
  }

  /** A write can still be in flight then: a read timeout closes the socket under it, and the counters forget it. */
  lemma WriteOutlivesSocket() returns (es: seq<Event>)
    ensures Run(New(), es) && After(New(), es).stops == 1 && After(New(), es).writes == 1
    ensures Enabled(After(New(), es), OnWrite(Aborted, true)) && ClosesSocket(After(New(), es), OnWrite(Aborted, true))
  {
    es := Staged(0);
    assert Stage(2).writes == 1 && Stage(4).writes == 1;
  }
}
