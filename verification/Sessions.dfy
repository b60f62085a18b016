/** Blocking clients of the API (api/fileserver_api.c) against the storage: requests, replies, the
    opened_files mirror of each client, and the lock manager replying on its own. */
module Sessions {
  import opened Basics
  import opened FileStore
  import opened Accounts

  /** A request on a connection. An open runs up to three steps; every other request runs one. */
  datatype Request = Open(p: Path) | Ask(e: Event)

  datatype Reply = Reply(status: Status, expelled: seq<Path>)

  /** Asked: the handler has still to run (for an open, the steps of the given flags).
      Handled: the handler is over; the client blocks until a reply is on the wire. */
  datatype Phase =
    | Idle
    | Asked(request: Request, create: bool, lock: bool, check: bool)
    | Handled(request: Request)

  datatype Client = Client(mirror: seq<Path>, closing: bool, phase: Phase, wire: seq<Reply>)

  /** lost: the clients whose queued lock request went away with its file. */
  datatype System = System(store: Store, clients: map<Fd, Client>, lost: set<Fd>)

  datatype Act =
    | Connect(c: Fd)
    | Send(c: Fd, request: Request, create: bool, lock: bool, check: bool)
    | OpenStep(c: Fd)
    | Serve(c: Fd)
    | Pass
    | Receive(c: Fd)
    | BeginClose(c: Fd)
    | CloseNext(c: Fd)
    | Disconnect(c: Fd)

  /** What the API lets a client send: everything but a close or a read of many files first makes
      sure that the path is among the opened ones. */
  predicate MaySend(c: Fd, mirror: seq<Path>, request: Request)
  {
    match request
    case Open(_) => true
    case Ask(e) =>
      match e
      case Close(d, _) => d == c
      case ReadN(d, _) => d == c
      case Write(d, p, _) => d == c && p in mirror
      case Append(d, p, _) => d == c && p in mirror
      case Read(d, p) => d == c && p in mirror
      case Remove(d, p) => d == c && p in mirror
      case Lock(d, p) => d == c && p in mirror
      case Unlock(d, p) => d == c && p in mirror
      case _ => false
  }

  function RemoveAll(mirror: seq<Path>, gone: seq<Path>): seq<Path>
    decreases gone
  {
    if gone == [] then mirror else RemoveAll(RemoveFirst(mirror, gone[0]), gone[1..])
  }

  /** opened_files once the client has read the reply to its request. */
  function MirrorAfter(mirror: seq<Path>, request: Request, reply: Reply): seq<Path>
  {
    match request
    case Open(p) => if reply.status == Success then mirror + [p] else mirror
    case Ask(Remove(_, p)) => if reply.status == Success then RemoveFirst(mirror, p) else mirror
    case Ask(Write(_, _, _)) => RemoveAll(mirror, reply.expelled)
    case _ => mirror
  }

  /** The waiters of the files that s has and s' has not. */
  function Orphans(s: Store, s': Store): set<Fd>
  {
    set p, c | p in s.files && p !in s'.files && c in s.files[p].waiters :: c
  }

  function NextOpenEvent(c: Fd, k: Client): Event
    requires k.phase.Asked? && k.phase.request.Open?
  {
    if k.phase.create then Create(c, k.phase.request.p)
    else if k.phase.lock then LockOnOpen(c, k.phase.request.p)
    else CheckOnOpen(c, k.phase.request.p)
  }

  /** The client of an open whose next step ended with the given status. */
  function AfterOpenStep(k: Client, status: Status): Client
    requires k.phase.Asked? && k.phase.request.Open?
  {
    var left := if k.phase.create then k.phase.(create := false)
                else if k.phase.lock then k.phase.(lock := false)
                else k.phase.(check := false);
    if status != Success || (!left.lock && !left.check)
    then k.(phase := Handled(k.phase.request), wire := k.wire + [Reply(status, [])])
    else k.(phase := left)
  }

  function Paths(sent: seq<Sent>): seq<Path>
  {
    seq(|sent|, i requires 0 <= i < |sent| => sent[i].path)
  }

  /** The client of another request whose step ended: no reply while the lock is awaited. */
  function AfterServe(k: Client, status: Status, sent: seq<Sent>): Client
    requires k.phase.Asked?
  {
    var expelled := if k.phase.request.Ask? && k.phase.request.e.Write? then Paths(sent) else [];
    k.(phase := Handled(k.phase.request),
       wire := if status == Awaiting then k.wire else k.wire + [Reply(status, expelled)])
  }

  /** The replies of one lock-manager pass to client c. */
  function RepliesTo(grants: seq<(Path, Fd)>, c: Fd): seq<Reply>
  {
    if grants == [] then []
    else (if grants[0].1 == c then [Reply(Success, [])] else []) + RepliesTo(grants[1..], c)
  }

  ghost predicate Ready(y: System, c: Fd)
  {
    c in y.clients && y.clients[c].phase == Idle
  }

  /** A server step that does not crash. */
  ghost predicate CanRun(y: System, e: Event, r: Reading)
  {
    Apply(y.store, e, r).Done?
  }

  function Ran(y: System, c: Fd, e: Event, k: Client, r: Reading): System
    requires Apply(y.store, e, r).Done?
  {
    var s' := Apply(y.store, e, r).store;
    System(s', y.clients[c := k], y.lost + Orphans(y.store, s'))
  }

  ghost predicate Enabled(y: System, a: Act, r: Reading)
  {
    match a
    case Connect(c) => c !in y.clients
    case Send(c, q, create, lock, check) =>
      Ready(y, c) && !y.clients[c].closing && MaySend(c, y.clients[c].mirror, q)
    case OpenStep(c) =>
      && c in y.clients && y.clients[c].phase.Asked? && y.clients[c].phase.request.Open?
      && CanRun(y, NextOpenEvent(c, y.clients[c]), r)
    case Serve(c) =>
      && c in y.clients && y.clients[c].phase.Asked? && y.clients[c].phase.request.Ask?
      && CanRun(y, y.clients[c].phase.request.e, r)
    case Pass => true
    case Receive(c) => c in y.clients && y.clients[c].phase.Handled? && y.clients[c].wire != []
    case BeginClose(c) => Ready(y, c) && !y.clients[c].closing
    case CloseNext(c) => Ready(y, c) && y.clients[c].closing && y.clients[c].mirror != []
    case Disconnect(c) => Ready(y, c) && y.clients[c].closing && y.clients[c].mirror == []
  }

  ghost function Next(y: System, a: Act, r: Reading): System
    requires Enabled(y, a, r)
  {
    match a
    case Connect(c) => y.(clients := y.clients[c := Client([], false, Idle, [])])
    case Send(c, q, create, lock, check) =>
      var k := y.clients[c].(phase := Asked(q, create, lock, check));
      y.(clients := y.clients[c := k])
    case OpenStep(c) =>
      var e := NextOpenEvent(c, y.clients[c]);
      // an open without flags runs no step and succeeds
      var status := if y.clients[c].phase == Asked(y.clients[c].phase.request, false, false, false) then Success
                    else Apply(y.store, e, r).status;
      Ran(y, c, e, AfterOpenStep(y.clients[c], status), r)
    case Serve(c) =>
      var e := y.clients[c].phase.request.e;
      var o := Apply(y.store, e, r);
      Ran(y, c, e, AfterServe(y.clients[c], o.status, o.sent), r)
    case Pass =>
      var grants := Grants(y.store.files, Visited(y.store.files, y.store.fifo));
      y.(store := LockManagerPass(y.store),
         clients := map c | c in y.clients :: y.clients[c].(wire := y.clients[c].wire + RepliesTo(grants, c)))
    case Receive(c) =>
      var k := y.clients[c];
      var mirror := MirrorAfter(k.mirror, k.phase.request, k.wire[0]);
      y.(clients := y.clients[c := Client(mirror, k.closing, Idle, k.wire[1..])])
    case BeginClose(c) => y.(clients := y.clients[c := y.clients[c].(closing := true)])
    case CloseNext(c) =>
      var k := y.clients[c];
      var phase := Asked(Ask(Close(c, k.mirror[0])), false, false, false);
      y.(clients := y.clients[c := k.(mirror := k.mirror[1..], phase := phase)])
    case Disconnect(c) => y.(clients := y.clients - {c})
  }

  ghost predicate Owns(s: Store, c: Fd, p: Path)
  {
    p in s.files && s.files[p].owner == c
  }

  ghost predicate Waits(s: Store, c: Fd, p: Path)
  {
    p in s.files && c in s.files[p].waiters
  }

  /** The path is in the mirror, or is the subject of the call in progress, or will be in the mirror
      once the reply on the wire has been read. */
  ghost predicate Covered(k: Client, p: Path)
  {
    match k.phase
    case Idle => p in k.mirror
    case Asked(Open(q), create, lock, _) => p in k.mirror || (!create && !lock && p == q)
    case Asked(Ask(e), _, _, _) => p in k.mirror || (e.Close? && p == e.p)
    case Handled(q) => if k.wire == [] then p in k.mirror else p in MirrorAfter(k.mirror, q, k.wire[0])
  }

  ghost predicate Locking(k: Client, c: Fd, p: Path)
  {
    k.phase == Handled(Ask(Lock(c, p)))
  }

  /** A request waits for its handler, or has one reply, or is a lock request that is queued or lost. */
  ghost predicate ReplyOk(s: Store, lost: set<Fd>, c: Fd, k: Client)
  {
    match k.phase
    case Idle => k.wire == [] && c !in lost
    case Asked(_, _, _, _) => k.wire == [] && c !in lost
    case Handled(q) =>
      if q.Ask? && q.e.Lock? then
        && |k.wire| <= 1
        && (k.wire == [] <==> Waits(s, c, q.e.p) || c in lost)
        && !(Waits(s, c, q.e.p) && c in lost)
      else |k.wire| == 1 && c !in lost
  }

  /** What a client is asking for is something the API lets it ask for. */
  ghost predicate AskOk(c: Fd, k: Client)
  {
    k.phase != Idle && k.phase.request.Ask? ==>
      var e := k.phase.request.e;
      && !e.LockPass? && e.c == c && (e.Lock? ==> e.p in k.mirror)
      && !e.Create? && !e.LockOnOpen? && !e.CheckOnOpen?
  }

  ghost predicate ClientOk(s: Store, lost: set<Fd>, c: Fd, k: Client)
  {
    && AskOk(c, k) && ReplyOk(s, lost, c, k)
    && forall p :: Owns(s, c, p) ==> Covered(k, p)
  }

  /** The owner and the waiters of a file are connected; a waiter is blocked on that very lock. */
  ghost predicate FileUsers(y: System, p: Path)
    requires p in y.store.files
  {
    var f := y.store.files[p];
    && (f.owner != NO_OWNER ==> f.owner >= 0 && f.owner in y.clients)
    && NoDup(f.waiters)
    && forall c :: c in f.waiters ==>
         f.owner != c && c in y.clients && Locking(y.clients[c], c, p) && y.clients[c].wire == [] && c !in y.lost
  }

  ghost predicate SysInv(y: System)
  {
    && Inv(y.store)
    && y.lost <= y.clients.Keys
    && (forall p :: p in y.store.files ==> FileUsers(y, p))
    && forall c :: c in y.clients ==> ClientOk(y.store, y.lost, c, y.clients[c])
  }
}
