/** What each region guarded by the storage mutex does to the storage (server/storage.c,
    server/worker.c, server/lock_manager.c), as functions on a value. */
module FileStore {
  import opened Basics
  import opened HashTables

  const NO_OWNER: int := -1

  /** The response codes of utils/protocol.h, in order from 0. */
  datatype Status =
    | Success | Accepted | InternalError | BadRequest | NotFound | Unauthorized
    | MissingBody | FileTooBig | FilesExpelled | FileExists | Awaiting | NoMoreCon

  /** unwritten is the O_CREATE bit of the flags, locked the O_LOCK bit. */
  datatype File = File(
    unwritten: bool, locked: bool, owner: int, size: nat, contents: seq<Byte>, waiters: seq<Fd>)

  datatype Store = Store(
    maxSize: nat, maxFiles: nat, currentSize: int, noOfFiles: int,
    files: map<Path, File>, fifo: seq<Path>)

  /** A file sent to a client. */
  datatype Sent = Sent(path: Path, body: seq<Byte>)

  /** Crash is a null pointer dereferenced: eviction took the head of an empty queue, or looked up a
      path that is not in the table. */
  datatype Outcome = Done(store: Store, status: Status, sent: seq<Sent>) | Crash

  type Positive = n: nat | n > 0 witness 1

  /** The code as it stands, over a table of the given hash and number of buckets, or as it is meant.
      They differ in Delete, RemoveFile, LockOnOpen and Write. */
  datatype Reading = AsWritten(hash: Path -> nat, buckets: Positive) | AsMeant

  /** One region guarded by the mutex. Opening a file takes up to three. */
  datatype Event =
    | Create(c: Fd, p: Path)
    | LockOnOpen(c: Fd, p: Path)
    | CheckOnOpen(c: Fd, p: Path)
    | Close(c: Fd, p: Path)
    | Write(c: Fd, p: Path, body: seq<Byte>)
    | Append(c: Fd, p: Path, body: seq<Byte>)
    | Read(c: Fd, p: Path)
    | ReadN(c: Fd, n: int)
    | Remove(c: Fd, p: Path)
    | Lock(c: Fd, p: Path)
    | Unlock(c: Fd, p: Path)
    | LockPass

  ghost predicate Written(s: Store, p: Path)
  {
    p in s.files && !s.files[p].unwritten
  }

  /** The queue names written files only, each once. */
  ghost predicate QueueOk(s: Store)
  {
    NoDup(s.fifo) && forall p :: p in s.fifo ==> Written(s, p)
  }

  function NewFile(): File
  {
    File(true, false, NO_OWNER, 0, [], [])
  }

  /** storage_update_file */
  function Update(s: Store, p: Path, f: File): Store
  {
    s.(files := s.files[p := f])
  }

  /** storage_add_file */
  function AddFile(s: Store, p: Path): Store
  {
    s.(files := s.files[p := NewFile()], noOfFiles := s.noOfFiles + 1)
  }

  /** hash_map_remove: as written, the other keys of the bucket go too. */
  function Delete(m: map<Path, File>, p: Path, r: Reading): map<Path, File>
  {
    if r.AsMeant? then m - {p}
    else if p in m then ClearBucket(m, r.hash, r.buckets, p)
    else m
  }

  /** storage_remove_file: as written, a path that is not queued keeps its table entry. */
  function RemoveFile(s: Store, p: Path, r: Reading): Store
  {
    if p !in s.files then s
    else
      var s1 := s.(noOfFiles := s.noOfFiles - 1, currentSize := s.currentSize - s.files[p].size);
      if r.AsWritten? && p !in s1.fifo then s1
      else s1.(fifo := RemoveFirst(s1.fifo, p), files := Delete(s1.files, p, r))
  }

  function CreateFile(s: Store, p: Path, r: Reading): Outcome
  {
    if p in s.files then Done(s, FileExists, [])
    else if s.noOfFiles + 1 > s.maxFiles then
      if s.fifo == [] then Done(s, InternalError, [])
      else Done(AddFile(RemoveFile(s.(fifo := s.fifo[1..]), s.fifo[0], r), p), Success, [])
    else Done(AddFile(s, p), Success, [])
  }

  /** As written the test asks whether the opener itself holds the lock. */
  function LockOpened(s: Store, c: Fd, p: Path, r: Reading): Outcome
  {
    if p !in s.files then Done(s, NotFound, [])
    else
      var f := s.files[p];
      if f.locked && (if r.AsWritten? then f.owner == c else f.owner != c) then Done(s, Unauthorized, [])
      else Done(Update(s, p, f.(owner := c, locked := true)), Success, [])
  }

  function CheckOpened(s: Store, p: Path): Outcome
  {
    Done(s, if p in s.files then Success else NotFound, [])
  }

  function CloseFile(s: Store, c: Fd, p: Path): Outcome
  {
    if p !in s.files then Done(s, NotFound, [])
    else
      var f := s.files[p];
      Done(if f.locked && f.owner == c then Update(s, p, f.(locked := false, owner := NO_OWNER)) else s, Success, [])
  }

  /** storage_FIFO_replace: None when it would dereference a null pointer before there is room. */
  function Evict(s: Store, required: nat, r: Reading): Option<(Store, seq<Sent>)>
    decreases |s.fifo|
  {
    if s.currentSize + required <= s.maxSize then Some((s, []))
    else if s.fifo == [] || s.fifo[0] !in s.files then None
    else
      match Evict(EvictHead(s, r), required, r)
      case None => None
      case Some((s', sent)) => Some((s', [Sent(s.fifo[0], s.files[s.fifo[0]].contents)] + sent))
  }

  function EvictHead(s: Store, r: Reading): Store
    requires s.fifo != [] && s.fifo[0] in s.files
  {
    var p := s.fifo[0];
    s.(fifo := s.fifo[1..], currentSize := s.currentSize - s.files[p].size,
       noOfFiles := s.noOfFiles - 1, files := Delete(s.files, p, r))
  }

  /** As meant, bytes appended before the first write stop counting when it replaces them. */
  function WriteFile(s: Store, c: Fd, p: Path, body: seq<Byte>, r: Reading): Outcome
  {
    if |body| == 0 then Done(s, BadRequest, [])
    else if p !in s.files then Done(s, NotFound, [])
    else
      var f := s.files[p];
      if f.owner != c then Done(s, Unauthorized, [])
      else if |body| > s.maxSize then Done(RemoveFile(s, p, r), FileTooBig, [])
      else if !f.unwritten then Done(s, FileExists, [])
      else
        match Evict(s, |body|, r)
        case None => Crash
        case Some((s1, sent)) =>
          var s2 := Update(s1, p, f.(unwritten := false, size := |body|, contents := body));
          var discount := if r.AsWritten? then 0 else f.size;
          Done(s2.(fifo := s2.fifo + [p], currentSize := s2.currentSize + |body| - discount), Success, sent)
  }

  function AppendFile(s: Store, c: Fd, p: Path, body: seq<Byte>): Outcome
  {
    if |body| == 0 then Done(s, BadRequest, [])
    else if |body| > s.maxSize then Done(s, FileTooBig, [])
    else if p !in s.files then Done(s, NotFound, [])
    else
      var f := s.files[p];
      if f.owner != c then Done(s, Unauthorized, [])
      else
        var s1 := Update(s, p, f.(size := f.size + |body|, contents := f.contents + body));
        Done(s1.(currentSize := s1.currentSize + |body|), Success, [])
  }

  function ReadFile(s: Store, p: Path): Outcome
  {
    if p !in s.files then Done(s, NotFound, []) else Done(s, Success, [Sent(p, s.files[p].contents)])
  }

  /** A size_t assigned to a C int. */
  function ToInt(n: nat): int
  {
    var v := n % 0x1_0000_0000;
    if v < 0x8000_0000 then v else v - 0x1_0000_0000
  }

  /** How many files a request for n may bring: no limit but the byte limit for n <= 0. */
  function Clamp(s: Store, n: int): int
  {
    if n <= 0 || n > s.maxSize then ToInt(s.maxSize) else n
  }

  function ReadNFiles(s: Store, n: int): Outcome
  {
    var k := if Clamp(s, n) <= 0 then 0 else if Clamp(s, n) < |s.fifo| then Clamp(s, n) else |s.fifo|;
    if forall i :: 0 <= i < k ==> s.fifo[i] in s.files then
      Done(s, Success, seq(k, i requires 0 <= i < k => Sent(s.fifo[i], s.files[s.fifo[i]].contents)))
    else Done(s, InternalError, [])
  }

  function RemoveRequested(s: Store, c: Fd, p: Path, r: Reading): Outcome
  {
    if p !in s.files then Done(s, NotFound, [])
    else if !s.files[p].locked || s.files[p].owner != c then Done(s, Unauthorized, [])
    else Done(RemoveFile(s, p, r), Success, [])
  }

  function LockFile(s: Store, c: Fd, p: Path): Outcome
  {
    if p !in s.files then Done(s, NotFound, [])
    else
      var f := s.files[p];
      if !f.locked then Done(Update(s, p, f.(locked := true, owner := c)), Success, [])
      else if f.owner == c then Done(s, Success, [])
      else Done(Update(s, p, f.(waiters := f.waiters + [c])), Awaiting, [])
  }

  function UnlockFile(s: Store, c: Fd, p: Path): Outcome
  {
    if p !in s.files then Done(s, NotFound, [])
    else
      var f := s.files[p];
      if !f.locked then Done(s, BadRequest, [])
      else if f.owner == c then Done(Update(s, p, f.(locked := false, owner := NO_OWNER)), Success, [])
      else Done(s, Unauthorized, [])
  }

  predicate Grantable(f: File)
  {
    !f.locked && f.waiters != []
  }

  /** The lock goes to the head waiter of an unlocked file. */
  function Grant(f: File): File
  {
    if Grantable(f) then f.(locked := true, owner := f.waiters[0], waiters := f.waiters[1..]) else f
  }

  /** The walk of a pass: along the queue, up to a path that is not in the table. */
  function Visited(files: map<Path, File>, q: seq<Path>): (v: seq<Path>)
    ensures v <= q && forall p :: p in v ==> p in files
    ensures (forall p :: p in q ==> p in files) ==> v == q
  {
    if q == [] || q[0] !in files then []
    else
      assert q == [q[0]] + q[1..];
      [q[0]] + Visited(files, q[1..])
  }

  /** One pass of the lock manager: it visits the queue, so never a file that was not written. */
  function LockManagerPass(s: Store): Store
  {
    var visited := Visited(s.files, s.fifo);
    s.(files := map p | p in s.files :: if p in visited then Grant(s.files[p]) else s.files[p])
  }

  /** The clients a pass replies to, in order. */
  function Grants(files: map<Path, File>, q: seq<Path>): seq<(Path, Fd)>
    requires forall p :: p in q ==> p in files
  {
    if q == [] then []
    else if Grantable(files[q[0]]) then [(q[0], files[q[0]].waiters[0])] + Grants(files, q[1..])
    else Grants(files, q[1..])
  }

  function Apply(s: Store, e: Event, r: Reading): Outcome
  {
    match e
    case Create(_, p) => CreateFile(s, p, r)
    case LockOnOpen(c, p) => LockOpened(s, c, p, r)
    case CheckOnOpen(_, p) => CheckOpened(s, p)
    case Close(c, p) => CloseFile(s, c, p)
    case Write(c, p, body) => WriteFile(s, c, p, body, r)
    case Append(c, p, body) => AppendFile(s, c, p, body)
    case Read(_, p) => ReadFile(s, p)
    case ReadN(_, n) => ReadNFiles(s, n)
    case Remove(c, p) => RemoveRequested(s, c, p, r)
    case Lock(c, p) => LockFile(s, c, p)
    case Unlock(c, p) => UnlockFile(s, c, p)
    case LockPass => Done(LockManagerPass(s), Success, [])
  }
}
