/** The storage object and the code that changes it in place, as written: server/storage.c, the
    request handlers of server/worker.c and the pass of server/lock_manager.c. The table and the
    queue are the hash table and the linked list on the heap. */
module Handlers {
  import opened Basics
  import opened LinkedLists
  import opened HashTables
  import opened Wire
  import opened FileStore
  import opened Replies

  /** An eviction that sent the given files before it went on as told. */
  ghost function Resume(sent: seq<Sent>, rest: Option<(Store, seq<Sent>)>): (r: Option<(Store, seq<Sent>)>)
    ensures rest.Some? && rest.value.1 == [] ==> r == Some((rest.value.0, sent))
    ensures sent == [] ==> r == rest
  {
    match rest
    case None => None
    case Some((s, more)) =>
      assert sent + [] == sent && [] + more == more;
      Some((s, sent + more))
  }

  lemma ResumeOne(sent: seq<Sent>, x: Sent, rest: Option<(Store, seq<Sent>)>)
    ensures Resume(sent, Resume([x], rest)) == Resume(sent + [x], rest)
  {
    if rest.Some? {
      assert sent + ([x] + rest.value.1) == sent + [x] + rest.value.1;
    }
  }

  function Dequeued(s: Store): Store
    requires s.fifo != []
  {
    s.(fifo := s.fifo[1..])
  }

  function Unqueued(s: Store, p: Path): Store
  {
    s.(fifo := RemoveFirst(s.fifo, p))
  }

  function Discounted(s: Store, size: nat): Store
  {
    s.(noOfFiles := s.noOfFiles - 1, currentSize := s.currentSize - size)
  }

  function Dropped(s: Store, p: Path, r: Reading): Store
  {
    s.(files := Delete(s.files, p, r))
  }

  function Enqueued(s: Store, p: Path, f: File): Store
  {
    Update(s, p, f).(fifo := s.fifo + [p], currentSize := s.currentSize + f.size)
  }

  function Extended(s: Store, p: Path, f: File, size: nat): Store
  {
    Update(s, p, f).(currentSize := s.currentSize + size)
  }

  lemma AppendFileInParts(s: Store, c: Fd, p: Path, body: seq<Byte>)
    requires 0 < |body| <= s.maxSize && p in s.files && s.files[p].owner == c
    ensures var f := s.files[p];
            AppendFile(s, c, p, body) ==
            Done(Extended(s, p, f.(size := f.size + |body|, contents := f.contents + body), |body|), Success, [])
  {
  }

  lemma CreateFileInParts(s: Store, p: Path, r: Reading)
    requires r.AsWritten?
    ensures CreateFile(s, p, r) ==
            if p in s.files then Done(s, FileExists, [])
            else if s.noOfFiles + 1 <= s.maxFiles then Done(AddFile(s, p), Success, [])
            else if s.fifo == [] then Done(s, InternalError, [])
            else Done(AddFile(FileStore.RemoveFile(Dequeued(s), s.fifo[0], r), p), Success, [])
  {
  }

  /** The last part of a write as written. */
  lemma WriteFileInParts(s: Store, c: Fd, p: Path, body: seq<Byte>, r: Reading)
    requires r.AsWritten? && 0 < |body| <= s.maxSize
    requires p in s.files && s.files[p].owner == c && s.files[p].unwritten
    ensures WriteFile(s, c, p, body, r) ==
            match Evict(s, |body|, r)
            case None => Crash
            case Some((s1, sent)) =>
              var f := s.files[p].(unwritten := false, size := |body|, contents := body);
              Done(Enqueued(s1, p, f), Success, sent)
  {
  }

  lemma EvictHeadInParts(s: Store, r: Reading)
    requires s.fifo != [] && s.fifo[0] in s.files
    ensures EvictHead(s, r) == Dropped(Discounted(Dequeued(s), s.files[s.fifo[0]].size), s.fifo[0], r)
  {
  }

  /** The removal as written, part by part. */
  lemma RemoveFileInParts(s: Store, p: Path, r: Reading)
    requires r.AsWritten?
    ensures FileStore.RemoveFile(s, p, r) ==
            if p !in s.files then s
            else if p !in s.fifo then Discounted(s, s.files[p].size)
            else Dropped(Unqueued(Discounted(s, s.files[p].size), p), p, r)
  {
  }

  class Storage {
    const maxSize: nat
    const maxFiles: nat
    const files: HashTable<Path, File>
    const fifoQueue: LinkedList<Path>
    var currentSize: int
    var noOfFiles: int

    ghost var repr: set<object>  // every object of the storage

    ghost predicate Valid()
      reads this, files, files.buckets, files.repr, fifoQueue, fifoQueue.spine
    {
      && files.Valid() && fifoQueue.Valid()
      && {this, files, files.buckets, fifoQueue} <= repr
      && files.repr <= repr && forall n :: n in fifoQueue.spine ==> n in repr
    }

    /** The storage as a value. */
    ghost function View(): Store
      reads this, files, fifoQueue, fifoQueue.spine
    {
      Store(maxSize, maxFiles, currentSize, noOfFiles, files.contents, fifoQueue.Contents())
    }

    /** How this code reads: its table has this hash and this number of buckets. */
    ghost function Code(): Reading
      requires files.buckets.Length > 0
    {
      AsWritten(files.hash, files.buckets.Length)
    }

    constructor (maxSize: nat, maxFiles: nat, hash: Path -> nat)
      requires maxFiles > 0
      ensures Valid() && fresh(repr) && View() == Store(maxSize, maxFiles, 0, 0, map[], [])
      ensures files.buckets.Length == 2 * maxFiles && files.hash == hash
    {
      this.maxSize, this.maxFiles := maxSize, maxFiles;
      currentSize, noOfFiles := 0, 0;
      files := new HashTable(2 * maxFiles, hash);
      fifoQueue := new LinkedList();
      new;
      repr := {this, files, files.buckets, fifoQueue};
    }

    method GetFile(p: Path) returns (file: Option<File>)
      requires files.Valid()
      ensures file == if p in files.contents then Some(files.contents[p]) else None
    {
      file := files.Get(p);
    }

    method AddNewFile(p: Path)
      requires Valid()
      modifies this, files, files.buckets, files.repr
      ensures Valid() && fresh(repr - old(repr))
      ensures View() == AddFile(old(View()), p)
    {
      UpdateFile(p, NewFile());
      noOfFiles := noOfFiles + 1;
    }

    method UpdateFile(p: Path, f: File)
      requires Valid()
      modifies `repr, files, files.buckets, files.repr
      ensures Valid() && fresh(repr - old(repr))
      ensures View() == Update(old(View()), p, f)
      ensures fifoQueue.spine == old(fifoQueue.spine) && (p in old(View()).files ==> repr == old(repr))
    {
      files.Insert(p, f);
      repr := repr + files.repr;
    }

    /** The end of a first write: the new contents, the place in the queue and the bytes counted. */
    method FirstWrite(p: Path, f: File)
      requires Valid()
      modifies repr
      ensures Valid() && fresh(repr - old(repr))
      ensures View() == Enqueued(old(View()), p, f)
    {
      UpdateFile(p, f);
      Enqueue(p);
      currentSize := currentSize + f.size;
    }

    method Extend(p: Path, f: File, size: nat)
      requires Valid()
      modifies repr
      ensures Valid() && fresh(repr - old(repr))
      ensures View() == Extended(old(View()), p, f, size)
    {
      UpdateFile(p, f);
      currentSize := currentSize + size;
    }

    method Enqueue(p: Path)
      requires Valid()
      modifies `repr, fifoQueue, fifoQueue.spine
      ensures Valid() && fresh(repr - old(repr))
      ensures View() == old(View()).(fifo := old(View()).fifo + [p])
    {
      fifoQueue.InsertTail(p);
      repr := repr + set n | n in fifoQueue.spine;
    }

    /** The queue's part of a removal. */
    method Unqueue(p: Path) returns (result: int)
      requires Valid()
      modifies fifoQueue, fifoQueue.spine
      ensures Valid() && repr == old(repr)
      ensures View() == Unqueued(old(View()), p)
      ensures result == if p in old(View()).fifo then 0 else -1
    {
      result := fifoQueue.RemoveElement(p);
    }

    method TakeHead() returns (p: Option<Path>)
      requires Valid()
      modifies fifoQueue
      ensures Valid() && repr == old(repr)
      ensures var s := old(View());
              if s.fifo == [] then p == None && View() == s else p == Some(s.fifo[0]) && View() == Dequeued(s)
    {
      p := fifoQueue.RemoveHead();
    }

    /** The table's part of a removal. */
    method Drop(p: Path) returns (result: int)
      requires Valid()
      modifies files, files.buckets
      ensures Valid() && repr == old(repr)
      ensures View() == Dropped(old(View()), p, Code())
      ensures result == if p in old(View()).files then 0 else -1
    {
      result := files.RemoveAsWritten(p);
    }

    /** The counters' part of a removal. */
    method Discount(size: nat)
      requires Valid()
      modifies this
      ensures Valid() && repr == old(repr)
      ensures View() == Discounted(old(View()), size)
    {
      noOfFiles := noOfFiles - 1;
      currentSize := currentSize - size;
    }

    method RemoveFile(p: Path) returns (result: int)
      requires Valid()
      modifies repr
      ensures Valid() && repr == old(repr)
      ensures View() == FileStore.RemoveFile(old(View()), p, Code())
      ensures result == if p in old(View()).files && p in old(View()).fifo then 0 else -1
    {
      RemoveFileInParts(View(), p, Code());
      var file := GetFile(p);
      if file == None {
        return -1;
      }
      Discount(file.value.size);
      result := Unqueue(p);
      if result != 0 {
        RemoveFirstAbsent(old(View()).fifo, p);
        return -1;
      }
      result := Drop(p);
    }

    /** The loop's step: the head of the queue leaves, or the code dereferences a null pointer. */
    method RemoveOldest() returns (copy: Option<Sent>)
      requires Valid()
      modifies repr
      ensures Valid() && repr == old(repr)
      ensures var s := old(View());
              if s.fifo == [] || s.fifo[0] !in s.files then copy == None
              else copy == Some(Sent(s.fifo[0], s.files[s.fifo[0]].contents)) && View() == EvictHead(s, Code())
    {
      var p := TakeHead();
      if p == None {
        return None;
      }
      var file := GetFile(p.value);
      if file == None {
        return None;
      }
      EvictHeadInParts(old(View()), Code());
      copy := Some(Sent(p.value, file.value.contents));
      Discount(file.value.size);
      var _ := Drop(p.value);
    }

    /** Stops with crashed when it would dereference a null pointer. */
    method FifoReplace(required: nat) returns (crashed: bool, removed: nat, replaced: seq<Sent>)
      requires Valid()
      modifies repr
      ensures Valid() && repr == old(repr)
      ensures crashed <==> Evict(old(View()), required, Code()) == None
      ensures !crashed ==> removed == |replaced| && Evict(old(View()), required, Code()) == Some((View(), replaced))
    {
      crashed, removed, replaced := false, 0, [];
      while currentSize + required > maxSize
        invariant Valid() && repr == old(repr) && removed == |replaced|
        invariant Evict(old(View()), required, Code()) == Resume(replaced, Evict(View(), required, Code()))
        decreases |View().fifo|
      {
        ghost var before := View();
        var copy := RemoveOldest();
        if copy == None {
          return true, removed, replaced;
        }
        ResumeOne(replaced, copy.value, Evict(View(), required, Code()));
        replaced := replaced + [copy.value];
        removed := removed + 1;
      }
    }
  }

  /** The region of open_file_handler for O_CREATE. */
  method OpenCreateHandler(storage: Storage, p: Path) returns (status: Status)
    requires storage.Valid()
    modifies storage.repr
    ensures storage.Valid() && fresh(storage.repr - old(storage.repr))
    ensures Done(storage.View(), status, []) == CreateFile(old(storage.View()), p, storage.Code())
  {
    CreateFileInParts(storage.View(), p, storage.Code());
    var found := storage.GetFile(p);
    if found != None {
      return FileExists;
    }
    if storage.noOfFiles + 1 > storage.maxFiles {
      var freed := FreeSlot(storage);
      if !freed {
        return InternalError;
      }
    }
    storage.AddNewFile(p);
    return Success;
  }

  /** The eviction at the file limit; it fails on an empty queue. */
  method FreeSlot(storage: Storage) returns (freed: bool)
    requires storage.Valid()
    modifies storage.repr
    ensures storage.Valid() && storage.repr == old(storage.repr)
    ensures var s := old(storage.View());
            if s.fifo == [] then !freed && storage.View() == s
            else freed && storage.View() == FileStore.RemoveFile(Dequeued(s), s.fifo[0], storage.Code())
  {
    var victim := storage.TakeHead();
    if victim == None {
      return false;
    }
    var _ := storage.RemoveFile(victim.value);
    return true;
  }

  /** The region of open_file_handler for O_LOCK. */
  method OpenLockHandler(storage: Storage, c: Fd, p: Path) returns (status: Status)
    requires storage.Valid()
    modifies storage.repr
    ensures storage.Valid() && fresh(storage.repr - old(storage.repr))
    ensures Done(storage.View(), status, []) == LockOpened(old(storage.View()), c, p, storage.Code())
  {
    var found := storage.GetFile(p);
    if found == None {
      return NotFound;
    }
    var file := found.value;
    if file.locked && file.owner == c {
      return Unauthorized;
    }
    storage.UpdateFile(p, file.(owner := c, locked := true));
    return Success;
  }

  /** The region of open_file_handler for O_NOFLAG. */
  method OpenCheckHandler(storage: Storage, p: Path) returns (status: Status)
    requires storage.Valid()
    ensures Done(storage.View(), status, []) == CheckOpened(storage.View(), p)
  {
    var found := storage.GetFile(p);
    return if found == None then NotFound else Success;
  }

  method CloseFileHandler(storage: Storage, c: Fd, p: Path) returns (status: Status)
    requires storage.Valid()
    modifies storage.repr
    ensures storage.Valid() && fresh(storage.repr - old(storage.repr))
    ensures Done(storage.View(), status, []) == CloseFile(old(storage.View()), c, p)
  {
    var found := storage.GetFile(p);
    if found == None {
      return NotFound;
    }
    var file := found.value;
    if file.locked && file.owner == c {
      storage.UpdateFile(p, file.(locked := false, owner := NO_OWNER));
    }
    return Success;
  }

  /** The frames sent while the mutex is held announce the expelled files; the caller sends the last
      frame. */
  method WriteFileHandler(storage: Storage, ch: Channel, phrases: Phrases, c: Fd, p: Path, body: seq<Byte>)
      returns (crashed: bool, status: Status, ghost sent: seq<Sent>)
    requires storage.Valid() && ch !in storage.repr
    modifies storage.repr, ch
    ensures storage.Valid() && fresh(storage.repr - old(storage.repr))
    ensures crashed <==> WriteFile(old(storage.View()), c, p, body, storage.Code()) == Crash
    ensures !crashed ==>
              && Done(storage.View(), status, sent) == WriteFile(old(storage.View()), c, p, body, storage.Code())
              && ch.bytes == old(ch.bytes) + EncodeResponses(ExpelledFrames(phrases, sent))
  {
    crashed, sent := false, [];
    if |body| == 0 {
      return false, BadRequest, [];
    }
    var found := storage.GetFile(p);
    if found == None {
      return false, NotFound, [];
    }
    var file := found.value;
    if file.owner != c {
      return false, Unauthorized, [];
    }
    if |body| > storage.maxSize {
      var _ := storage.RemoveFile(p);
      return false, FileTooBig, [];
    }
    if !file.unwritten {
      return false, FileExists, [];
    }
    WriteFileInParts(storage.View(), c, p, body, storage.Code());
    crashed, sent := WriteFresh(storage, ch, phrases, c, p, file, body);
    status := if crashed then InternalError else Success;
  }

  /** The rest of the write handler, past its guards. */
  method WriteFresh(storage: Storage, ch: Channel, phrases: Phrases, c: Fd, p: Path, file: File, body: seq<Byte>)
      returns (crashed: bool, ghost sent: seq<Sent>)
    requires storage.Valid() && ch !in storage.repr
    modifies storage.repr, ch
    ensures storage.Valid() && fresh(storage.repr - old(storage.repr))
    ensures crashed <==> Evict(old(storage.View()), |body|, storage.Code()) == None
    ensures !crashed ==>
              var (s1, replaced) := Evict(old(storage.View()), |body|, storage.Code()).value;
              && storage.View() == Enqueued(s1, p, file.(unwritten := false, size := |body|, contents := body))
              && sent == replaced && ch.bytes == old(ch.bytes) + EncodeResponses(ExpelledFrames(phrases, sent))
  {
    sent := [];
    var expelled;
    crashed, expelled := MakeRoom(storage, |body|);
    if crashed {
      return;
    }
    sent := SendExpelled(ch, phrases, c, expelled);
    storage.FirstWrite(p, file.(unwritten := false, size := |body|, contents := body));
  }

  method SendExpelled(ch: Channel, phrases: Phrases, c: Fd, expelled: Option<seq<Sent>>) returns (ghost sent: seq<Sent>)
    requires expelled.Some? ==> expelled.value != []
    modifies ch
    ensures sent == if expelled.Some? then expelled.value else []
    ensures ch.bytes == old(ch.bytes) + EncodeResponses(ExpelledFrames(phrases, sent))
  {
    sent := [];
    if expelled.Some? {
      SendAnnounce(ch, c, phrases, FilesExpelled, expelled.value);
      sent := expelled.value;
    }
  }

  /** Evicts when there is no room, and then something is expelled. */
  method MakeRoom(storage: Storage, required: nat) returns (crashed: bool, expelled: Option<seq<Sent>>)
    requires storage.Valid()
    modifies storage.repr
    ensures storage.Valid() && storage.repr == old(storage.repr)
    ensures crashed <==> Evict(old(storage.View()), required, storage.Code()) == None
    ensures expelled.Some? ==> expelled.value != []
    ensures !crashed ==> Evict(old(storage.View()), required, storage.Code())
                         == Some((storage.View(), if expelled.Some? then expelled.value else []))
  {
    EvictUnlessRoom(storage.View(), required, storage.Code());
    crashed, expelled := false, None;
    if storage.currentSize + required > storage.maxSize {
      var howMany, replaced;
      crashed, howMany, replaced := storage.FifoReplace(required);
      if !crashed {
        expelled := Some(replaced);
      }
    }
  }

  lemma EvictUnlessRoom(s: Store, required: nat, r: Reading)
    ensures s.currentSize + required <= s.maxSize ==> Evict(s, required, r) == Some((s, []))
    ensures s.currentSize + required > s.maxSize && Evict(s, required, r).Some? ==>
              Evict(s, required, r).value.1 != []
  {
  }

  /** The WRITE_FILE case of the worker: the whole reply goes out as one run of frames. */
  method ServeWrite(storage: Storage, ch: Channel, phrases: Phrases, c: Fd, p: Path, body: seq<Byte>)
      returns (crashed: bool, status: Status, ghost sent: seq<Sent>)
    requires storage.Valid() && ch !in storage.repr
    modifies storage.repr, ch
    ensures storage.Valid() && fresh(storage.repr - old(storage.repr))
    ensures crashed <==> WriteFile(old(storage.View()), c, p, body, storage.Code()) == Crash
    ensures !crashed ==>
              && Done(storage.View(), status, sent) == WriteFile(old(storage.View()), c, p, body, storage.Code())
              && ch.bytes == old(ch.bytes) + EncodeResponses(WriteReply(phrases, p, status, sent))
  {
    crashed, status, sent := WriteFileHandler(storage, ch, phrases, c, p, body);
    if !crashed {
      SendLast(ch, c, Frame(phrases, status, CString(p), []), ExpelledFrames(phrases, sent), old(ch.bytes));
    }
  }

  method SendLast(ch: Channel, fd: Fd, last: Response, ghost before: seq<Response>, ghost start: seq<Byte>)
    requires ch.bytes == start + EncodeResponses(before)
    modifies ch
    ensures ch.bytes == start + EncodeResponses(before + [last])
  {
    var _ := ch.SendResponse(fd, last);
    EncodeLast(before, last);
  }

  lemma {:induction false} EncodeLast(rs: seq<Response>, r: Response)
    ensures EncodeResponses(rs + [r]) == EncodeResponses(rs) + EncodeResponse(r)
  {
    if rs == [] {
      assert [r][1..] == [];
    } else {
      assert (rs + [r])[1..] == rs[1..] + [r];
      EncodeLast(rs[1..], r);
    }
  }

  method AppendToFileHandler(storage: Storage, c: Fd, p: Path, body: seq<Byte>) returns (status: Status)
    requires storage.Valid()
    modifies storage.repr
    ensures storage.Valid() && fresh(storage.repr - old(storage.repr))
    ensures Done(storage.View(), status, []) == AppendFile(old(storage.View()), c, p, body)
  {
    if |body| == 0 {
      return BadRequest;
    }
    if |body| > storage.maxSize {
      return FileTooBig;
    }
    var found := storage.GetFile(p);
    if found == None {
      return NotFound;
    }
    var file := found.value;
    if file.owner != c {
      return Unauthorized;
    }
    AppendFileInParts(storage.View(), c, p, body);
    var newSize := file.size + |body|;
    storage.Extend(p, file.(size := newSize, contents := file.contents + body), |body|);
    return Success;
  }

  method ReadFileHandler(storage: Storage, p: Path) returns (status: Status, sent: seq<Sent>)
    requires storage.Valid()
    ensures Done(storage.View(), status, sent) == ReadFile(storage.View(), p)
  {
    var found := storage.GetFile(p);
    if found == None {
      return NotFound, [];
    }
    return Success, [Sent(p, found.value.contents)];
  }

  /** The APPEND_TO_FILE case of the worker, which runs on into the READ_FILE case. */
  method ServeAppend(storage: Storage, ch: Channel, phrases: Phrases, c: Fd, p: Path, body: seq<Byte>)
    requires storage.Valid() && ch !in storage.repr
    modifies storage.repr, ch
    ensures storage.Valid() && fresh(storage.repr - old(storage.repr))
    ensures storage.View() == AppendFile(old(storage.View()), c, p, body).store
    ensures ch.bytes == old(ch.bytes)
                        + EncodeResponses(AppendFrames(phrases, old(storage.View()), c, p, body, storage.Code()))
  {
    var status := AppendToFileHandler(storage, c, p, body);
    SendLast(ch, c, Frame(phrases, status, CString(p), []), [], ch.bytes);
    ServeRead(storage, ch, phrases, c, p, [Frame(phrases, status, CString(p), [])], old(ch.bytes));
  }

  /** The READ_FILE case of the worker. */
  method ServeRead(storage: Storage, ch: Channel, phrases: Phrases, c: Fd, p: Path,
                   ghost before: seq<Response>, ghost start: seq<Byte>)
    requires storage.Valid() && ch !in storage.repr && ch.bytes == start + EncodeResponses(before)
    modifies ch
    ensures storage.Valid() && storage.repr == old(storage.repr) && storage.View() == old(storage.View())
    ensures ch.bytes == start + EncodeResponses(before + [ReadFrame(phrases, p, ReadFile(storage.View(), p))])
  {
    var status, sent := ReadFileHandler(storage, p);
    var buffer := if sent == [] then [] else sent[0].body;
    SendLast(ch, c, Frame(phrases, status, CString(p), buffer), before, start);
  }

  method ReadNFilesHandler(storage: Storage, n: int) returns (status: Status, list: seq<Sent>)
    requires storage.Valid()
    ensures Done(storage.View(), status, list) == ReadNFiles(storage.View(), n)
  {
    var howMany := n;
    if howMany <= 0 || howMany > storage.maxSize {
      howMany := ToInt(storage.maxSize);
    }
    list := [];
    ghost var s := storage.View();
    var i, iter := 0, storage.fifoQueue.head;
    while i < howMany && iter != null
      invariant 0 <= i <= |s.fifo| && (i > 0 ==> i <= howMany) && iter == storage.fifoQueue.NodeAt(i)
      invariant Listed(s, i, list)
      decreases |s.fifo| - i
    {
      var path := iter.data;
      assert path == s.fifo[i];
      var file := storage.GetFile(path);
      if file == None {
        ReadNMissing(s, n, i);
        return InternalError, [];
      }
      list := list + [Sent(path, file.value.contents)];
      NextNode(storage.fifoQueue, i);
      iter := iter.next;
      i := i + 1;
    }
    ReadNListed(s, n, i, list);
    return Success, list;
  }

  lemma ReadNListed(s: Store, n: int, i: nat, list: seq<Sent>)
    requires Listed(s, i, list) && (i == |s.fifo| || i >= Clamp(s, n)) && (i > 0 ==> i <= Clamp(s, n))
    ensures ReadNFiles(s, n) == Done(s, Success, list)
  {
  }

  lemma ReadNMissing(s: Store, n: int, i: nat)
    requires i < Clamp(s, n) && i < |s.fifo| && s.fifo[i] !in s.files
    ensures ReadNFiles(s, n) == Done(s, InternalError, [])
  {
  }

  /** The files of the first i paths of the queue. */
  ghost predicate Listed(s: Store, i: nat, list: seq<Sent>)
  {
    && i <= |s.fifo| && |list| == i
    && forall k :: 0 <= k < i ==>
         s.fifo[k] in s.files && list[k] == Sent(s.fifo[k], s.files[s.fifo[k]].contents)
  }

  /** The READ_N_FILES case of the worker: what the handler sends, then one more frame. */
  method ServeReadN(storage: Storage, ch: Channel, phrases: Phrases, c: Fd, n: int)
    requires storage.Valid() && ch !in storage.repr
    modifies ch
    ensures storage.Valid() && storage.View() == old(storage.View())
    ensures ch.bytes == old(ch.bytes) + EncodeResponses(ReadNFrames(phrases, ReadNFiles(storage.View(), n)))
  {
    var status, list := ReadNFilesHandler(storage, n);
    ghost var before := [];
    if status == Success {
      SendAnnounce(ch, c, phrases, Success, list);
      before := Announce(phrases, Success, list);
    }
    SendLast(ch, c, Frame(phrases, status, [], []), before, old(ch.bytes));
  }

  method RemoveFileHandler(storage: Storage, c: Fd, p: Path) returns (status: Status)
    requires storage.Valid()
    modifies storage.repr
    ensures storage.Valid() && fresh(storage.repr - old(storage.repr))
    ensures Done(storage.View(), status, []) == RemoveRequested(old(storage.View()), c, p, storage.Code())
  {
    var found := storage.GetFile(p);
    if found == None {
      return NotFound;
    }
    if !found.value.locked || (found.value.locked && found.value.owner != c) {
      return Unauthorized;
    }
    var _ := storage.RemoveFile(p);
    return Success;
  }

  method LockFileHandler(storage: Storage, c: Fd, p: Path) returns (status: Status)
    requires storage.Valid()
    modifies storage.repr
    ensures storage.Valid() && fresh(storage.repr - old(storage.repr))
    ensures Done(storage.View(), status, []) == LockFile(old(storage.View()), c, p)
  {
    var found := storage.GetFile(p);
    if found == None {
      return NotFound;
    }
    var file := found.value;
    if !file.locked {
      storage.UpdateFile(p, file.(locked := true, owner := c));
      return Success;
    }
    if file.owner == c {
      return Success;
    }
    storage.UpdateFile(p, file.(waiters := file.waiters + [c]));
    return Awaiting;
  }

  method UnlockFileHandler(storage: Storage, c: Fd, p: Path) returns (status: Status)
    requires storage.Valid()
    modifies storage.repr
    ensures storage.Valid() && fresh(storage.repr - old(storage.repr))
    ensures Done(storage.View(), status, []) == UnlockFile(old(storage.View()), c, p)
  {
    var found := storage.GetFile(p);
    if found == None {
      return NotFound;
    }
    var file := found.value;
    if !file.locked {
      return BadRequest;
    }
    if file.owner == c {
      storage.UpdateFile(p, file.(locked := false, owner := NO_OWNER));
      return Success;
    }
    return Unauthorized;
  }

  /** After a pass no queued file is free with clients waiting for it. */
  lemma PassLeavesNobodyWaitingForAFreeFile(s: Store, p: Path)
    requires QueueOk(s) && p in s.fifo
    ensures p in LockManagerPass(s).files && !Grantable(LockManagerPass(s).files[p])
    ensures Grantable(s.files[p]) ==>
              var f, g := s.files[p], LockManagerPass(s).files[p];
              g.locked && g.owner == f.waiters[0] && [g.owner] + g.waiters == f.waiters && g.contents == f.contents
  {
    assert Written(s, p);
    var f := s.files[p];
    assert Grantable(f) ==> f.waiters == [f.waiters[0]] + f.waiters[1..];
  }

  /** One pass over the queue, up to a path that is not in the table: exactly the files visited that
      were free with waiters go to their head waiter, and nothing else changes. */
  method LockManagerRun(storage: Storage) returns (granted: seq<(Path, Fd)>)
    requires storage.Valid()
    modifies storage.repr
    ensures storage.Valid() && storage.repr == old(storage.repr)
    ensures storage.View() == LockManagerPass(old(storage.View()))
    ensures granted == PassAlong(old(storage.View()).files, old(storage.View()).fifo).1
    ensures var s := old(storage.View());
            NoDup(s.fifo) ==> granted == Grants(s.files, Visited(s.files, s.fifo))
  {
    granted := [];
    ghost var i, start := 0, storage.View();
    var curr := storage.fifoQueue.head;
    Whole(start);
    while curr != null
      invariant storage.Valid() && storage.repr == old(storage.repr)
      invariant i <= |start.fifo| && curr == storage.fifoQueue.NodeAt(i)
      invariant storage.View() == start.(files := storage.View().files)
      invariant Halfway(start, i, storage.View().files, granted)
      decreases |start.fifo| - i
    {
      var path := curr.data;
      assert path == start.fifo[i];
      var found, client := VisitFile(storage, path, start, i, granted);
      if !found {
        break;
      }
      if client.Some? {
        granted := granted + [(path, client.value)];
      }
      NextNode(storage.fifoQueue, i);
      curr := curr.next;
      i := i + 1;
    }
    WholePass(start, i, storage.View().files, granted);
  }

  /** What the pass does at one path: whether it goes on, and the client it replies to, if any. */
  method VisitFile(storage: Storage, p: Path, ghost start: Store, ghost i: nat, ghost granted: seq<(Path, Fd)>)
      returns (found: bool, client: Option<Fd>)
    requires storage.Valid() && i < |start.fifo| && p == start.fifo[i]
    requires Halfway(start, i, storage.View().files, granted)
    modifies storage`repr, storage.files, storage.files.buckets, storage.files.repr
    ensures storage.Valid() && storage.repr == old(storage.repr)
    ensures storage.fifoQueue.spine == old(storage.fifoQueue.spine)
    ensures storage.View() == old(storage.View()).(files := storage.View().files)
    ensures if found then
              var granted' := if client.Some? then granted + [(p, client.value)] else granted;
              Halfway(start, i + 1, storage.View().files, granted')
            else p !in storage.View().files && Halfway(start, i, storage.View().files, granted)
  {
    var file := storage.GetFile(p);
    if file == None {
      return false, None;
    }
    HalfwayNext(start, i, storage.View().files, granted);
    var f := file.value;
    if !f.locked && f.waiters != [] {
      storage.UpdateFile(p, f.(locked := true, owner := f.waiters[0], waiters := f.waiters[1..]));
      return true, Some(f.waiters[0]);
    }
    return true, None;
  }

  lemma NextNode(list: LinkedList<Path>, i: nat)
    requires list.Chain() && i < |list.spine|
    ensures list.spine[i].next == list.NodeAt(i + 1)
  {
  }

  /** The walk of a pass along a queue: the table it leaves and the clients it replies to. */
  function PassAlong(files: map<Path, File>, q: seq<Path>): (map<Path, File>, seq<(Path, Fd)>)
    decreases q
  {
    if q == [] || q[0] !in files then (files, [])
    else
      var f := files[q[0]];
      var (left, more) := PassAlong(files[q[0] := Grant(f)], q[1..]);
      (left, (if Grantable(f) then [(q[0], f.waiters[0])] else []) + more)
  }

  /** The walk has come to i: what remains of it leads where the whole walk led. */
  ghost predicate Halfway(s: Store, i: nat, files: map<Path, File>, granted: seq<(Path, Fd)>)
    requires i <= |s.fifo|
  {
    && PassAlong(s.files, s.fifo).0 == PassAlong(files, s.fifo[i..]).0
    && PassAlong(s.files, s.fifo).1 == granted + PassAlong(files, s.fifo[i..]).1
  }

  lemma Whole(s: Store)
    ensures Halfway(s, 0, s.files, [])
  {
    assert s.fifo[0..] == s.fifo;
  }

  lemma HalfwayNext(s: Store, i: nat, files: map<Path, File>, granted: seq<(Path, Fd)>)
    requires i < |s.fifo| && Halfway(s, i, files, granted) && s.fifo[i] in files
    ensures var f := files[s.fifo[i]];
            if Grantable(f) then Halfway(s, i + 1, files[s.fifo[i] := Grant(f)], granted + [(s.fifo[i], f.waiters[0])])
            else Halfway(s, i + 1, files, granted)
  {
    var p, f := s.fifo[i], files[s.fifo[i]];
    assert s.fifo[i..] == [p] + s.fifo[i + 1..];
    var more := PassAlong(files[p := Grant(f)], s.fifo[i + 1..]).1;
    if Grantable(f) {
      assert granted + ([(p, f.waiters[0])] + more) == granted + [(p, f.waiters[0])] + more;
    } else {
      assert files[p := f] == files && [] + more == more;
    }
  }

  lemma {:induction false} VisitedFrame(files: map<Path, File>, files': map<Path, File>, q: seq<Path>)
    requires files.Keys == files'.Keys
    ensures Visited(files, q) == Visited(files', q)
  {
    if q == [] || q[0] !in files {
    } else {
      VisitedFrame(files, files', q[1..]);
    }
  }

  /** By induction along the queue, even if it names a path twice: a pass changes each file it visits
      on its own. */
  lemma {:induction false} PassAlongIsPass(files: map<Path, File>, q: seq<Path>)
    ensures PassAlong(files, q).0.Keys == files.Keys
    ensures forall p :: p in files ==>
              PassAlong(files, q).0[p] == if p in Visited(files, q) then Grant(files[p]) else files[p]
    decreases q
  {
    if q == [] || q[0] !in files {
    } else {
      var files' := files[q[0] := Grant(files[q[0]])];
      PassAlongIsPass(files', q[1..]);
      VisitedFrame(files, files', q[1..]);
      assert Visited(files, q) == [q[0]] + Visited(files, q[1..]);
    }
  }

  /** And replies once for each. */
  lemma {:induction false} PassAlongGrants(files: map<Path, File>, q: seq<Path>)
    requires NoDup(q)
    ensures PassAlong(files, q).1 == Grants(files, Visited(files, q))
    decreases q
  {
    if q == [] || q[0] !in files {
    } else {
      var files' := files[q[0] := Grant(files[q[0]])];
      var visited := Visited(files, q[1..]);
      assert q == [q[0]] + q[1..] && q[0] !in q[1..];
      PassAlongGrants(files', q[1..]);
      VisitedFrame(files, files', q[1..]);
      assert Visited(files, q) == [q[0]] + visited;
      assert forall p :: p in visited ==> p in q[1..];
      GrantsFrame(files, files', visited);
    }
  }

  lemma {:induction false} GrantsFrame(files: map<Path, File>, files': map<Path, File>, q: seq<Path>)
    requires forall p :: p in q ==> p in files && p in files' && files[p] == files'[p]
    ensures Grants(files, q) == Grants(files', q)
  {
    if q == [] {
    } else {
      assert q[0] in q;
      GrantsFrame(files, files', q[1..]);
    }
  }

  lemma WholePass(s: Store, i: nat, files: map<Path, File>, granted: seq<(Path, Fd)>)
    requires i <= |s.fifo| && Halfway(s, i, files, granted)
    requires i == |s.fifo| || s.fifo[i] !in files
    ensures files == LockManagerPass(s).files && granted == PassAlong(s.files, s.fifo).1
    ensures NoDup(s.fifo) ==> granted == Grants(s.files, Visited(s.files, s.fifo))
  {
    PassAlongIsPass(s.files, s.fifo);
    if NoDup(s.fifo) {
      PassAlongGrants(s.files, s.fifo);
    }
  }
}
