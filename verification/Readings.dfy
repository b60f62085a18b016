/** Where the storage code as written departs from what it is meant to do, and where it does not. */
module Readings {
  import opened Basics
  import opened HashTables
  import opened FileStore
  import opened Accounts
  import opened Collisions
  import opened Laws

  /** The written files that a step takes out of the table by way of their buckets. */
  ghost function Taken(s: Store, e: Event): set<Path>
  {
    match e
    case Remove(c, p) =>
      if p in s.files && p in s.fifo && s.files[p].locked && s.files[p].owner == c then {p} else {}
    case Write(c, p, body) =>
      if FirstWrite(s, e) then Victims(s, |body|)
      else if |body| > s.maxSize && p in s.files && p in s.fifo && s.files[p].owner == c then {p}
      else {}
    case _ => {}
  }

  /** No other stored file shares a bucket with a file taken. The file being written does not count:
      its handler puts it back. */
  ghost predicate Alone(s: Store, e: Event, r: Reading)
    requires r.AsWritten?
  {
    e.Remove? || e.Write? ==>
      forall v, q :: v in Taken(s, e) && q in s.files && q != v && q != e.p ==> !SameBucket(r, v, q)
  }

  /** The requests on which the code does what it is meant to do, by what a caller can see before:
      no eviction at the file limit, no open-with-lock of a locked file, no removal of a file never
      written, no first write of a file already appended to, and no collision with a file taken. */
  ghost predicate AsMeantHere(s: Store, e: Event, r: Reading)
    requires r.AsWritten?
  {
    match e
    case Create(_, p) => p in s.files || s.noOfFiles + 1 <= s.maxFiles || s.fifo == []
    case LockOnOpen(_, p) => p in s.files ==> !s.files[p].locked
    case Write(c, p, body) =>
      if FirstWrite(s, e) then
        (s.files[p].size == 0 && Alone(s, e, r)) || UnwrittenBytes(s) + |body| > s.maxSize
      else
        |body| > s.maxSize && p in s.files && s.files[p].owner == c ==> !s.files[p].unwritten && Alone(s, e, r)
    case Remove(c, p) => p in s.files && s.files[p].owner == c ==> !s.files[p].unwritten && Alone(s, e, r)
    case _ => true
  }

  ghost predicate AloneInBucket(s: Store, p: Path, r: Reading)
    requires r.AsWritten?
  {
    forall q :: q in s.files && q != p ==> !SameBucket(r, p, q)
  }

  lemma RemoveReadings(s: Store, p: Path, r: Reading)
    requires Books(s) && p in s.files && r.AsWritten?
    ensures RemoveFile(s, p, r) == RemoveFile(s, p, AsMeant) <==> !s.files[p].unwritten && AloneInBucket(s, p, r)
    ensures s.files[p].unwritten ==> RemoveFile(s, p, r).files == s.files
    ensures !s.files[p].unwritten ==> RemoveFile(s, p, r).files == ClearBucket(s.files, r.hash, r.buckets, p)
    ensures RemoveFile(s, p, r).noOfFiles == s.noOfFiles - 1
  {
    assert Written(s, p) <==> p in s.fifo;
    if !s.files[p].unwritten {
      ClearBucketIsDeleteIff(s.files, r.hash, r.buckets, p);
    }
  }

  lemma FewerKeys(m: map<Path, File>, m': map<Path, File>, p: Path)
    requires (forall q :: q in m' ==> q in m) && p in m && p !in m'
    ensures |m'| < |m|
  {
    assert m'.Keys <= m.Keys - {p};
    CardOfSubset(m'.Keys, m.Keys - {p});
  }

  lemma {:induction false} CardOfSubset<T>(a: set<T>, b: set<T>)
    requires a <= b
    ensures |a| <= |b|
    decreases a
  {
    if a == {} {
    } else {
      var x :| x in a;
      CardOfSubset(a - {x}, b - {x});
    }
  }

  /** When the removal as written is not the one meant, the count no longer fits the table. */
  lemma RemoveMiscounts(s: Store, p: Path, r: Reading)
    requires Books(s) && p in s.files && r.AsWritten?
    requires s.files[p].unwritten || !AloneInBucket(s, p, r)
    ensures RemoveFile(s, p, r).noOfFiles != |RemoveFile(s, p, r).files|
  {
    RemoveReadings(s, p, r);
    if !s.files[p].unwritten {
      var q :| q in s.files && q != p && SameBucket(r, p, q);
      MinusCard(s.files, p);
      FewerKeys(s.files - {p}, RemoveFile(s, p, r).files, q);
    }
  }

  /** At the file limit the code as written dequeues the victim first, so its table entry stays. */
  lemma CreateReadings(s: Store, p: Path, r: Reading)
    requires Inv(s) && p !in s.files && s.noOfFiles + 1 > s.maxFiles && s.fifo != [] && r.AsWritten?
    ensures var s' := CreateFile(s, p, r).store;
            && s'.noOfFiles == s.noOfFiles && |s'.files| == |s.files| + 1
            && s.fifo[0] in s'.files && s.fifo[0] !in CreateFile(s, p, AsMeant).store.files
  {
    assert s.fifo[0] in s.fifo && s.fifo[0] !in s.fifo[1..];
    DequeueThenRemove(s);
  }

  /** A first write as written still counts the old bytes, and loses what shares a bucket with a
      file it evicts; the file written is put back. */
  lemma FirstWriteReadings(s: Store, e: Event, r: Reading)
    requires Inv(s) && FirstWrite(s, e) && r.AsWritten? && Apply(s, e, r).Done?
    ensures Apply(s, e, AsMeant).Done? && Apply(s, e, r).sent == Apply(s, e, AsMeant).sent
    ensures var s' := Apply(s, e, AsMeant).store;
            var files := map q | q in s'.files && (q == e.p || !Shares(s, |e.body|, r, q)) :: s'.files[q];
            Apply(s, e, r).store == s'.(currentSize := s'.currentSize + s.files[e.p].size, files := files)
  {
    EvictReadings(s, |e.body|, r);
  }

  /** What is left of the table after a first write as meant. */
  lemma FirstWriteFiles(s: Store, e: Event, q: Path)
    requires Inv(s) && FirstWrite(s, e) && Apply(s, e, AsMeant).Done?
    ensures e.p !in Victims(s, |e.body|)
    ensures q in Apply(s, e, AsMeant).store.files <==> q in s.files && q !in Victims(s, |e.body|)
  {
    EvictLeaves(s, |e.body|);
    VictimsOldest(s, |e.body|);
    var k := |Evict(s, |e.body|, AsMeant).value.1|;
    assert forall p :: p in s.fifo[..k] ==> p in s.fifo;
  }

  /** A file that stays in the table as meant but shares a bucket with a victim is not alone. */
  lemma SharerNotAlone(s: Store, e: Event, r: Reading, q: Path)
    requires Inv(s) && FirstWrite(s, e) && r.AsWritten? && Apply(s, e, AsMeant).Done?
    requires q in Apply(s, e, AsMeant).store.files && q != e.p && Shares(s, |e.body|, r, q)
    ensures !Alone(s, e, r)
  {
    FirstWriteFiles(s, e, q);
    var v :| v in Victims(s, |e.body|) && SameBucket(r, v, q);
    assert v in Taken(s, e) && q in s.files && q != v;
  }

  lemma SomeSharer(s: Store, e: Event, r: Reading) returns (q: Path)
    requires Inv(s) && FirstWrite(s, e) && r.AsWritten? && Apply(s, e, AsMeant).Done?
    requires !Alone(s, e, r) && VictimsApart(s, |e.body|, r)
    ensures q in Apply(s, e, AsMeant).store.files && q != e.p && Shares(s, |e.body|, r, q)
  {
    var v, w :| v in Taken(s, e) && w in s.files && w != v && w != e.p && SameBucket(r, v, w);
    FirstWriteFiles(s, e, w);
    q := w;
  }

  /** As written a first write keeps the table exactly when the victims are alone in their buckets. */
  lemma FirstWriteLoses(s: Store, e: Event, r: Reading)
    requires Inv(s) && FirstWrite(s, e) && r.AsWritten? && Apply(s, e, r).Done?
    ensures Apply(s, e, AsMeant).Done?
    ensures Apply(s, e, r).store.files == Apply(s, e, AsMeant).store.files <==> Alone(s, e, r)
    ensures Apply(s, e, r).store.files.Keys <= Apply(s, e, AsMeant).store.files.Keys
  {
    FirstWriteReadings(s, e, r);
    BalancedCrashIff(s, e, r);
    var m, w := Apply(s, e, AsMeant).store.files, Apply(s, e, r).store.files;
    if Alone(s, e, r) {
      forall q | q in m
        ensures q in w
      {
        if q != e.p && Shares(s, |e.body|, r, q) {
          SharerNotAlone(s, e, r, q);
        }
      }
    } else {
      var q := SomeSharer(s, e, r);
      assert q in m && q !in w;
    }
  }

  lemma WriteReadings(s: Store, e: Event, r: Reading)
    requires Inv(s) && FirstWrite(s, e) && r.AsWritten?
    ensures Apply(s, e, r) == Apply(s, e, AsMeant) <==> AsMeantHere(s, e, r)
  {
    BalancedCrashIff(s, e, AsMeant);
    BalancedCrashIff(s, e, r);
    if Apply(s, e, r).Done? {
      WriteReadingsDone(s, e, r);
    } else if Apply(s, e, AsMeant).Done? {
      VictimsStored(s, e, r);
    }
  }

  lemma WriteReadingsDone(s: Store, e: Event, r: Reading)
    requires Inv(s) && FirstWrite(s, e) && r.AsWritten? && Apply(s, e, r).Done?
    ensures Apply(s, e, r) == Apply(s, e, AsMeant) <==> s.files[e.p].size == 0 && Alone(s, e, r)
  {
    FirstWriteReadings(s, e, r);
    FirstWriteLoses(s, e, r);
    var m, w := Apply(s, e, AsMeant).store, Apply(s, e, r).store;
    assert w == m.(currentSize := w.currentSize, files := w.files);
  }

  /** Victims that share a bucket are not alone in it. */
  lemma VictimsStored(s: Store, e: Event, r: Reading)
    requires Inv(s) && FirstWrite(s, e) && r.AsWritten? && !VictimsApart(s, |e.body|, r)
    ensures !Alone(s, e, r)
  {
    var v, w :| v in Victims(s, |e.body|) && w in Victims(s, |e.body|) && v != w && SameBucket(r, v, w);
    assert v in Taken(s, e) && w in s.fifo && Written(s, w) && w != e.p;
  }

  /** The two readings of a step agree exactly on those requests. */
  lemma ReadingsAgreeIff(s: Store, e: Event, r: Reading)
    requires Inv(s) && r.AsWritten?
    ensures Apply(s, e, r) == Apply(s, e, AsMeant) <==> AsMeantHere(s, e, r)
  {
    match e
    case Create(_, p) =>
      if p !in s.files && s.noOfFiles + 1 > s.maxFiles && s.fifo != [] {
        CreateReadings(s, p, r);
      }
    case Remove(_, p) =>
      if p in s.files {
        RemoveReadings(s, p, r);
      }
    case Write(_, p, _) =>
      if FirstWrite(s, e) {
        WriteReadings(s, e, r);
      } else if p in s.files {
        RemoveReadings(s, p, r);
      }
    case _ =>
  }

  lemma FirstWriteBreaksBooks(s: Store, e: Event, r: Reading)
    requires Inv(s) && FirstWrite(s, e) && r.AsWritten? && Apply(s, e, r).Done? && !AsMeantHere(s, e, r)
    ensures !Books(Apply(s, e, r).store)
  {
    FirstWriteReadings(s, e, r);
    FirstWriteLoses(s, e, r);
    StepInv(s, e);
    var m, w := Apply(s, e, AsMeant).store, Apply(s, e, r).store;
    if q :| q in m.files && q !in w.files {
      FewerKeys(m.files, w.files, q);
    } else {
      assert w.files.Keys == m.files.Keys;
    }
  }

  /** As written, the books survive a step exactly when it is one of those requests or opens with
      lock (taking a lock from its owner is wrong, but leaves the books in order). */
  lemma BooksKeptAsWrittenIff(s: Store, e: Event, r: Reading)
    requires Inv(s) && r.AsWritten? && Apply(s, e, r).Done?
    ensures Inv(Apply(s, e, r).store) <==> e.LockOnOpen? || AsMeantHere(s, e, r)
  {
    ReadingsAgreeIff(s, e, r);
    if AsMeantHere(s, e, r) {
      StepInv(s, e);
    } else {
      match e
      case Create(_, p) => CreateReadings(s, p, r);
      case LockOnOpen(c, p) => UpdateBooks(s, p, s.files[p].(owner := c, locked := true));
      case Remove(_, p) => RemoveMiscounts(s, p, r);
      case Write(_, p, _) =>
        if FirstWrite(s, e) {
          FirstWriteBreaksBooks(s, e, r);
        } else {
          RemoveMiscounts(s, p, r);
        }
    }
  }

  /** No file still queued shares a bucket with a file taken. */
  ghost predicate QueueSpared(s: Store, e: Event, r: Reading)
    requires r.AsWritten?
  {
    forall v, q :: v in Taken(s, e) && q in s.fifo && q !in Taken(s, e) ==> !SameBucket(r, v, q)
  }

  lemma RemoveQueueOk(s: Store, p: Path, r: Reading)
    requires QueueOk(s)
    ensures QueueOk(RemoveFile(s, p, r)) <==>
              (r.AsWritten? && p in s.fifo ==> forall q :: q in s.fifo && q != p ==> !SameBucket(r, p, q))
  {
    RemoveFirstNoDup(s.fifo, p);
    var s' := RemoveFile(s, p, r);
    if r.AsWritten? && p in s.fifo {
      assert Written(s, p);
      forall q | q in s.fifo && q != p
        ensures Written(s', q) <==> !SameBucket(r, p, q)
      {
        assert Written(s, q);
      }
      assert forall q :: q in s'.fifo <==> q in s.fifo && q != p;
    }
  }

  lemma DequeueQueueOk(s: Store, r: Reading)
    requires QueueOk(s) && s.fifo != []
    ensures QueueOk(RemoveFile(s.(fifo := s.fifo[1..]), s.fifo[0], r))
  {
    var s1 := s.(fifo := s.fifo[1..]);
    assert s.fifo == [s.fifo[0]] + s1.fifo && s.fifo[0] !in s1.fifo;
    assert forall q :: q in s1.fifo ==> Written(s, q) && Written(s1, q);
    assert QueueOk(s1);
    RemoveQueueOk(s1, s.fifo[0], r);
  }

  lemma CreateQueueOk(s: Store, p: Path, r: Reading)
    requires QueueOk(s)
    ensures QueueOk(CreateFile(s, p, r).store)
  {
    if p !in s.files {
      if s.noOfFiles + 1 > s.maxFiles && s.fifo != [] {
        DequeueQueueOk(s, r);
        var s1 := RemoveFile(s.(fifo := s.fifo[1..]), s.fifo[0], r);
        AddQueueOk(s1, p);
      } else {
        AddQueueOk(s, p);
      }
    }
  }

  lemma AddQueueOk(s: Store, p: Path)
    requires QueueOk(s) && p !in s.files
    ensures QueueOk(AddFile(s, p))
  {
    forall q | q in s.fifo
      ensures Written(AddFile(s, p), q)
    {
      assert Written(s, q);
    }
  }

  lemma FirstWriteQueueOk(s: Store, e: Event, r: Reading)
    requires QueueOk(s) && FirstWrite(s, e) && Apply(s, e, r).Done?
    ensures QueueOk(Apply(s, e, r).store) <==> (r.AsWritten? ==> QueueSpared(s, e, r))
  {
    if r.AsWritten? {
      EvictReadings(s, |e.body|, r);
    }
    var f := s.files[e.p].(unwritten := false, size := |e.body|, contents := e.body);
    var m := Evict(s, |e.body|, AsMeant).value.0;
    var w := Evict(s, |e.body|, r).value.0;
    StillQueued(s, |e.body|);
    assert e.p !in m.fifo;
    EnqueueQueueOkIff(m, w, e.p, f);
    if r.AsWritten? {
      SparedIff(s, e, r);
    }
  }

  lemma StillQueued(s: Store, required: nat)
    requires QueueOk(s) && Evict(s, required, AsMeant).Some?
    ensures var m := Evict(s, required, AsMeant).value.0;
            QueueOk(m) && forall q :: q in m.fifo <==> q in s.fifo && q !in Victims(s, required)
  {
    EvictLeaves(s, required);
    VictimsOldest(s, required);
    var k := |Evict(s, required, AsMeant).value.1|;
    assert s.fifo == s.fifo[..k] + s.fifo[k..];
  }

  /** The files still queued are spared exactly when none of them goes with a victim. */
  lemma SparedIff(s: Store, e: Event, r: Reading)
    requires QueueOk(s) && r.AsWritten? && FirstWrite(s, e) && Evict(s, |e.body|, AsMeant).Some?
    ensures var m := Evict(s, |e.body|, AsMeant).value.0;
            QueueSpared(s, e, r) <==> forall q :: q in m.fifo ==> q in Unshared(m.files, s, |e.body|, r)
  {
    StillQueued(s, |e.body|);
    var m := Evict(s, |e.body|, AsMeant).value.0;
    assert forall q :: q in m.fifo ==> Written(m, q);
  }

  /** In either reading a step keeps the queue in order, and so every lookup of a queued path finds
      its file, exactly when, as written, no file still queued shares a bucket with a file taken. */
  lemma QueueOkEitherWay(s: Store, e: Event, r: Reading)
    requires QueueOk(s) && Apply(s, e, r).Done?
    ensures QueueOk(Apply(s, e, r).store) <==> (r.AsWritten? ==> QueueSpared(s, e, r))
  {
    match e
    case Create(_, p) => CreateQueueOk(s, p, r);
    case Write(c, p, body) =>
      if FirstWrite(s, e) {
        FirstWriteQueueOk(s, e, r);
      } else {
        RemoveQueueOk(s, p, r);
      }
    case Remove(_, p) => RemoveQueueOk(s, p, r);
    case _ =>
  }

  /** With some of the table lost, the queue is in order exactly when nothing lost is queued. */
  lemma EnqueueQueueOkIff(m: Store, w: Store, p: Path, f: File)
    requires QueueOk(m) && p !in m.fifo && !f.unwritten && w.fifo == m.fifo
    requires forall q :: q in w.files ==> q in m.files && w.files[q] == m.files[q]
    ensures QueueOk(Update(w, p, f).(fifo := w.fifo + [p])) <==> forall q :: q in m.fifo ==> q in w.files
  {
    EnqueueQueueOk(m, p, f);
    var w' := Update(w, p, f).(fifo := w.fifo + [p]);
    if QueueOk(w') {
      forall q | q in m.fifo
        ensures q in w.files
      {
        assert q in w'.fifo;
        assert Written(w', q) && q != p;
      }
    } else {
      assert forall q :: q in w'.fifo ==> q in m.fifo || q == p;
    }
  }

  lemma EnqueueQueueOk(s: Store, p: Path, f: File)
    requires QueueOk(s) && p !in s.fifo && !f.unwritten
    ensures QueueOk(Update(s, p, f).(fifo := s.fifo + [p]))
  {
  }

  /** Client 5 creates and locks a file, then removes it before writing: as written the count drops
      to zero and the file stays, still locked by 5. */
  lemma RemovedFileStaysAsWritten(r: Reading)
    requires r.AsWritten?
    ensures var s1 := CreateFile(Empty(100, 10), A, r).store;
            var s2 := LockOpened(s1, 5, A, r).store;
            var s3 := RemoveRequested(s2, 5, A, r);
            s3.status == Success && s3.store.noOfFiles == 0 && A in s3.store.files && s3.store.files[A].owner == 5
  {
    var s1 := CreateFile(Empty(100, 10), A, r).store;
    assert s1.files == map[A := NewFile()];
  }

  /** Client 7 opens with lock a file client 5 has locked: as written it takes the lock. */
  lemma OpenTakesLockAsWritten(r: Reading)
    requires r.AsWritten?
    ensures var f := NewFile().(locked := true, owner := 5);
            var s := AddFile(Empty(100, 10), A).(files := map[A := f]);
            && LockOpened(s, 7, A, r).store.files[A].owner == 7
            && LockOpened(s, 7, A, AsMeant) == Done(s, Unauthorized, [])
            && LockOpened(s, 5, A, r).status == Unauthorized
  {
  }

  /** With room for one file, creating a second as written keeps both and counts one. */
  lemma FileLimitBrokenAsWritten(r: Reading)
    requires r.AsWritten?
    ensures var f := File(false, false, NO_OWNER, 1, [0], []);
            var s := Store(100, 1, 1, 1, map[A := f], [A]);
            var s' := CreateFile(s, B, r).store;
            A in s'.files && B in s'.files && s'.noOfFiles == 1 && s'.fifo == []
  {
    assert A[0] != B[0];
  }

  /** Two bytes appended before a first write of one byte: as written three bytes are counted. */
  lemma FirstWriteCountsTwiceAsWritten(r: Reading)
    requires r.AsWritten?
    ensures var f := File(true, true, 5, 2, [1, 2], []);
            var s := Store(100, 10, 2, 1, map[A := f], []);
            var s' := WriteFile(s, 5, A, [9], r).store;
            s'.files[A].size == 1 && s'.currentSize == 3
  {
  }

  /** Client 5 removes one of two written files of one bucket: as written the other is lost too, still
      queued and still counted, and the next eviction crashes on it. */
  lemma CollidingFileLostAsWritten(r: Reading)
    requires r.AsWritten? && SameBucket(r, A, B)
    ensures var f, g := File(false, true, 5, 1, [1], []), File(false, false, NO_OWNER, 1, [2], []);
            var s := Store(2, 10, 2, 2, map[A := f, B := g], [A, B]);
            var s1 := Apply(s, Remove(5, A), r).store;
            var s2 := Apply(Apply(s1, Create(5, C), r).store, LockOnOpen(5, C), r).store;
            && Apply(s, Remove(5, A), r).status == Success
            && s1.files == map[] && s1.fifo == [B] && s1.noOfFiles == 1
            && Apply(s2, Write(5, C, [3, 3]), r) == Crash
  {
    assert A[0] != B[0] && A[0] != C[0] && B[0] != C[0];
  }
}
