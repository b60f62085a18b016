/** What one step of the storage can do to one file, to the order of the queue, and when it crashes. */
module Laws {
  import opened Basics
  import opened FileStore
  import opened Accounts
  import opened Collisions

  /** The owner changes from a client to nobody only by that client's close or unlock, from nobody
      to a client only by its own request or as head waiter, and never from client to client. */
  ghost predicate OwnerLaw(s: Store, e: Event, s': Store, p: Path)
    requires p in s.files && p in s'.files
  {
    var f, g := s.files[p], s'.files[p];
    f.owner != g.owner ==>
      || (g.owner == NO_OWNER && (e.Close? || e.Unlock?) && e.p == p && f.owner == e.c)
      || (f.owner == NO_OWNER && (e.LockOnOpen? || e.Lock?) && e.p == p && g.owner == e.c)
      || (f.owner == NO_OWNER && e.LockPass? && p in s.fifo && f.waiters != [] && g.owner == f.waiters[0])
  }

  /** Contents change only by the owner's first write and by the owner's appends. */
  ghost predicate ContentsLaw(s: Store, e: Event, s': Store, p: Path)
    requires p in s.files && p in s'.files
  {
    var f, g := s.files[p], s'.files[p];
    && (g.contents != f.contents ==>
          || (e.Write? && e.p == p && f.owner == e.c && f.unwritten && g.contents == e.body)
          || (e.Append? && e.p == p && f.owner == e.c && g.contents == f.contents + e.body))
    && (g.unwritten != f.unwritten ==> e.Write? && e.p == p && f.owner == e.c && f.unwritten)
  }

  /** A client joins a wait list behind the others when another holds the lock; only the head leaves. */
  ghost predicate WaitersLaw(s: Store, e: Event, s': Store, p: Path)
    requires p in s.files && p in s'.files
  {
    var f, g := s.files[p], s'.files[p];
    g.waiters != f.waiters ==>
      || (e.Lock? && e.p == p && f.locked && f.owner != e.c && g.waiters == f.waiters + [e.c])
      || (e.LockPass? && p in s.fifo && !f.locked && f.waiters != [] && g.waiters == f.waiters[1..]
          && g.owner == f.waiters[0])
  }

  /** A file appears only by creation, and leaves only by its owner's request or from the queue. */
  ghost predicate StoredLaw(s: Store, e: Event, s': Store, p: Path)
  {
    && (p !in s.files && p in s'.files ==> e.Create? && e.p == p && s'.files[p] == NewFile())
    && (p in s.files && p !in s'.files ==>
          || (e.Remove? && e.p == p && s.files[p].owner == e.c)
          || (e.Write? && e.p == p && s.files[p].owner == e.c && |e.body| > s.maxSize)
          || ((e.Create? || e.Write?) && e.p != p && p in s.fifo))
  }

  ghost predicate Lawful(s: Store, e: Event, s': Store, p: Path)
  {
    && StoredLaw(s, e, s', p)
    && (p in s.files && p in s'.files ==>
          OwnerLaw(s, e, s', p) && ContentsLaw(s, e, s', p) && WaitersLaw(s, e, s', p))
  }

  lemma CreateLawful(s: Store, c: Fd, p: Path, q: Path)
    requires Inv(s)
    ensures Lawful(s, Create(c, p), CreateFile(s, p, AsMeant).store, q)
  {
    if p !in s.files && s.noOfFiles + 1 > s.maxFiles && s.fifo != [] {
      assert s.fifo[0] in s.fifo;
      DequeueThenRemove(s);
    }
  }

  lemma WriteLawful(s: Store, e: Event, q: Path)
    requires Inv(s) && e.Write? && Apply(s, e, AsMeant).Done?
    ensures Lawful(s, e, Apply(s, e, AsMeant).store, q)
  {
    if FirstWrite(s, e) {
      EvictIsShortestPrefix(s, |e.body|);
      EvictedKeepsUnqueued(s, |e.body|, e.p);
    }
  }

  /** Every law holds of every file at every step. */
  lemma StepLawful(s: Store, e: Event, q: Path)
    requires Inv(s) && Apply(s, e, AsMeant).Done?
    ensures Lawful(s, e, Apply(s, e, AsMeant).store, q)
  {
    match e
    case Create(c, p) => CreateLawful(s, c, p, q);
    case Write(_, _, _) => WriteLawful(s, e, q);
    case _ =>
  }

  /** The guards of the write handler that lead to eviction. */
  ghost predicate FirstWrite(s: Store, e: Event)
  {
    && e.Write? && 0 < |e.body| <= s.maxSize && e.p in s.files
    && s.files[e.p].owner == e.c && s.files[e.p].unwritten
  }

  /** In any store at all, and in either reading, a step crashes exactly when it is a first write whose
      eviction comes, before there is room, to the end of the queue or to a path whose file is gone. */
  lemma CrashIff(s: Store, e: Event, r: Reading)
    ensures Apply(s, e, r).Crash? <==> FirstWrite(s, e) && exists i: nat :: RunsAground(s, |e.body|, r, i)
  {
    if FirstWrite(s, e) {
      EvictFailsIff(s, |e.body|, r);
    }
  }

  /** While the books balance that is when a first write needs more room than all written files can
      give, or, as written, when two of the files it evicts share a bucket. */
  lemma BalancedCrashIff(s: Store, e: Event, r: Reading)
    requires Inv(s)
    ensures Apply(s, e, r).Crash? <==>
              FirstWrite(s, e) && (|| UnwrittenBytes(s) + |e.body| > s.maxSize
                                   || (r.AsWritten? && !VictimsApart(s, |e.body|, r)))
  {
    if FirstWrite(s, e) {
      EvictFits(s, |e.body|);
      if r.AsWritten? {
        EvictReadings(s, |e.body|, r);
      }
    }
  }

  const A: Path := [97]
  const B: Path := [98]
  const C: Path := [99]

  /** Client 5 creates, locks and appends six bytes to one file, then creates, locks and writes six
      bytes to another, with room for ten: the queue is empty and nothing can be evicted. */
  lemma EmptyQueueCrash(r: Reading)
    ensures var s1 := Apply(Empty(10, 10), Create(5, A), r).store;
            var s2 := Apply(s1, LockOnOpen(5, A), r).store;
            var s3 := Apply(s2, Append(5, A, [1, 2, 3, 4, 5, 6]), r).store;
            var s4 := Apply(s3, Create(5, B), r).store;
            var s5 := Apply(s4, LockOnOpen(5, B), r).store;
            && s5.fifo == [] && s5.files[A].contents == [1, 2, 3, 4, 5, 6]
            && Apply(s5, Write(5, B, [1, 2, 3, 4, 5, 6]), r) == Crash
  {
    assert A[0] != B[0];
  }

  /** No bytes sit in files not yet written. */
  ghost predicate NoStrayBytes(s: Store)
  {
    forall p :: p in s.files && s.files[p].unwritten ==> s.files[p].size == 0
  }

  lemma {:induction false} NoBytesAtAll(m: map<Path, File>)
    requires forall p :: p in m ==> m[p].size == 0
    ensures TotalSize(m) == 0
    decreases m.Keys
  {
    if m == map[] {
    } else {
      var p :| p in m;
      TotalSizeMinus(m, p);
      assert p !in (m - {p}).Keys;
      NoBytesAtAll(m - {p});
    }
  }

  /** While the books balance and nobody has appended to a file before its first write, no step meant
      can crash, and a step as written only by a first write that evicts two files of one bucket. */
  lemma NeverCrashes(s: Store, e: Event, r: Reading)
    requires Inv(s) && NoStrayBytes(s)
    ensures Apply(s, e, r).Done? <==> (r.AsWritten? && FirstWrite(s, e) ==> VictimsApart(s, |e.body|, r))
  {
    BalancedCrashIff(s, e, r);
    NoBytesAtAll(UnwrittenFiles(s));
  }

  lemma NoStrayBytesKept(s: Store, e: Event)
    requires Inv(s) && NoStrayBytes(s) && Apply(s, e, AsMeant).Done?
    requires e.Append? && e.p in s.files ==> !s.files[e.p].unwritten
    ensures NoStrayBytes(Apply(s, e, AsMeant).store)
  {
    var s' := Apply(s, e, AsMeant).store;
    StepInv(s, e);
    forall p | p in s'.files && s'.files[p].unwritten
      ensures s'.files[p].size == 0
    {
      StepLawful(s, e, p);
      if p in s.files {
        assert s.files[p].contents == s'.files[p].contents;
      }
    }
  }

  /** Reading n files brings the first n of the queue, or all of it for n <= 0 or n too large: the
      byte limit never cuts the answer short, unless it does not fit a C int. */
  lemma ReadNReadsAll(s: Store, n: int)
    requires Inv(s)
    ensures ReadNFiles(s, n).status == Success && |ReadNFiles(s, n).sent| <= |s.fifo|
    ensures forall i :: 0 <= i < |ReadNFiles(s, n).sent| ==>
              && s.fifo[i] in s.files
              && ReadNFiles(s, n).sent[i] == Sent(s.fifo[i], s.files[s.fifo[i]].contents)
    ensures |ReadNFiles(s, n).sent| == (if 0 < n <= |s.fifo| then n else |s.fifo|)
       <==> 0 < n <= s.maxSize || |s.fifo| <= ToInt(s.maxSize) || s.fifo == []
  {
    assert forall i :: 0 <= i < |s.fifo| ==> s.fifo[i] in s.fifo;
  }

  lemma LimitFits(s: Store)
    requires Inv(s) && s.maxSize < 0x8000_0000
    ensures |s.fifo| <= ToInt(s.maxSize)
  {
  }

  /** What one step can do to the queue: what stays keeps its order, what comes goes last. */
  lemma QueueLaw(s: Store, e: Event, x: Path, y: Path)
    requires Inv(s) && Apply(s, e, AsMeant).Done?
    requires Before(Apply(s, e, AsMeant).store.fifo, x, y)
    ensures x in s.fifo && (y in s.fifo ==> Before(s.fifo, x, y))
  {
    var q' := Apply(s, e, AsMeant).store.fifo;
    match e
    case Create(_, p) =>
      if p !in s.files && s.noOfFiles + 1 > s.maxFiles && s.fifo != [] {
        DequeueThenRemove(s);
        SuffixBefore(s.fifo, 1, x, y);
      }
    case Write(c, p, body) =>
      if FirstWrite(s, e) {
        EvictIsShortestPrefix(s, |body|);
        var k := |Evict(s, |body|, AsMeant).value.1|;
        assert q' == s.fifo[k..] + [p];
        AppendedBefore(s.fifo, k, p, x, y);
      } else {
        RemoveBeforeLaw(s, p, x, y);
      }
    case Remove(_, p) => RemoveBeforeLaw(s, p, x, y);
    case _ =>
      assert q' == s.fifo;
  }

  lemma RemoveBeforeLaw(s: Store, p: Path, x: Path, y: Path)
    requires Before(s.fifo, x, y) || Before(RemoveFirst(s.fifo, p), x, y)
    ensures x in s.fifo && Before(s.fifo, x, y)
  {
    if Before(RemoveFirst(s.fifo, p), x, y) {
      RemoveFirstBefore(s.fifo, p, x, y);
    }
  }

  lemma SuffixBefore(q: seq<Path>, k: nat, x: Path, y: Path)
    requires k <= |q| && Before(q[k..], x, y)
    ensures x in q && Before(q, x, y)
  {
    var i, j :| 0 <= i < j < |q[k..]| && q[k..][i] == x && q[k..][j] == y;
    assert q[k + i] == x && q[k + j] == y;
  }

  lemma AppendedBefore(q: seq<Path>, k: nat, p: Path, x: Path, y: Path)
    requires k <= |q| && p !in q && Before(q[k..] + [p], x, y)
    ensures x in q && (y in q ==> Before(q, x, y))
  {
    var r := q[k..] + [p];
    var i, j :| 0 <= i < j < |r| && r[i] == x && r[j] == y;
    assert q[k + i] == x;
    if j < |r| - 1 {
      assert q[k + j] == y;
    }
  }

  /** Both evictions take files from the head of the queue: an evicted file was queued before
      every written file that stays. */
  lemma EvictedBeforeKept(s: Store, e: Event, p: Path, q: Path)
    requires Inv(s) && Apply(s, e, AsMeant).Done? && (e.Create? || e.Write?) && e.p != p
    requires p in s.fifo && p !in Apply(s, e, AsMeant).store.files
    requires q in s.fifo && q in Apply(s, e, AsMeant).store.files
    ensures Before(s.fifo, p, q)
  {
    if e.Create? {
      DequeueThenRemove(s);
      var j :| 0 <= j < |s.fifo| && s.fifo[j] == q;
      assert s.fifo[0] == p;
    } else {
      EvictIsShortestPrefix(s, |e.body|);
      var k := |Evict(s, |e.body|, AsMeant).value.1|;
      assert p in Oldest(s.fifo, k) && q !in Oldest(s.fifo, k);
      OldestBefore(s.fifo, k, p, q);
    }
  }

  lemma OldestBefore(fifo: seq<Path>, k: nat, p: Path, q: Path)
    requires k <= |fifo| && p in Oldest(fifo, k) && q in fifo && q !in Oldest(fifo, k)
    ensures Before(fifo, p, q)
  {
    var i :| 0 <= i < k && fifo[i] == p;
    var j :| 0 <= j < |fifo| && fifo[j] == q;
    assert forall n :: 0 <= n < k ==> fifo[n] in fifo[..k];
  }
}
