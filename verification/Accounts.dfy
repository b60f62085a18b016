/** The table, the queue and the two counters agree after every step of the storage. */
module Accounts {
  import opened Basics
  import opened FileStore

  ghost function TotalSize(m: map<Path, File>): nat
    decreases m.Keys
  {
    if m == map[] then 0
    else
      var p :| p in m;
      assert p !in (m - {p}).Keys;
      m[p].size + TotalSize(m - {p})
  }

  lemma {:induction false} TotalSizeMinus(m: map<Path, File>, p: Path)
    requires p in m
    ensures TotalSize(m) == m[p].size + TotalSize(m - {p})
    decreases m.Keys
  {
    var q :| q in m && TotalSize(m) == m[q].size + TotalSize(m - {q});
    if q != p {
      assert q !in (m - {q}).Keys && p !in (m - {p}).Keys;
      TotalSizeMinus(m - {q}, p);
      TotalSizeMinus(m - {p}, q);
      assert m - {q} - {p} == m - {p} - {q};
    }
  }

  lemma TotalSizeUpdate(m: map<Path, File>, p: Path, f: File)
    ensures TotalSize(m[p := f]) == f.size + TotalSize(m - {p})
    ensures p in m ==> TotalSize(m) == m[p].size + TotalSize(m - {p})
    ensures p !in m ==> m - {p} == m
  {
    TotalSizeMinus(m[p := f], p);
    assert m[p := f] - {p} == m - {p};
    if p in m {
      TotalSizeMinus(m, p);
    } else {
      assert m - {p} == m;
    }
  }

  lemma {:induction false} TotalSizeSame(m: map<Path, File>, m': map<Path, File>)
    requires m.Keys == m'.Keys && forall p :: p in m ==> m[p].size == m'[p].size
    ensures TotalSize(m) == TotalSize(m')
    decreases m.Keys
  {
    if m == map[] {
      assert m' == map[];
    } else {
      var p :| p in m;
      TotalSizeMinus(m, p);
      TotalSizeMinus(m', p);
      assert p !in (m - {p}).Keys;
      TotalSizeSame(m - {p}, m' - {p});
    }
  }

  lemma MinusCard<K, V>(m: map<K, V>, k: K)
    requires k in m
    ensures |m - {k}| == |m| - 1
  {
    assert (m - {k}).Keys == m.Keys - {k};
  }

  ghost predicate FileOk(f: File)
  {
    f.size == |f.contents| && (f.locked <==> f.owner != NO_OWNER) && (!f.unwritten ==> f.size > 0)
  }

  ghost predicate Books(s: Store)
  {
    && QueueOk(s)
    && (forall p :: Written(s, p) ==> p in s.fifo)
    && s.noOfFiles == |s.files|
    && s.currentSize == TotalSize(s.files)
    && forall p :: p in s.files ==> FileOk(s.files[p])
  }

  ghost predicate Inv(s: Store)
  {
    Books(s) && s.noOfFiles <= s.maxFiles && |s.fifo| <= s.maxSize
  }

  /** storage_create */
  function Empty(maxSize: nat, maxFiles: nat): Store
  {
    Store(maxSize, maxFiles, 0, 0, map[], [])
  }

  function UnwrittenFiles(s: Store): map<Path, File>
  {
    map p | p in s.files && s.files[p].unwritten :: s.files[p]
  }

  /** What eviction can never free: the bytes appended to files not yet written. */
  ghost function UnwrittenBytes(s: Store): nat
  {
    TotalSize(UnwrittenFiles(s))
  }

  lemma {:induction false} TotalSizeRestrict(m: map<Path, File>, m': map<Path, File>)
    requires forall p :: p in m' ==> p in m && m[p] == m'[p]
    ensures TotalSize(m') <= TotalSize(m)
    decreases m.Keys
  {
    if m == map[] {
      assert m' == map[];
    } else {
      var p :| p in m;
      TotalSizeMinus(m, p);
      assert p !in (m - {p}).Keys;
      if p in m' {
        TotalSizeMinus(m', p);
        TotalSizeRestrict(m - {p}, m' - {p});
      } else {
        TotalSizeRestrict(m - {p}, m');
      }
    }
  }

  /** One eviction, as meant. */
  ghost function HeadGone(s: Store): (r: Store)
    requires QueueOk(s) && s.fifo != []
    ensures QueueOk(r) && s.fifo[0] in s.files && r == EvictHead(s, AsMeant)
  {
    assert s.fifo[0] in s.fifo && s.fifo[0] !in s.fifo[1..];
    assert forall p :: p in s.fifo[1..] ==> p in s.fifo;
    EvictHead(s, AsMeant)
  }

  lemma EvictHeadBooks(s: Store)
    requires Books(s) && s.fifo != []
    ensures Books(HeadGone(s)) && UnwrittenFiles(HeadGone(s)) == UnwrittenFiles(s)
  {
    var p := s.fifo[0];
    RemoveFirstNoDup(s.fifo, p);
    assert p in s.fifo;
    TotalSizeMinus(s.files, p);
    MinusCard(s.files, p);
  }

  ghost function Oldest(q: seq<Path>, k: nat): set<Path>
    requires k <= |q|
  {
    set p | p in q[..k]
  }

  lemma OldestHead(q: seq<Path>, k: nat)
    requires k < |q|
    ensures Oldest(q, k + 1) == {q[0]} + Oldest(q[1..], k)
  {
    assert q[..k + 1] == [q[0]] + q[1..][..k];
  }

  /** s after the k oldest written files are gone. */
  ghost function Drop(s: Store, k: nat): Store
    requires k <= |s.fifo|
  {
    s.(fifo := s.fifo[k..], files := s.files - Oldest(s.fifo, k), noOfFiles := s.noOfFiles - k,
       currentSize := TotalSize(s.files - Oldest(s.fifo, k)))
  }

  /** The k oldest files were sent out unchanged and dropped; there is room now, and there was
      none with fewer gone. */
  ghost predicate ShortestPrefix(s: Store, required: nat, s': Store, sent: seq<Sent>)
    requires QueueOk(s)
  {
    && |sent| <= |s.fifo| && s' == Drop(s, |sent|)
    && (forall i :: 0 <= i < |sent| ==> s.fifo[i] in s.files && sent[i] == Sent(s.fifo[i], s.files[s.fifo[i]].contents))
    && Drop(s, |sent|).currentSize + required <= s.maxSize
    && forall j :: 0 <= j < |sent| ==> Drop(s, j).currentSize + required > s.maxSize
  }

  lemma MinusTwice(m: map<Path, File>, p: Path, a: set<Path>)
    ensures m - ({p} + a) == m - {p} - a
  {
  }

  lemma DropHead(s: Store, k: nat)
    requires Books(s) && k < |s.fifo|
    ensures Drop(s, k + 1) == Drop(HeadGone(s), k)
  {
    OldestHead(s.fifo, k);
    MinusTwice(s.files, s.fifo[0], Oldest(s.fifo[1..], k));
    assert s.fifo[k + 1..] == s.fifo[1..][k..];
  }

  lemma DropNone(s: Store)
    requires Books(s)
    ensures Drop(s, 0) == s
  {
    assert s.files - Oldest(s.fifo, 0) == s.files;
  }

  lemma {:induction false} EvictFits(s: Store, required: nat)
    requires Books(s)
    ensures Evict(s, required, AsMeant).Some? <==> UnwrittenBytes(s) + required <= s.maxSize
    ensures Evict(s, required, AsMeant).Some? ==>
              Books(Evict(s, required, AsMeant).value.0) && Evict(s, required, AsMeant).value.0.maxSize == s.maxSize
    decreases |s.fifo|
  {
    if s.currentSize + required <= s.maxSize {
      TotalSizeRestrict(s.files, UnwrittenFiles(s));
    } else if s.fifo == [] {
      assert forall p :: p in s.files ==> !Written(s, p);
      assert UnwrittenFiles(s) == s.files;
    } else {
      EvictHeadBooks(s);
      EvictFits(HeadGone(s), required);
    }
  }

  /** Eviction removes exactly the shortest queue prefix that makes room, hands back those files
      in queue order, and touches nothing else. */
  lemma {:induction false} EvictIsShortestPrefix(s: Store, required: nat)
    requires Books(s) && Evict(s, required, AsMeant).Some?
    ensures ShortestPrefix(s, required, Evict(s, required, AsMeant).value.0, Evict(s, required, AsMeant).value.1)
    decreases |s.fifo|
  {
    DropNone(s);
    if s.currentSize + required <= s.maxSize {
    } else {
      var s1 := HeadGone(s);
      EvictHeadBooks(s);
      EvictIsShortestPrefix(s1, required);
      var (s', sent1) := Evict(s1, required, AsMeant).value;
      PrefixExtends(s, required, s', sent1);
    }
  }

  lemma PrefixExtends(s: Store, required: nat, s': Store, sent: seq<Sent>)
    requires Books(s) && s.fifo != [] && s.currentSize + required > s.maxSize
    requires ShortestPrefix(HeadGone(s), required, s', sent)
    ensures s.fifo[0] in s.files
    ensures ShortestPrefix(s, required, s', [Sent(s.fifo[0], s.files[s.fifo[0]].contents)] + sent)
  {
    assert s.fifo[0] in s.fifo;
    var all := [Sent(s.fifo[0], s.files[s.fifo[0]].contents)] + sent;
    DropHead(s, |sent|);
    DropNone(s);
    forall j | 0 <= j < |all|
      ensures Drop(s, j).currentSize + required > s.maxSize
    {
      if j > 0 {
        DropHead(s, j - 1);
      }
    }
    forall i | 0 <= i < |all|
      ensures s.fifo[i] in s.files && all[i] == Sent(s.fifo[i], s.files[s.fifo[i]].contents)
    {
      if i > 0 {
        assert all[i] == sent[i - 1] && HeadGone(s).fifo[i - 1] == s.fifo[i];
      }
    }
  }

  lemma {:induction false} QueueBounded(s: Store)
    requires Books(s)
    ensures |s.fifo| <= s.currentSize
    decreases |s.fifo|
  {
    if s.fifo == [] {
    } else {
      assert s.fifo[0] in s.fifo;
      EvictHeadBooks(s);
      QueueBounded(HeadGone(s));
    }
  }

  lemma UpdateBooks(s: Store, p: Path, f: File)
    requires Books(s) && p in s.files
    requires FileOk(f) && f.size == s.files[p].size && f.unwritten == s.files[p].unwritten
    ensures Books(Update(s, p, f))
  {
    TotalSizeUpdate(s.files, p, f);
  }

  lemma AddBooks(s: Store, p: Path)
    requires Books(s) && p !in s.files
    ensures Books(AddFile(s, p))
  {
    TotalSizeUpdate(s.files, p, NewFile());
  }

  lemma RemoveBooks(s: Store, p: Path)
    requires Books(s)
    ensures Books(RemoveFile(s, p, AsMeant))
  {
    RemoveFirstNoDup(s.fifo, p);
    if p in s.files {
      TotalSizeMinus(s.files, p);
      MinusCard(s.files, p);
    }
  }

  /** Eviction at the file limit is the same removal, of the head of the queue. */
  lemma DequeueThenRemove(s: Store)
    requires Books(s) && s.fifo != []
    ensures RemoveFile(s.(fifo := s.fifo[1..]), s.fifo[0], AsMeant) == HeadGone(s)
  {
    assert s.fifo[0] in s.fifo && s.fifo[0] !in s.fifo[1..];
    RemoveFirstAbsent(s.fifo[1..], s.fifo[0]);
  }

  lemma CreateInv(s: Store, p: Path)
    requires Inv(s)
    ensures Inv(CreateFile(s, p, AsMeant).store)
  {
    if p !in s.files {
      if s.noOfFiles + 1 <= s.maxFiles {
        AddBooks(s, p);
      } else if s.fifo != [] {
        DequeueThenRemove(s);
        EvictHeadBooks(s);
        AddBooks(HeadGone(s), p);
      }
    }
  }

  lemma EvictedKeepsUnqueued(s: Store, required: nat, p: Path)
    requires Books(s) && Evict(s, required, AsMeant).Some? && p in s.files && p !in s.fifo
    ensures var s' := Evict(s, required, AsMeant).value.0;
            p in s'.files && s'.files[p] == s.files[p] && p !in s'.fifo
  {
    EvictIsShortestPrefix(s, required);
  }

  lemma WriteInv(s: Store, c: Fd, p: Path, body: seq<Byte>)
    requires Inv(s) && WriteFile(s, c, p, body, AsMeant).Done?
    ensures Inv(WriteFile(s, c, p, body, AsMeant).store)
  {
    if |body| > 0 && p in s.files && s.files[p].owner == c {
      var f := s.files[p];
      if |body| > s.maxSize {
        RemoveBooks(s, p);
        RemoveFirstNoDup(s.fifo, p);
      } else if f.unwritten {
        FirstWriteBooks(s, p, f, body);
        QueueBounded(WriteFile(s, c, p, body, AsMeant).store);
        EvictIsShortestPrefix(s, |body|);
      }
    }
  }

  /** The file being written is not queued, so eviction leaves it alone and its own entry changes last. */
  lemma FirstWriteBooks(s: Store, p: Path, f: File, body: seq<Byte>)
    requires Books(s) && p in s.files && f == s.files[p] && f.unwritten && |body| > 0
    requires Evict(s, |body|, AsMeant).Some?
    ensures var s1 := Evict(s, |body|, AsMeant).value.0;
            var s2 := Update(s1, p, f.(unwritten := false, size := |body|, contents := body));
            && Books(s2.(fifo := s2.fifo + [p], currentSize := s2.currentSize + |body| - f.size))
            && s2.currentSize <= s.maxSize - |body|
  {
    EvictFits(s, |body|);
    EvictIsShortestPrefix(s, |body|);
    EvictedKeepsUnqueued(s, |body|, p);
    EnqueueBooks(Evict(s, |body|, AsMeant).value.0, p, f.(unwritten := false, size := |body|, contents := body));
  }

  lemma EnqueueBooks(s: Store, p: Path, f: File)
    requires Books(s) && p in s.files && p !in s.fifo && FileOk(f) && !f.unwritten
    ensures var s1 := Update(s, p, f);
            Books(s1.(fifo := s1.fifo + [p], currentSize := s1.currentSize + f.size - s.files[p].size))
  {
    TotalSizeUpdate(s.files, p, f);
    assert forall q :: q in s.fifo + [p] <==> q in s.fifo || q == p;
  }

  lemma AppendInv(s: Store, c: Fd, p: Path, body: seq<Byte>)
    requires Inv(s)
    ensures Inv(AppendFile(s, c, p, body).store)
  {
    if p in s.files {
      var f := s.files[p];
      TotalSizeUpdate(s.files, p, f.(size := f.size + |body|, contents := f.contents + body));
    }
  }

  lemma LockPassInv(s: Store)
    requires Inv(s)
    ensures Inv(LockManagerPass(s))
  {
    var s' := LockManagerPass(s);
    assert s'.files.Keys == s.files.Keys;
    TotalSizeSame(s.files, s'.files);
  }

  /** Every step of the storage keeps its books, whichever client takes it. */
  lemma StepInv(s: Store, e: Event)
    requires Inv(s) && Apply(s, e, AsMeant).Done?
    ensures Inv(Apply(s, e, AsMeant).store)
  {
    match e
    case Create(_, p) => CreateInv(s, p);
    case Write(c, p, body) => WriteInv(s, c, p, body);
    case Append(c, p, body) => AppendInv(s, c, p, body);
    case Remove(c, p) => RemoveBooks(s, p); RemoveFirstNoDup(s.fifo, p);
    case LockPass => LockPassInv(s);
    case LockOnOpen(c, p) => UpdateOneBooks(s, e, p);
    case Close(c, p) => UpdateOneBooks(s, e, p);
    case Lock(c, p) => UpdateOneBooks(s, e, p);
    case Unlock(c, p) => UpdateOneBooks(s, e, p);
    case _ =>
  }

  lemma UpdateOneBooks(s: Store, e: Event, p: Path)
    requires Inv(s) && (e.LockOnOpen? || e.Close? || e.Lock? || e.Unlock?) && e.p == p
    ensures Inv(Apply(s, e, AsMeant).store)
  {
    if p in s.files {
      UpdateBooks(s, p, Apply(s, e, AsMeant).store.files[p]);
      assert s.files[p := s.files[p]] == s.files;
    }
  }
}
