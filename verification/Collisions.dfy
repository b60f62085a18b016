/** What the table as written loses to colliding keys: an eviction as written against the one meant. */
module Collisions {
  import opened Basics
  import opened HashTables
  import opened FileStore
  import opened Accounts

  /** The bytes of the files that q names. */
  ghost function SizeOf(files: map<Path, File>, q: seq<Path>): nat
  {
    if q == [] then 0
    else (if q[0] in files then files[q[0]].size else 0) + SizeOf(files, q[1..])
  }

  lemma {:induction false} SizeOfFrame(files: map<Path, File>, q: seq<Path>, x: Path)
    requires x !in q
    ensures SizeOf(files - {x}, q) == SizeOf(files, q)
  {
    if q == [] {
    } else {
      assert q[0] in q;
      SizeOfFrame(files, q[1..], x);
    }
  }

  /** Dropping the i oldest files does not make room, so the next one goes too. */
  ghost predicate IsVictim(s: Store, required: nat, i: nat)
  {
    i < |s.fifo| && s.currentSize - SizeOf(s.files, s.fifo[..i]) + required > s.maxSize
  }

  /** The files an eviction has to take. */
  ghost function Victims(s: Store, required: nat): set<Path>
  {
    set i: nat | i < |s.fifo| && IsVictim(s, required, i) :: s.fifo[i]
  }

  lemma VictimStep(s: Store, required: nat, i: nat)
    requires QueueOk(s) && s.fifo != []
    ensures IsVictim(HeadGone(s), required, i) <==> IsVictim(s, required, i + 1)
  {
    if i + 1 < |s.fifo| {
      assert s.fifo[..i + 1] == [s.fifo[0]] + s.fifo[1..][..i];
      assert s.fifo[0] !in s.fifo[1..];
      SizeOfFrame(s.files, s.fifo[1..][..i], s.fifo[0]);
    }
  }

  /** The victims are the files an eviction sends, oldest first. */
  lemma {:induction false} VictimAt(s: Store, required: nat, i: nat)
    requires QueueOk(s) && Evict(s, required, AsMeant).Some?
    ensures var sent := Evict(s, required, AsMeant).value.1;
            && (IsVictim(s, required, i) <==> i < |sent|) && |sent| <= |s.fifo|
            && (i < |sent| ==> sent[i].path == s.fifo[i])
    decreases |s.fifo|
  {
    if s.currentSize + required > s.maxSize && s.fifo != [] {
      var s1 := HeadGone(s);
      assert Evict(s1, required, AsMeant).Some?;
      if i == 0 {
        VictimAt(s1, required, 0);
        assert s.fifo[..0] == [];
      } else {
        VictimAt(s1, required, i - 1);
        VictimStep(s, required, i - 1);
      }
    }
  }

  lemma VictimsAreSent(s: Store, required: nat)
    requires QueueOk(s) && Evict(s, required, AsMeant).Some?
    ensures var sent := Evict(s, required, AsMeant).value.1;
            && (forall i :: 0 <= i < |sent| ==> sent[i].path in Victims(s, required))
            && (forall v :: v in Victims(s, required) ==> exists i :: 0 <= i < |sent| && sent[i].path == v)
            && forall i, j :: 0 <= i < j < |sent| ==> sent[i].path != sent[j].path
  {
    var sent := Evict(s, required, AsMeant).value.1;
    forall i: nat
      ensures IsVictim(s, required, i) <==> i < |sent|
      ensures |sent| <= |s.fifo| && (i < |sent| ==> sent[i].path == s.fifo[i])
    {
      VictimAt(s, required, i);
    }
    forall v | v in Victims(s, required)
      ensures exists i :: 0 <= i < |sent| && sent[i].path == v
    {
      var i: nat :| i < |s.fifo| && IsVictim(s, required, i) && s.fifo[i] == v;
      assert sent[i].path == v;
    }
  }

  /** Whatever the counters say, an eviction drops the files it sends, from the queue and the table. */
  lemma {:induction false} EvictLeaves(s: Store, required: nat)
    requires QueueOk(s) && Evict(s, required, AsMeant).Some?
    ensures var (s', sent) := Evict(s, required, AsMeant).value;
            && QueueOk(s') && |sent| <= |s.fifo| && s'.fifo == s.fifo[|sent|..]
            && s'.files == s.files - Oldest(s.fifo, |sent|)
    decreases |s.fifo|
  {
    if s.currentSize + required <= s.maxSize {
      assert s.files - Oldest(s.fifo, 0) == s.files;
    } else {
      var s1 := HeadGone(s);
      EvictLeaves(s1, required);
      var k := |Evict(s1, required, AsMeant).value.1|;
      OldestHead(s.fifo, k);
      MinusTwice(s.files, s.fifo[0], Oldest(s1.fifo, k));
    }
  }

  lemma VictimsOldest(s: Store, required: nat)
    requires QueueOk(s) && Evict(s, required, AsMeant).Some?
    ensures var sent := Evict(s, required, AsMeant).value.1;
            |sent| <= |s.fifo| && Victims(s, required) == Oldest(s.fifo, |sent|)
  {
    var sent := Evict(s, required, AsMeant).value.1;
    VictimAt(s, required, 0);
    forall i: nat | i < |s.fifo|
      ensures IsVictim(s, required, i) <==> i < |sent|
    {
      VictimAt(s, required, i);
    }
    forall p
      ensures p in Victims(s, required) <==> p in Oldest(s.fifo, |sent|)
    {
      if p in Oldest(s.fifo, |sent|) {
        var i :| 0 <= i < |sent| && s.fifo[i] == p;
        assert IsVictim(s, required, i);
      }
    }
  }

  /** m without the keys of the given buckets. */
  ghost function Without(m: map<Path, File>, cleared: set<nat>, hash: Path -> nat, n: Positive): map<Path, File>
  {
    map p | p in m && BucketOf(hash, n, p) !in cleared :: m[p]
  }

  /** No file sent is in a bucket cleared before it was its turn. */
  ghost predicate Apart(sent: seq<Sent>, cleared: set<nat>, hash: Path -> nat, n: Positive)
  {
    sent == [] ||
    var b := BucketOf(hash, n, sent[0].path);
    b !in cleared && Apart(sent[1..], cleared + {b}, hash, n)
  }

  ghost function Clearing(sent: seq<Sent>, cleared: set<nat>, hash: Path -> nat, n: Positive): set<nat>
  {
    if sent == [] then cleared
    else Clearing(sent[1..], cleared + {BucketOf(hash, n, sent[0].path)}, hash, n)
  }

  lemma ClearNext(m: map<Path, File>, cleared: set<nat>, hash: Path -> nat, n: Positive, p: Path)
    ensures ClearBucket(Without(m, cleared, hash, n), hash, n, p)
         == Without(m - {p}, cleared + {BucketOf(hash, n, p)}, hash, n)
  {
  }

  /** An eviction as written, after the given buckets have been cleared, beside the one meant. */
  lemma {:induction false} EvictCleared(s: Store, required: nat, cleared: set<nat>, r: Reading)
    requires QueueOk(s) && r.AsWritten?
    ensures var left := s.(files := Without(s.files, cleared, r.hash, r.buckets));
            var (meant, written) := (Evict(s, required, AsMeant), Evict(left, required, r));
            && (written.Some? <==> meant.Some? && Apart(meant.value.1, cleared, r.hash, r.buckets))
            && (written.Some? ==>
                  var (s', sent) := meant.value;
                  var files := Without(s'.files, Clearing(sent, cleared, r.hash, r.buckets), r.hash, r.buckets);
                  written.value == (s'.(files := files), sent))
    decreases |s.fifo|
  {
    var left := s.(files := Without(s.files, cleared, r.hash, r.buckets));
    if s.currentSize + required > s.maxSize && s.fifo != [] {
      var p := s.fifo[0];
      var s1 := HeadGone(s);
      if p in left.files {
        var cleared1 := cleared + {BucketOf(r.hash, r.buckets, p)};
        ClearNext(s.files, cleared, r.hash, r.buckets, p);
        EvictCleared(s1, required, cleared1, r);
        assert EvictHead(left, r) == s1.(files := Without(s1.files, cleared1, r.hash, r.buckets));
      }
    }
  }

  lemma {:induction false} ClearingIs(sent: seq<Sent>, cleared: set<nat>, hash: Path -> nat, n: Positive, b: nat)
    ensures b in Clearing(sent, cleared, hash, n) <==>
              b in cleared || exists i :: 0 <= i < |sent| && BucketOf(hash, n, sent[i].path) == b
  {
    if sent == [] {
    } else {
      ClearingIs(sent[1..], cleared + {BucketOf(hash, n, sent[0].path)}, hash, n, b);
      if i :| 0 <= i < |sent[1..]| && BucketOf(hash, n, sent[1..][i].path) == b {
        assert sent[i + 1] == sent[1..][i];
      }
      if i :| 0 <= i < |sent| && BucketOf(hash, n, sent[i].path) == b {
        assert i > 0 ==> sent[1..][i - 1] == sent[i];
      }
    }
  }

  lemma {:induction false} ApartIs(sent: seq<Sent>, cleared: set<nat>, hash: Path -> nat, n: Positive)
    ensures Apart(sent, cleared, hash, n) <==>
              && (forall i :: 0 <= i < |sent| ==> BucketOf(hash, n, sent[i].path) !in cleared)
              && forall i, j :: 0 <= i < j < |sent| ==>
                   BucketOf(hash, n, sent[i].path) != BucketOf(hash, n, sent[j].path)
  {
    if sent == [] {
    } else {
      assert sent == [sent[0]] + sent[1..];
      ApartIs(sent[1..], cleared + {BucketOf(hash, n, sent[0].path)}, hash, n);
      assert forall i :: 0 < i < |sent| ==> sent[i] == sent[1..][i - 1];
      assert forall i :: 0 <= i < |sent| - 1 ==> sent[1..][i] == sent[i + 1];
    }
  }

  ghost predicate SameBucket(r: Reading, p: Path, q: Path)
    requires r.AsWritten?
  {
    BucketOf(r.hash, r.buckets, p) == BucketOf(r.hash, r.buckets, q)
  }

  /** No two victims are in one bucket. */
  ghost predicate VictimsApart(s: Store, required: nat, r: Reading)
    requires r.AsWritten?
  {
    forall v, w :: v in Victims(s, required) && w in Victims(s, required) && v != w ==> !SameBucket(r, v, w)
  }

  /** p goes with some victim. */
  ghost predicate Shares(s: Store, required: nat, r: Reading, p: Path)
    requires r.AsWritten?
  {
    exists v :: v in Victims(s, required) && SameBucket(r, v, p)
  }

  /** m without what goes with some victim. */
  ghost function Unshared(m: map<Path, File>, s: Store, required: nat, r: Reading): map<Path, File>
    requires r.AsWritten?
  {
    map p | p in m && !Shares(s, required, r, p) :: m[p]
  }

  lemma UnsharedIs(m: map<Path, File>, s: Store, required: nat, r: Reading)
    requires QueueOk(s) && r.AsWritten? && Evict(s, required, AsMeant).Some?
    ensures var sent := Evict(s, required, AsMeant).value.1;
            Unshared(m, s, required, r) == Without(m, Clearing(sent, {}, r.hash, r.buckets), r.hash, r.buckets)
  {
    var sent := Evict(s, required, AsMeant).value.1;
    VictimsAreSent(s, required);
    forall p
      ensures Shares(s, required, r, p) <==> BucketOf(r.hash, r.buckets, p) in Clearing(sent, {}, r.hash, r.buckets)
    {
      ClearingIs(sent, {}, r.hash, r.buckets, BucketOf(r.hash, r.buckets, p));
    }
  }

  /** As written an eviction gets through exactly when the one meant does and no two victims share a
      bucket. Then it differs in the table only: whatever shares a bucket with a victim is gone too. */
  lemma EvictReadings(s: Store, required: nat, r: Reading)
    requires QueueOk(s) && r.AsWritten?
    ensures Evict(s, required, r).Some? <==> Evict(s, required, AsMeant).Some? && VictimsApart(s, required, r)
    ensures Evict(s, required, r).Some? ==>
              var (s', sent) := Evict(s, required, AsMeant).value;
              Evict(s, required, r).value == (s'.(files := Unshared(s'.files, s, required, r)), sent)
  {
    EvictCleared(s, required, {}, r);
    assert s.(files := Without(s.files, {}, r.hash, r.buckets)) == s;
    if Evict(s, required, AsMeant).Some? {
      var (s', sent) := Evict(s, required, AsMeant).value;
      ApartIs(sent, {}, r.hash, r.buckets);
      ApartVictims(s, required, r);
      UnsharedIs(s'.files, s, required, r);
    }
  }

  lemma ApartVictims(s: Store, required: nat, r: Reading)
    requires QueueOk(s) && r.AsWritten? && Evict(s, required, AsMeant).Some?
    ensures var sent := Evict(s, required, AsMeant).value.1;
            VictimsApart(s, required, r) <==>
              forall i, j :: 0 <= i < j < |sent| ==> !SameBucket(r, sent[i].path, sent[j].path)
  {
    VictimsAreSent(s, required);
    var sent := Evict(s, required, AsMeant).value.1;
    if forall i, j :: 0 <= i < j < |sent| ==> !SameBucket(r, sent[i].path, sent[j].path) {
      forall v, w | v in Victims(s, required) && w in Victims(s, required) && v != w
        ensures !SameBucket(r, v, w)
      {
        var i :| 0 <= i < |sent| && sent[i].path == v;
        var j :| 0 <= j < |sent| && sent[j].path == w;
      }
    }
  }

  /** Taking v out of the table takes p too. */
  ghost predicate Takes(r: Reading, v: Path, p: Path)
  {
    v == p || (r.AsWritten? && SameBucket(r, v, p))
  }

  /** When the queue's i-th path comes up, its file is not in the table: it never was, or it went with
      an older path. */
  ghost predicate Gone(s: Store, r: Reading, i: nat)
    requires i < |s.fifo|
  {
    s.fifo[i] !in s.files || exists k :: 0 <= k < i && Takes(r, s.fifo[k], s.fifo[i])
  }

  /** Dropping the i oldest queued files does not make room. */
  ghost predicate Short(s: Store, required: nat, i: nat)
    requires i <= |s.fifo|
  {
    s.currentSize - SizeOf(s.files, s.fifo[..i]) + required > s.maxSize
  }

  /** Before there is room the eviction comes to the end of the queue, or to a path whose file is gone. */
  ghost predicate RunsAground(s: Store, required: nat, r: Reading, i: nat)
  {
    && i <= |s.fifo| && Short(s, required, i)
    && (i == |s.fifo| || Gone(s, r, i)) && forall j :: 0 <= j < i ==> !Gone(s, r, j)
  }

  lemma GoneStep(s: Store, r: Reading, i: nat)
    requires s.fifo != [] && s.fifo[0] in s.files && i + 1 < |s.fifo|
    ensures Gone(EvictHead(s, r), r, i) <==> Gone(s, r, i + 1)
  {
    var s1, p := EvictHead(s, r), s.fifo[i + 1];
    assert p in s1.files <==> p in s.files && !Takes(r, s.fifo[0], p);
    if k :| 0 <= k < i && Takes(r, s1.fifo[k], p) {
      assert s.fifo[k + 1] == s1.fifo[k];
    }
    if k :| 0 <= k < i + 1 && Takes(r, s.fifo[k], p) {
      assert k > 0 ==> s1.fifo[k - 1] == s.fifo[k];
    }
  }

  lemma {:induction false} SizeOfSame(m: map<Path, File>, m': map<Path, File>, q: seq<Path>)
    requires forall p :: p in q ==> p in m && p in m' && m[p] == m'[p]
    ensures SizeOf(m, q) == SizeOf(m', q)
  {
    if q != [] {
      assert q[0] in q;
      SizeOfSame(m, m', q[1..]);
    }
  }

  lemma ShortStep(s: Store, required: nat, r: Reading, i: nat)
    requires s.fifo != [] && s.fifo[0] in s.files && i + 1 <= |s.fifo|
    requires forall j :: 0 <= j < i + 1 ==> !Gone(s, r, j)
    ensures Short(EvictHead(s, r), required, i) <==> Short(s, required, i + 1)
  {
    var s1 := EvictHead(s, r);
    assert s.fifo[..i + 1] == [s.fifo[0]] + s1.fifo[..i];
    forall p | p in s1.fifo[..i]
      ensures p in s.files && p in s1.files && s.files[p] == s1.files[p]
    {
      var j :| 0 <= j < i && s1.fifo[j] == p;
      assert s.fifo[j + 1] == p && !Gone(s, r, j + 1);
      assert !Takes(r, s.fifo[0], p);
    }
    SizeOfSame(s.files, s1.files, s1.fifo[..i]);
  }

  lemma AgroundStep(s: Store, required: nat, r: Reading, i: nat)
    requires s.fifo != [] && s.fifo[0] in s.files
    ensures RunsAground(EvictHead(s, r), required, r, i) <==> RunsAground(s, required, r, i + 1)
  {
    var s1 := EvictHead(s, r);
    if i + 1 <= |s.fifo| {
      forall j: nat | j + 1 < |s.fifo|
        ensures Gone(s1, r, j) <==> Gone(s, r, j + 1)
      {
        GoneStep(s, r, j);
      }
      assert !Gone(s, r, 0);
      if forall j :: 0 <= j < i + 1 ==> !Gone(s, r, j) {
        ShortStep(s, required, r, i);
      } else {
        var j :| 0 <= j < i + 1 && Gone(s, r, j);
        assert j > 0 && Gone(s1, r, j - 1);
      }
    }
  }

  /** In any store at all, and in either reading, this is when an eviction dereferences a null pointer. */
  lemma {:induction false} EvictFailsIff(s: Store, required: nat, r: Reading)
    ensures Evict(s, required, r) == None <==> exists i: nat :: RunsAground(s, required, r, i)
    decreases |s.fifo|
  {
    if s.currentSize + required <= s.maxSize {
    } else if s.fifo == [] || s.fifo[0] !in s.files {
      assert s.fifo[..0] == [];
      assert RunsAground(s, required, r, 0);
    } else {
      EvictFailsIff(EvictHead(s, r), required, r);
      if i: nat :| RunsAground(EvictHead(s, r), required, r, i) {
        AgroundStep(s, required, r, i);
      }
      if i: nat :| RunsAground(s, required, r, i) {
        assert !Gone(s, r, 0) && i > 0;
        AgroundStep(s, required, r, i - 1);
      }
    }
  }
}
