/** What each request is answered, and what it has done when it is answered Success: for every status
    the condition under which the client gets it, in terms of the storage before. */
module Answers {
  import opened Basics
  import opened FileStore
  import opened Accounts
  import opened Collisions
  import opened Laws
  import opened Readings

  /** The status a client gets for e. */
  ghost function Answer(s: Store, e: Event, r: Reading): Option<Status>
  {
    var o := Apply(s, e, r);
    if o.Done? then Some(o.status) else None
  }

  ghost function After(s: Store, e: Event, r: Reading): Store
    requires Apply(s, e, r).Done?
  {
    Apply(s, e, r).store
  }

  /** p is free, or owned by somebody. */
  ghost predicate OwnedBy(s: Store, p: Path, owner: int)
  {
    p in s.files && s.files[p].owner == owner
  }

  ghost predicate OwnedByAnother(s: Store, p: Path, c: Fd)
  {
    p in s.files && s.files[p].owner != NO_OWNER && s.files[p].owner != c
  }

  /** Nothing differs but the entry of p, and that is still there. */
  ghost predicate OnlyFile(s: Store, t: Store, p: Path)
  {
    && t.fifo == s.fifo && t.currentSize == s.currentSize && t.noOfFiles == s.noOfFiles
    && t.maxSize == s.maxSize && t.maxFiles == s.maxFiles
    && t.files.Keys == s.files.Keys && p in s.files
    && forall q :: q in s.files && q != p ==> t.files[q] == s.files[q]
  }

  /** Of p only owner and lock bit differ, and they fit together. */
  ghost predicate OnlyOwner(s: Store, t: Store, p: Path, owner: int)
  {
    && OnlyFile(s, t, p)
    && var f, g := s.files[p], t.files[p];
       && g.owner == owner && g.locked == (owner != NO_OWNER)
       && g.contents == f.contents && g.size == f.size && g.unwritten == f.unwritten && g.waiters == f.waiters
  }

  /** The lock is granted when p is free or the client's own, and then it is the client's; when another
      owns p the client gets no answer and waits behind all others. */
  lemma LockAnswer(s: Store, c: Fd, p: Path, r: Reading)
    requires Inv(s)
    ensures var a := Answer(s, Lock(c, p), r);
            && (a == Some(Success) <==> OwnedBy(s, p, NO_OWNER) || OwnedBy(s, p, c))
            && (a == Some(Awaiting) <==> OwnedByAnother(s, p, c))
            && (a == Some(NotFound) <==> p !in s.files)
            && a in {Some(Success), Some(Awaiting), Some(NotFound)}
            && (a == Some(Success) ==> OnlyOwner(s, After(s, Lock(c, p), r), p, c))
            && (a == Some(Awaiting) ==> LastInLine(s, After(s, Lock(c, p), r), p, c))
            && (a == Some(NotFound) ==> After(s, Lock(c, p), r) == s)
  {
    assert p in s.files ==> FileOk(s.files[p]);
  }

  ghost predicate LastInLine(s: Store, t: Store, p: Path, c: Fd)
  {
    && OnlyFile(s, t, p)
    && t.files[p].waiters == s.files[p].waiters + [c]
    && t.files[p] == s.files[p].(waiters := t.files[p].waiters)
  }

  /** Only the owner's unlock succeeds, and then p is nobody's, with contents and waiters kept. */
  lemma UnlockAnswer(s: Store, c: Fd, p: Path, r: Reading)
    requires Inv(s)
    ensures var a := Answer(s, Unlock(c, p), r);
            && (a == Some(Success) <==> OwnedBy(s, p, c))
            && (a == Some(BadRequest) <==> OwnedBy(s, p, NO_OWNER))
            && (a == Some(Unauthorized) <==> OwnedByAnother(s, p, c))
            && (a == Some(NotFound) <==> p !in s.files)
            && a.Some?
            && (if a == Some(Success) then OnlyOwner(s, After(s, Unlock(c, p), r), p, NO_OWNER)
                else After(s, Unlock(c, p), r) == s)
  {
    assert p in s.files ==> FileOk(s.files[p]);
  }

  /** Closing a stored file always succeeds; it frees the file exactly when the client owns it. */
  lemma CloseAnswer(s: Store, c: Fd, p: Path, r: Reading)
    requires Inv(s)
    ensures var a := Answer(s, Close(c, p), r);
            && (a == Some(Success) <==> p in s.files) && (a == Some(NotFound) <==> p !in s.files)
            && (if OwnedBy(s, p, c) then OnlyOwner(s, After(s, Close(c, p), r), p, NO_OWNER)
                else After(s, Close(c, p), r) == s)
  {
    assert p in s.files ==> FileOk(s.files[p]);
  }

  /** As meant an open takes the lock of a file that is free or the client's own and is refused another's;
      as written it is refused the client's own, and takes another's. */
  lemma LockOnOpenAnswer(s: Store, c: Fd, p: Path, r: Reading)
    requires Inv(s)
    ensures var a := Answer(s, LockOnOpen(c, p), r);
            && (a == Some(Unauthorized) <==> if r.AsMeant? then OwnedByAnother(s, p, c) else OwnedBy(s, p, c))
            && (a == Some(NotFound) <==> p !in s.files)
            && a in {Some(Success), Some(Unauthorized), Some(NotFound)}
            && (if a == Some(Success) then OnlyOwner(s, After(s, LockOnOpen(c, p), r), p, c)
                else After(s, LockOnOpen(c, p), r) == s)
  {
    assert p in s.files ==> FileOk(s.files[p]);
  }

  lemma CheckAnswer(s: Store, c: Fd, p: Path, r: Reading)
    ensures Answer(s, CheckOnOpen(c, p), r) == Some(if p in s.files then Success else NotFound)
    ensures After(s, CheckOnOpen(c, p), r) == s
  {
  }

  /** A creation is refused for a stored path, fails at the file limit when no written file can go, and
      otherwise leaves an empty, free file that is not queued, at the cost of the oldest at most. */
  lemma CreateAnswer(s: Store, c: Fd, p: Path)
    requires Inv(s)
    ensures var a := Answer(s, Create(c, p), AsMeant);
            && (a == Some(FileExists) <==> p in s.files)
            && (a == Some(InternalError) <==> p !in s.files && s.noOfFiles == s.maxFiles && s.fifo == [])
            && a in {Some(Success), Some(FileExists), Some(InternalError)}
            && (if a == Some(Success) then Created(s, After(s, Create(c, p), AsMeant), p)
                else After(s, Create(c, p), AsMeant) == s)
  {
    if p !in s.files && s.noOfFiles == s.maxFiles && s.fifo != [] {
      CreatedAtLimit(s, p);
    }
  }

  lemma CreatedAtLimit(s: Store, p: Path)
    requires Inv(s) && p !in s.files && s.noOfFiles == s.maxFiles && s.fifo != []
    ensures CreateFile(s, p, AsMeant).Done? && CreateFile(s, p, AsMeant).status == Success
    ensures Created(s, CreateFile(s, p, AsMeant).store, p)
  {
    DequeueThenRemove(s);
    var s1 := HeadGone(s);
    assert CreateFile(s, p, AsMeant).store == AddFile(s1, p);
    assert p !in s1.fifo by {
      assert forall q :: q in s.fifo ==> Written(s, q);
    }
  }

  ghost predicate Created(s: Store, t: Store, p: Path)
  {
    && p in t.files && p !in t.fifo
    && t.files[p].unwritten && !t.files[p].locked && t.files[p].owner == NO_OWNER
    && t.files[p].contents == [] && t.files[p].size == 0 && t.files[p].waiters == []
    && (forall q :: q in t.files && q != p ==> q in s.files && t.files[q] == s.files[q])
    && if s.noOfFiles < s.maxFiles then
         t.fifo == s.fifo && t.files.Keys == s.files.Keys + {p}
       else
         s.fifo != [] && t.fifo == s.fifo[1..] && t.files.Keys == s.files.Keys - {s.fifo[0]} + {p}
  }

  /** For every write that does not crash, when the client gets which status. */
  lemma WriteAnswer(s: Store, c: Fd, p: Path, body: seq<Byte>, r: Reading)
    requires Inv(s) && Apply(s, Write(c, p, body), r).Done?
    ensures var a := Answer(s, Write(c, p, body), r);
            && (a == Some(BadRequest) <==> body == [])
            && (a == Some(NotFound) <==> body != [] && p !in s.files)
            && (a == Some(Unauthorized) <==> body != [] && p in s.files && s.files[p].owner != c)
            && (a == Some(FileTooBig) <==> OwnedBy(s, p, c) && |body| > s.maxSize)
            && (a == Some(FileExists) <==> body != [] && OwnedBy(s, p, c) && |body| <= s.maxSize && Written(s, p))
            && (a == Some(Success) <==> body != [] && OwnedBy(s, p, c) && |body| <= s.maxSize && !Written(s, p))
            && (a == Some(Success) <==> FirstWrite(s, Write(c, p, body)))
  {
  }

  /** A write answered Success has stored exactly its body, for the same owner, last in the queue; one
      that is too big has removed its file; any other has done nothing. */
  lemma WriteDone(s: Store, c: Fd, p: Path, body: seq<Byte>)
    requires Inv(s) && Apply(s, Write(c, p, body), AsMeant).Done?
    ensures var a, t := Answer(s, Write(c, p, body), AsMeant), After(s, Write(c, p, body), AsMeant);
            && (a == Some(Success) ==> WroteBody(s, t, c, p, body))
            && (a == Some(FileTooBig) ==> Removed(s, t, p))
            && (a != Some(Success) && a != Some(FileTooBig) ==> t == s)
            && (a != Some(Success) ==> Apply(s, Write(c, p, body), AsMeant).sent == [])
  {
    var e := Write(c, p, body);
    if FirstWrite(s, e) {
      EvictIsShortestPrefix(s, |body|);
      EvictedKeepsUnqueued(s, |body|, p);
      FirstWriteBooks(s, p, s.files[p], body);
    } else if OwnedBy(s, p, c) && |body| > s.maxSize {
      RemovedAsMeant(s, p);
    }
  }

  ghost predicate WroteBody(s: Store, t: Store, c: Fd, p: Path, body: seq<Byte>)
  {
    && Written(t, p) && t.files[p].contents == body && t.files[p].size == |body|
    && t.files[p].owner == c && t.files[p].locked && p in s.files && t.files[p].waiters == s.files[p].waiters
    && t.fifo != [] && t.fifo[|t.fifo| - 1] == p && t.currentSize <= t.maxSize
  }

  /** p is gone from table and queue, and nothing else is. */
  ghost predicate Removed(s: Store, t: Store, p: Path)
  {
    && p in s.files && p !in t.files && t.files == s.files - {p}
    && p !in t.fifo && (forall x, y :: x != p && y != p ==> (Before(t.fifo, x, y) <==> Before(s.fifo, x, y)))
    && (forall q :: q != p ==> (q in t.fifo <==> q in s.fifo))
    && t.noOfFiles == s.noOfFiles - 1 && t.currentSize == s.currentSize - s.files[p].size
  }

  lemma {:induction false} RemoveFirstKeepsOrder(q: seq<Path>, p: Path, x: Path, y: Path)
    requires Before(q, x, y) && x != p && y != p
    ensures Before(RemoveFirst(q, p), x, y)
  {
    var i, j :| 0 <= i < j < |q| && q[i] == x && q[j] == y;
    var t := RemoveFirst(q, p);
    if q[0] == p {
      assert t[i - 1] == x && t[j - 1] == y;
    } else if i == 0 {
      RemoveFirstHas(q[1..], p, y);
      assert y in q[1..] by {
        assert q[1..][j - 1] == y;
      }
      var k :| 0 <= k < |RemoveFirst(q[1..], p)| && RemoveFirst(q[1..], p)[k] == y;
      assert t[0] == x && t[k + 1] == y;
    } else {
      assert q[1..][i - 1] == x && q[1..][j - 1] == y;
      RemoveFirstKeepsOrder(q[1..], p, x, y);
      var a, b :| 0 <= a < b < |RemoveFirst(q[1..], p)|
                  && RemoveFirst(q[1..], p)[a] == x && RemoveFirst(q[1..], p)[b] == y;
      assert t[a + 1] == x && t[b + 1] == y;
    }
  }

  lemma {:induction false} RemoveFirstHas(q: seq<Path>, p: Path, y: Path)
    requires y != p
    ensures y in q <==> y in RemoveFirst(q, p)
  {
    if q != [] {
      assert q == [q[0]] + q[1..];
      if q[0] != p {
        RemoveFirstHas(q[1..], p, y);
      }
    }
  }

  lemma RemovedAsMeant(s: Store, p: Path)
    requires Books(s) && p in s.files
    ensures Removed(s, RemoveFile(s, p, AsMeant), p)
  {
    RemoveFirstNoDup(s.fifo, p);
    var t := RemoveFile(s, p, AsMeant);
    forall x, y | x != p && y != p
      ensures Before(t.fifo, x, y) <==> Before(s.fifo, x, y)
    {
      if Before(s.fifo, x, y) {
        RemoveFirstKeepsOrder(s.fifo, p, x, y);
      }
      if Before(t.fifo, x, y) {
        RemoveFirstBefore(s.fifo, p, x, y);
      }
    }
  }

  /** Only the owner's removal succeeds, and then p is gone and nothing else. */
  lemma RemoveAnswer(s: Store, c: Fd, p: Path)
    requires Inv(s)
    ensures var a, t := Answer(s, Remove(c, p), AsMeant), After(s, Remove(c, p), AsMeant);
            && (a == Some(Success) <==> OwnedBy(s, p, c))
            && (a == Some(Unauthorized) <==> p in s.files && s.files[p].owner != c)
            && (a == Some(NotFound) <==> p !in s.files)
            && (if a == Some(Success) then Removed(s, t, p) else t == s)
  {
    if p in s.files {
      assert FileOk(s.files[p]);
      RemovedAsMeant(s, p);
    }
  }

  /** An append asks for a body that fits, a stored file and its lock, in this order, and then the file
      holds the body behind what it held. */
  lemma AppendAnswer(s: Store, c: Fd, p: Path, body: seq<Byte>, r: Reading)
    ensures var a, t := Answer(s, Append(c, p, body), r), After(s, Append(c, p, body), r);
            && (a == Some(BadRequest) <==> body == [])
            && (a == Some(FileTooBig) <==> |body| > s.maxSize && body != [])
            && (a == Some(NotFound) <==> 0 < |body| <= s.maxSize && p !in s.files)
            && (a == Some(Unauthorized) <==> 0 < |body| <= s.maxSize && p in s.files && s.files[p].owner != c)
            && (a == Some(Success) <==> 0 < |body| <= s.maxSize && OwnedBy(s, p, c))
            && (if a == Some(Success) then AppendedBody(s, t, p, body) else t == s)
  {
  }

  ghost predicate AppendedBody(s: Store, t: Store, p: Path, body: seq<Byte>)
  {
    && t.fifo == s.fifo && t.noOfFiles == s.noOfFiles && t.currentSize == s.currentSize + |body|
    && t.files.Keys == s.files.Keys && p in s.files
    && (forall q :: q in s.files && q != p ==> t.files[q] == s.files[q])
    && var f, g := s.files[p], t.files[p];
       && g.contents == f.contents + body && g.size == f.size + |body|
       && g.owner == f.owner && g.locked == f.locked && g.unwritten == f.unwritten && g.waiters == f.waiters
  }

  /** A read of a stored file brings its contents, whoever asks. */
  lemma ReadAnswer(s: Store, c: Fd, p: Path, r: Reading)
    ensures var o := Apply(s, Read(c, p), r);
            && o.Done? && o.store == s && o.status in {Success, NotFound}
            && (o.status == Success <==> p in s.files)
            && (o.status == Success ==> |o.sent| == 1 && o.sent[0].path == p && o.sent[0].body == s.files[p].contents)
  {
  }

  /** Whatever else the code as written gets wrong, the client is told what it is meant to be told, and
      sent the same files; only an open with lock is answered differently. */
  lemma AnswersAgree(s: Store, e: Event, r: Reading)
    requires Inv(s) && Apply(s, e, r).Done? && !e.LockOnOpen?
    ensures Answer(s, e, AsMeant) == Answer(s, e, r) && Apply(s, e, AsMeant).sent == Apply(s, e, r).sent
  {
    if r.AsWritten? && FirstWrite(s, e) {
      FirstWriteReadings(s, e, r);
    }
  }

  /** An int is the byte limit modulo 2^32. */
  lemma ToIntIs(n: nat)
    ensures -0x8000_0000 <= ToInt(n) < 0x8000_0000 && (n - ToInt(n)) % 0x1_0000_0000 == 0
  {
  }
}
