/** Whole runs of the storage: any interleaving of any clients' steps and lock-manager passes. */
module Runs {
  import opened Basics
  import opened FileStore
  import opened Accounts
  import opened Laws
  import opened Readings

  ghost predicate Step(s: Store, e: Event, s': Store, r: Reading)
  {
    Apply(s, e, r).Done? && Apply(s, e, r).store == s'
  }

  ghost predicate IsRun(ss: seq<Store>, es: seq<Event>, r: Reading)
  {
    && |ss| == |es| + 1
    && forall i {:trigger es[i]} :: 0 <= i < |es| ==> Step(ss[i], es[i], ss[i + 1], r)
  }

  /** The books balance in every state of every run. */
  lemma {:induction false} InvAt(ss: seq<Store>, es: seq<Event>, i: nat)
    requires IsRun(ss, es, AsMeant) && Inv(ss[0]) && i < |ss|
    ensures Inv(ss[i])
  {
    if i == 0 {
    } else {
      InvAt(ss, es, i - 1);
      assert Step(ss[i - 1], es[i - 1], ss[i], AsMeant);
      StepInv(ss[i - 1], es[i - 1]);
    }
  }

  lemma {:induction false} AsWrittenPrefix(ss: seq<Store>, es: seq<Event>, r: Reading, i: nat)
    requires r.AsWritten? && IsRun(ss, es, r) && Inv(ss[0]) && i < |ss|
    requires forall k :: 0 <= k < |es| ==> AsMeantHere(ss[k], es[k], r)
    ensures Inv(ss[i]) && forall k :: 0 <= k < i ==> Step(ss[k], es[k], ss[k + 1], AsMeant)
  {
    if i == 0 {
    } else {
      AsWrittenPrefix(ss, es, r, i - 1);
      assert Step(ss[i - 1], es[i - 1], ss[i], r);
      ReadingsAgreeIff(ss[i - 1], es[i - 1], r);
      StepInv(ss[i - 1], es[i - 1]);
    }
  }

  /** A run of the code as written that meets only the requests it handles as meant is a run as
      meant, so every result below holds of it. */
  lemma AsWrittenRunIsAsMeant(ss: seq<Store>, es: seq<Event>, r: Reading)
    requires r.AsWritten? && IsRun(ss, es, r) && Inv(ss[0])
    requires forall k :: 0 <= k < |es| ==> AsMeantHere(ss[k], es[k], r)
    ensures IsRun(ss, es, AsMeant)
  {
    AsWrittenPrefix(ss, es, r, |es|);
  }

  /** While no file still queued shares a bucket with a file taken, the code as written keeps its
      queue in order, whatever else it gets wrong, so no lookup of a queued path ever fails. */
  lemma {:induction false} QueueOkAt(ss: seq<Store>, es: seq<Event>, r: Reading, i: nat)
    requires r.AsWritten? && IsRun(ss, es, r) && QueueOk(ss[0]) && i < |ss|
    requires forall k :: 0 <= k < |es| ==> QueueSpared(ss[k], es[k], r)
    ensures QueueOk(ss[i])
  {
    if i == 0 {
    } else {
      QueueOkAt(ss, es, r, i - 1);
      QueueOkStep(ss[i - 1], es[i - 1], ss[i], r);
    }
  }

  lemma QueueOkStep(s: Store, e: Event, s': Store, r: Reading)
    requires r.AsWritten? && Step(s, e, s', r) && QueueOk(s) && QueueSpared(s, e, r)
    ensures QueueOk(s')
  {
    QueueOkEitherWay(s, e, r);
  }

  /** p is stored in every state from i to j. */
  ghost predicate Stays(ss: seq<Store>, i: nat, j: nat, p: Path)
    requires i <= j < |ss|
  {
    forall k :: i <= k <= j ==> p in ss[k].files
  }

  /** The facts about one step of a run that every induction below uses. */
  lemma RunStep(ss: seq<Store>, es: seq<Event>, i: nat, p: Path)
    requires IsRun(ss, es, AsMeant) && Inv(ss[0]) && i < |es|
    ensures Inv(ss[i]) && Inv(ss[i + 1])
    ensures Lawful(ss[i], es[i], ss[i + 1], p)
  {
    InvAt(ss, es, i);
    InvAt(ss, es, i + 1);
    assert Step(ss[i], es[i], ss[i + 1], AsMeant);
    StepLawful(ss[i], es[i], p);
  }

  /** Written once, then only appended to: while a written file is stored it stays written, and its
      contents at any time extend its contents at any earlier time. */
  lemma {:induction false} WriteOnceThenAppend(ss: seq<Store>, es: seq<Event>, i: nat, j: nat, p: Path)
    requires IsRun(ss, es, AsMeant) && Inv(ss[0]) && i <= j < |ss|
    requires Stays(ss, i, j, p) && Written(ss[i], p)
    ensures Written(ss[j], p) && ss[i].files[p].contents <= ss[j].files[p].contents
    ensures ss[j].files[p].size == |ss[j].files[p].contents|
    decreases j
  {
    InvAt(ss, es, j);
    assert FileOk(ss[j].files[p]);
    if i < j {
      var s, s' := ss[j - 1], ss[j];
      WriteOnceThenAppend(ss, es, i, j - 1, p);
      RunStep(ss, es, j - 1, p);
      WrittenStep(s, es[j - 1], s', p);
    }
  }

  lemma WrittenStep(s: Store, e: Event, s': Store, p: Path)
    requires Lawful(s, e, s', p) && Written(s, p) && p in s'.files
    ensures Written(s', p) && s.files[p].contents <= s'.files[p].contents
  {
  }

  /** A stored file changes hands only after its owner closed or unlocked it. */
  lemma {:induction false} NoHandOverWithoutRelease(ss: seq<Store>, es: seq<Event>, i: nat, j: nat, p: Path)
    requires IsRun(ss, es, AsMeant) && Inv(ss[0]) && i <= j < |ss| && Stays(ss, i, j, p)
    requires ss[i].files[p].owner != NO_OWNER && ss[j].files[p].owner != ss[i].files[p].owner
    ensures exists k :: i <= k < j && (es[k].Close? || es[k].Unlock?) && es[k].p == p && es[k].c == ss[i].files[p].owner
    decreases j
  {
    if ss[j - 1].files[p].owner != ss[i].files[p].owner {
      NoHandOverWithoutRelease(ss, es, i, j - 1, p);
    } else {
      OwnerStep(ss, es, j - 1, p);
    }
  }

  lemma OwnerStep(ss: seq<Store>, es: seq<Event>, i: nat, p: Path)
    requires IsRun(ss, es, AsMeant) && Inv(ss[0]) && i < |es| && p in ss[i].files && p in ss[i + 1].files
    requires ss[i].files[p].owner != NO_OWNER && ss[i + 1].files[p].owner != ss[i].files[p].owner
    ensures (es[i].Close? || es[i].Unlock?) && es[i].p == p && es[i].c == ss[i].files[p].owner
  {
    RunStep(ss, es, i, p);
  }

  /** Waiters are served in order of arrival: whoever waits behind x on p keeps waiting behind x
      until a pass has given x the lock. */
  lemma {:induction false} GrantedInOrder(ss: seq<Store>, es: seq<Event>, i: nat, j: nat, p: Path, x: Fd, y: Fd)
    requires IsRun(ss, es, AsMeant) && Inv(ss[0]) && i <= j < |ss| && Stays(ss, i, j, p)
    requires Before(ss[i].files[p].waiters, x, y)
    ensures Before(ss[j].files[p].waiters, x, y) || Granted(ss, es, i, j, p, x)
    decreases j
  {
    if i < j {
      GrantedInOrder(ss, es, i, j - 1, p, x, y);
      if Before(ss[j - 1].files[p].waiters, x, y) {
        WaitersStep(ss, es, j - 1, p, x, y);
      }
    }
  }

  /** Between states i and j some pass took p from nobody to x. */
  ghost predicate Granted(ss: seq<Store>, es: seq<Event>, i: nat, j: nat, p: Path, x: Fd)
    requires i <= j < |ss| && |es| + 1 == |ss| && Stays(ss, i, j, p)
  {
    exists k :: i <= k < j && es[k].LockPass? && ss[k].files[p].owner == NO_OWNER && ss[k + 1].files[p].owner == x
  }

  lemma WaitersStep(ss: seq<Store>, es: seq<Event>, i: nat, p: Path, x: Fd, y: Fd)
    requires IsRun(ss, es, AsMeant) && Inv(ss[0]) && i < |es|
    requires p in ss[i].files && p in ss[i + 1].files && Before(ss[i].files[p].waiters, x, y)
    ensures || Before(ss[i + 1].files[p].waiters, x, y)
            || (es[i].LockPass? && ss[i].files[p].owner == NO_OWNER && ss[i + 1].files[p].owner == x)
  {
    RunStep(ss, es, i, p);
    var w, w', e := ss[i].files[p].waiters, ss[i + 1].files[p].waiters, es[i];
    var a, b :| 0 <= a < b < |w| && w[a] == x && w[b] == y;
    if w' == w || (e.Lock? && w' == w + [e.c]) {
      assert w'[a] == x && w'[b] == y;
    } else if a > 0 {
      assert w'[a - 1] == x && w'[b - 1] == y;
    }
  }

  /** When p became written for as long as it is now: the first state since which it has been. */
  ghost function Since(ss: seq<Store>, i: nat, p: Path): (t: nat)
    requires i < |ss|
    ensures t <= i
  {
    if i == 0 || !Written(ss[i - 1], p) then i else Since(ss, i - 1, p)
  }

  lemma QueueStep(ss: seq<Store>, es: seq<Event>, i: nat, x: Path, y: Path)
    requires IsRun(ss, es, AsMeant) && Inv(ss[0]) && i < |es|
    requires Before(ss[i + 1].fifo, x, y)
    ensures Written(ss[i], x)
    ensures if Written(ss[i], y) then y in ss[i].fifo && Before(ss[i].fifo, x, y) else y !in ss[i].fifo
  {
    InvAt(ss, es, i);
    assert Step(ss[i], es[i], ss[i + 1], AsMeant);
    QueueLaw(ss[i], es[i], x, y);
  }

  /** The queue is always in order of first write. */
  lemma {:induction false} QueueSortedBySince(ss: seq<Store>, es: seq<Event>, i: nat, x: Path, y: Path)
    requires IsRun(ss, es, AsMeant) && Inv(ss[0]) && ss[0].fifo == [] && i < |ss|
    requires Before(ss[i].fifo, x, y)
    ensures Since(ss, i, x) < Since(ss, i, y)
  {
    if i == 0 {
    } else {
      QueueStep(ss, es, i - 1, x, y);
      if y in ss[i - 1].fifo {
        QueueSortedBySince(ss, es, i - 1, x, y);
      }
    }
  }

  /** Both evictions take the oldest written files: every written file that stays was first written
      later than any file evicted. */
  lemma EvictionTakesOldest(ss: seq<Store>, es: seq<Event>, i: nat, p: Path, q: Path)
    requires IsRun(ss, es, AsMeant) && Inv(ss[0]) && ss[0].fifo == [] && i < |es|
    requires (es[i].Create? || es[i].Write?) && es[i].p != p
    requires p in ss[i].files && p !in ss[i + 1].files
    requires Written(ss[i], q) && q in ss[i + 1].files
    ensures Written(ss[i], p) && Since(ss, i, p) < Since(ss, i, q)
  {
    RunStep(ss, es, i, p);
    assert Step(ss[i], es[i], ss[i + 1], AsMeant);
    EvictedBeforeKept(ss[i], es[i], p, q);
    QueueSortedBySince(ss, es, i, p, q);
  }

  /** No event of the run appends to a stored file before its first write. */
  ghost predicate WritesFirst(ss: seq<Store>, es: seq<Event>)
    requires |ss| == |es| + 1
  {
    forall k {:trigger es[k]} :: 0 <= k < |es| ==> !AppendsTooSoon(ss[k], es[k])
  }

  ghost predicate AppendsTooSoon(s: Store, e: Event)
  {
    e.Append? && e.p in s.files && s.files[e.p].unwritten
  }

  lemma NoStrayStep(s: Store, e: Event, s': Store)
    requires Inv(s) && NoStrayBytes(s) && Step(s, e, s', AsMeant) && !AppendsTooSoon(s, e)
    ensures NoStrayBytes(s')
  {
    NoStrayBytesKept(s, e);
  }

  lemma {:induction false} NoStrayBytesUpTo(ss: seq<Store>, es: seq<Event>, i: nat)
    requires IsRun(ss, es, AsMeant) && Inv(ss[0]) && NoStrayBytes(ss[0]) && WritesFirst(ss, es) && i < |ss|
    ensures NoStrayBytes(ss[i])
  {
    if i == 0 {
    } else {
      NoStrayBytesUpTo(ss, es, i - 1);
      InvAt(ss, es, i - 1);
      NoStrayStep(ss[i - 1], es[i - 1], ss[i]);
    }
  }

  /** In a run that never appends to a file before its first write, no next step can crash. */
  lemma NoStrayBytesAt(ss: seq<Store>, es: seq<Event>, i: nat, e: Event)
    requires IsRun(ss, es, AsMeant) && Inv(ss[0]) && NoStrayBytes(ss[0]) && WritesFirst(ss, es) && i < |ss|
    ensures Inv(ss[i]) && NoStrayBytes(ss[i]) && Apply(ss[i], e, AsMeant).Done?
  {
    InvAt(ss, es, i);
    NoStrayBytesUpTo(ss, es, i);
    NeverCrashes(ss[i], e, AsMeant);
  }
}
