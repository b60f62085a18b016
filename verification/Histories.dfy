/** What a file holds and who gets its lock, from what the requests before were answered. */
module Histories {
  import opened Basics
  import opened FileStore
  import opened Accounts
  import opened Laws
  import opened Answers
  import opened Runs

  /** What p should hold after e was answered a, when it held h: nothing after its creation, the body
      after a write, the body behind h after an append, and h after anything else. */
  ghost function Told(e: Event, a: Option<Status>, p: Path, h: seq<Byte>): seq<Byte>
  {
    if a != Some(Success) then h
    else
      match e
      case Create(_, q) => if q == p then [] else h
      case Write(_, q, body) => if q == p then body else h
      case Append(_, q, body) => if q == p then h + body else h
      case _ => h
  }

  /** The bytes p was told to hold by the requests answered Success before state i. */
  ghost function History(ss: seq<Store>, es: seq<Event>, i: nat, p: Path): seq<Byte>
    requires i < |ss| && |ss| == |es| + 1
  {
    if i == 0 then []
    else Told(es[i - 1], Answer(ss[i - 1], es[i - 1], AsMeant), p, History(ss, es, i - 1, p))
  }

  lemma HistoryStep(s: Store, e: Event, s': Store, p: Path, h: seq<Byte>)
    requires Inv(s) && Step(s, e, s', AsMeant) && p in s'.files
    requires p in s.files ==> s.files[p].contents == h
    ensures s'.files[p].contents == Told(e, Answer(s, e, AsMeant), p, h)
  {
    StepLawful(s, e, p);
    match e
    case Create(c, q) => CreateAnswer(s, c, q);
    case Write(c, q, body) =>
      WriteAnswer(s, c, q, body, AsMeant);
      WriteDone(s, c, q, body);
    case Append(c, q, body) => AppendAnswer(s, c, q, body, AsMeant);
    case _ =>
  }

  /** Over any run from an empty storage a stored file holds exactly what it was told to. */
  lemma {:induction false} HoldsHistory(ss: seq<Store>, es: seq<Event>, i: nat, p: Path)
    requires IsRun(ss, es, AsMeant) && Inv(ss[0]) && ss[0].files == map[] && i < |ss| && p in ss[i].files
    ensures ss[i].files[p].contents == History(ss, es, i, p)
  {
    if i > 0 {
      var s, s' := ss[i - 1], ss[i];
      InvAt(ss, es, i - 1);
      if p in s.files {
        HoldsHistory(ss, es, i - 1, p);
      }
      assert Step(s, es[i - 1], s', AsMeant);
      HistoryStep(s, es[i - 1], s', p, History(ss, es, i - 1, p));
    }
  }

  /** A read is answered Success exactly for a stored file, and brings the body of its write and of the
      appends it keeps, in order. */
  lemma ReadsHistory(ss: seq<Store>, es: seq<Event>, i: nat, c: Fd, p: Path)
    requires IsRun(ss, es, AsMeant) && Inv(ss[0]) && ss[0].files == map[] && i < |ss|
    ensures var o := Apply(ss[i], Read(c, p), AsMeant);
            && o.Done? && (o.status == Success <==> p in ss[i].files)
            && (o.status == Success ==> o.sent == [Sent(p, History(ss, es, i, p))])
  {
    ReadAnswer(ss[i], c, p, AsMeant);
    if p in ss[i].files {
      HoldsHistory(ss, es, i, p);
      var sent := Apply(ss[i], Read(c, p), AsMeant).sent;
      assert sent == [sent[0]];
    }
  }

  ghost predicate Releases(e: Event, c: Fd, p: Path)
  {
    (e.Close? || e.Unlock?) && e.c == c && e.p == p
  }

  /** A lock is kept until its owner gives it back or the file leaves the storage. */
  lemma {:induction false} KeepsLock(ss: seq<Store>, es: seq<Event>, i: nat, j: nat, c: Fd, p: Path)
    requires IsRun(ss, es, AsMeant) && Inv(ss[0]) && i <= j < |ss| && Stays(ss, i, j, p)
    requires OwnedBy(ss[i], p, c) && forall k :: i <= k < j ==> !Releases(es[k], c, p)
    ensures OwnedBy(ss[j], p, c)
  {
    if ss[j].files[p].owner != c {
      NoHandOverWithoutRelease(ss, es, i, j, p);
    }
  }

  /** So whoever else asks for it meanwhile is refused or has to wait. */
  lemma RefusedMeanwhile(ss: seq<Store>, es: seq<Event>, i: nat, j: nat, c: Fd, d: Fd, p: Path)
    requires IsRun(ss, es, AsMeant) && Inv(ss[0]) && i <= j < |ss| && Stays(ss, i, j, p) && d != c
    requires OwnedBy(ss[i], p, c) && forall k :: i <= k < j ==> !Releases(es[k], c, p)
    ensures Answer(ss[j], Lock(d, p), AsMeant) == Some(Awaiting)
    ensures Answer(ss[j], LockOnOpen(d, p), AsMeant) == Some(Unauthorized)
    ensures Answer(ss[j], Unlock(d, p), AsMeant) == Some(Unauthorized)
    ensures Answer(ss[j], Remove(d, p), AsMeant) == Some(Unauthorized)
  {
    InvAt(ss, es, j);
    KeepsLock(ss, es, i, j, c, p);
    LockAnswer(ss[j], d, p, AsMeant);
    LockOnOpenAnswer(ss[j], d, p, AsMeant);
    UnlockAnswer(ss[j], d, p, AsMeant);
    RemoveAnswer(ss[j], d, p);
  }

  /** A pass gives a free queued file to its head waiter. */
  lemma PassGrants(s: Store, p: Path)
    requires Inv(s) && p in s.fifo && OwnedBy(s, p, NO_OWNER) && s.files[p].waiters != []
    ensures var t, w := After(s, LockPass, AsMeant), s.files[p].waiters;
            OwnedBy(t, p, w[0]) && t.files[p].locked && t.files[p].waiters == w[1..]
  {
    assert FileOk(s.files[p]);
    assert forall q :: q in s.fifo ==> Written(s, q);
  }

  /** Nobody asks for the lock of p, and no pass is made. */
  ghost predicate LeftAlone(e: Event, p: Path)
  {
    !e.LockPass? && ((e.Lock? || e.LockOnOpen?) ==> e.p != p)
  }

  lemma {:induction false} StaysFree(ss: seq<Store>, es: seq<Event>, i: nat, j: nat, p: Path, w: seq<Fd>)
    requires IsRun(ss, es, AsMeant) && Inv(ss[0]) && i <= j < |ss| && Stays(ss, i, j, p)
    requires OwnedBy(ss[i], p, NO_OWNER) && ss[i].files[p].waiters == w
    requires forall k :: i <= k < j ==> LeftAlone(es[k], p)
    ensures OwnedBy(ss[j], p, NO_OWNER) && ss[j].files[p].waiters == w
    decreases j
  {
    if i < j {
      StaysFree(ss, es, i, j - 1, p, w);
      RunStep(ss, es, j - 1, p);
    }
  }

  /** After the owner's unlock the next pass gives a queued file to the client that waited longest. */
  lemma UnlockedIsGranted(ss: seq<Store>, es: seq<Event>, i: nat, j: nat, c: Fd, p: Path)
    requires IsRun(ss, es, AsMeant) && Inv(ss[0]) && i < j < |es| && Stays(ss, i, j, p)
    requires es[i] == Unlock(c, p) && OwnedBy(ss[i], p, c) && es[j] == LockPass && p in ss[j].fifo
    requires forall k :: i < k < j ==> LeftAlone(es[k], p)
    ensures var w := ss[i].files[p].waiters;
            w != [] ==> OwnedBy(ss[j + 1], p, w[0]) && ss[j + 1].files[p].waiters == w[1..]
  {
    var w := ss[i].files[p].waiters;
    InvAt(ss, es, i);
    InvAt(ss, es, j);
    assert Step(ss[i], es[i], ss[i + 1], AsMeant) && Step(ss[j], es[j], ss[j + 1], AsMeant);
    UnlockAnswer(ss[i], c, p, AsMeant);
    StaysFree(ss, es, i + 1, j, p, w);
    if w != [] {
      PassGrants(ss[j], p);
    }
  }
}
