/** The lock protocol end to end: what holds of every client and every file in every state of every
    interleaving of clients, handlers and lock-manager passes. */
module SessionProofs {
  import opened Basics
  import opened FileStore
  import opened Accounts
  import opened Laws
  import opened Sessions

  /** A step of the storage on behalf of client c. */
  ghost predicate StepOf(s: Store, e: Event, s': Store, c: Fd)
  {
    && Inv(s) && Inv(s') && !e.LockPass? && e.c == c
    && forall p :: Lawful(s, e, s', p)
  }

  lemma StepOfApply(s: Store, e: Event, c: Fd)
    requires Inv(s) && !e.LockPass? && e.c == c && Apply(s, e, AsMeant).Done?
    ensures StepOf(s, e, Apply(s, e, AsMeant).store, c)
  {
    StepInv(s, e);
    forall p
      ensures Lawful(s, e, Apply(s, e, AsMeant).store, p)
    {
      StepLawful(s, e, p);
    }
  }

  /** A client gains no lock and no place in a queue by another client's step. */
  lemma OthersGainNothing(s: Store, e: Event, s': Store, c: Fd, d: Fd)
    requires StepOf(s, e, s', c) && d != c
    ensures forall p :: Owns(s', d, p) ==> Owns(s, d, p)
    ensures forall p :: Waits(s', d, p) ==> Waits(s, d, p)
    ensures forall p :: Waits(s, d, p) && p in s'.files ==> Waits(s', d, p)
  {
    forall p
      ensures Owns(s', d, p) ==> Owns(s, d, p)
      ensures Waits(s', d, p) ==> Waits(s, d, p)
      ensures Waits(s, d, p) && p in s'.files ==> Waits(s', d, p)
    {
      assert Lawful(s, e, s', p);
    }
  }

  lemma WaiterIsLocking(y: System, d: Fd, p: Path)
    requires SysInv(y) && Waits(y.store, d, p)
    ensures d in y.clients && Locking(y.clients[d], d, p) && y.clients[d].wire == [] && d !in y.lost
  {
    assert FileUsers(y, p);
  }

  lemma OrphanWaited(s: Store, s': Store, d: Fd)
    requires d in Orphans(s, s')
    ensures exists p :: Waits(s, d, p) && p !in s'.files
  {
    var p :| p in s.files && p !in s'.files && d in s.files[p].waiters;
    assert Waits(s, d, p);
  }

  /** A client waits on one file only, so while that file is stored it is nobody's orphan. */
  lemma WaiterOfStored(y: System, s': Store, d: Fd, p: Path)
    requires SysInv(y) && Waits(y.store, d, p) && p in s'.files
    ensures d !in Orphans(y.store, s')
  {
    WaiterIsLocking(y, d, p);
    forall q | Waits(y.store, d, q)
      ensures q == p
    {
      WaiterIsLocking(y, d, q);
    }
    if d in Orphans(y.store, s') {
      OrphanWaited(y.store, s', d);
    }
  }

  lemma OtherClientOk(y: System, e: Event, s': Store, c: Fd, d: Fd)
    requires SysInv(y) && StepOf(y.store, e, s', c) && d in y.clients && d != c
    ensures ClientOk(s', y.lost + Orphans(y.store, s'), d, y.clients[d])
  {
    var k := y.clients[d];
    assert ClientOk(y.store, y.lost, d, k);
    OthersGainNothing(y.store, e, s', c, d);
    if d in Orphans(y.store, s') {
      OrphanWaited(y.store, s', d);
      var p :| Waits(y.store, d, p) && p !in s'.files;
      WaiterIsLocking(y, d, p);
    } else if k.phase.Handled? && k.phase.request.Ask? && k.phase.request.e.Lock? {
      var p := k.phase.request.e.p;
      assert Waits(y.store, d, p) && p !in s'.files ==> d in Orphans(y.store, s');
    }
  }

  lemma WaiterKept(y: System, e: Event, s': Store, c: Fd, p: Path, d: Fd)
    requires SysInv(y) && StepOf(y.store, e, s', c) && p in y.store.files && p in s'.files && d != c
    requires d in s'.files[p].waiters
    ensures s'.files[p].owner != d && d in y.clients && Locking(y.clients[d], d, p)
    ensures y.clients[d].wire == [] && d !in y.lost + Orphans(y.store, s')
  {
    assert Lawful(y.store, e, s', p) && FileUsers(y, p) && FileOk(y.store.files[p]);
    assert Waits(y.store, d, p);
    WaiterIsLocking(y, d, p);
    WaiterOfStored(y, s', d, p);
  }

  lemma FileUsersKept(y: System, e: Event, s': Store, c: Fd, k': Client, p: Path)
    requires SysInv(y) && c in y.clients && y.clients[c].phase.Asked? && StepOf(y.store, e, s', c)
    requires Waits(s', c, p) ==> Locking(k', c, p) && k'.wire == []
    requires p in s'.files
    ensures FileUsers(System(s', y.clients[c := k'], y.lost + Orphans(y.store, s')), p)
  {
    var y' := System(s', y.clients[c := k'], y.lost + Orphans(y.store, s'));
    assert Lawful(y.store, e, s', p);
    SenderIsFree(y, e, s', c);
    if p in y.store.files {
      assert FileUsers(y, p);
      assert FileOk(y.store.files[p]);
      forall d | d in s'.files[p].waiters
        ensures s'.files[p].owner != d && d in y'.clients && Locking(y'.clients[d], d, p)
        ensures y'.clients[d].wire == [] && d !in y'.lost
      {
        if d != c {
          WaiterKept(y, e, s', c, p, d);
        } else {
          assert Waits(s', c, p) && !Waits(y.store, c, p);
        }
      }
    }
  }

  /** A client whose request has not been handled waits for no lock. */
  lemma SenderIsFree(y: System, e: Event, s': Store, c: Fd)
    requires SysInv(y) && c in y.clients && y.clients[c].phase.Asked?
    ensures forall p :: !Waits(y.store, c, p)
    ensures c !in y.lost && c !in Orphans(y.store, s')
  {
    forall p
      ensures !Waits(y.store, c, p)
    {
      if Waits(y.store, c, p) {
        WaiterIsLocking(y, c, p);
      }
    }
    if c in Orphans(y.store, s') {
      OrphanWaited(y.store, s', c);
    }
    assert ClientOk(y.store, y.lost, c, y.clients[c]);
  }

  lemma LostStaysConnected(y: System, s': Store)
    requires SysInv(y)
    ensures Orphans(y.store, s') <= y.clients.Keys
  {
    forall d | d in Orphans(y.store, s')
      ensures d in y.clients
    {
      OrphanWaited(y.store, s', d);
      var p :| Waits(y.store, d, p);
      WaiterIsLocking(y, d, p);
    }
  }

  /** A server step for c keeps everything, given that it leaves c itself in order. */
  lemma RanInv(y: System, c: Fd, e: Event, k': Client)
    requires SysInv(y) && c in y.clients && y.clients[c].phase.Asked?
    requires !e.LockPass? && e.c == c && Apply(y.store, e, AsMeant).Done?
    requires var s' := Apply(y.store, e, AsMeant).store;
             && ClientOk(s', y.lost + Orphans(y.store, s'), c, k')
             && forall p :: Waits(s', c, p) ==> Locking(k', c, p) && k'.wire == []
    ensures SysInv(Ran(y, c, e, k', AsMeant))
  {
    var s' := Apply(y.store, e, AsMeant).store;
    var y' := Ran(y, c, e, k', AsMeant);
    StepOfApply(y.store, e, c);
    LostStaysConnected(y, s');
    forall d | d in y'.clients
      ensures ClientOk(y'.store, y'.lost, d, y'.clients[d])
    {
      if d != c {
        OtherClientOk(y, e, s', c, d);
      }
    }
    forall p | p in s'.files
      ensures FileUsers(y', p)
    {
      FileUsersKept(y, e, s', c, k', p);
    }
  }

  /** The client's own step: what it may now own is covered, and it waits nowhere unless it asked to. */
  lemma OwnStep(s: Store, e: Event, s': Store, c: Fd)
    requires StepOf(s, e, s', c) && forall p :: !Waits(s, c, p)
    ensures forall p :: Owns(s', c, p) ==> Owns(s, c, p) || ((e.LockOnOpen? || e.Lock?) && p == e.p)
    ensures forall p :: Waits(s', c, p) ==> e.Lock? && p == e.p
  {
    forall p
      ensures Owns(s', c, p) ==> Owns(s, c, p) || ((e.LockOnOpen? || e.Lock?) && p == e.p)
      ensures Waits(s', c, p) ==> e.Lock? && p == e.p
    {
      assert Lawful(s, e, s', p) && !Waits(s, c, p);
    }
  }

  lemma OpenStepInv(y: System, c: Fd)
    requires SysInv(y) && Enabled(y, OpenStep(c), AsMeant)
    ensures SysInv(Next(y, OpenStep(c), AsMeant))
  {
    var k := y.clients[c];
    var e := NextOpenEvent(c, k);
    var o := Apply(y.store, e, AsMeant);
    var k' := Next(y, OpenStep(c), AsMeant).clients[c];
    assert ClientOk(y.store, y.lost, c, k);
    StepOfApply(y.store, e, c);
    SenderIsFree(y, e, o.store, c);
    OwnStep(y.store, e, o.store, c);
    forall p | Owns(o.store, c, p)
      ensures Covered(k', p)
    {
      if Owns(y.store, c, p) {
        assert Covered(k, p);
      }
    }
    RanInv(y, c, e, k');
  }

  lemma {:induction false} RemoveAllKeeps(mirror: seq<Path>, gone: seq<Path>, p: Path)
    requires p in mirror && p !in gone
    ensures p in RemoveAll(mirror, gone)
    decreases gone
  {
    if gone == [] {
    } else {
      RemoveFirstKeeps(mirror, gone[0], p);
      RemoveAllKeeps(RemoveFirst(mirror, gone[0]), gone[1..], p);
    }
  }

  /** Every path the write handler reports as expelled is gone from the table. */
  lemma ExpelledAreGone(s: Store, e: Event, p: Path)
    requires Inv(s) && e.Write? && Apply(s, e, AsMeant).Done?
    requires p in Paths(Apply(s, e, AsMeant).sent)
    ensures p !in Apply(s, e, AsMeant).store.files
  {
    assert FirstWrite(s, e);
    EvictIsShortestPrefix(s, |e.body|);
    var sent := Evict(s, |e.body|, AsMeant).value.1;
    var i :| 0 <= i < |sent| && sent[i].path == p;
    assert s.fifo[i] in s.fifo[..|sent|];
    assert p in Oldest(s.fifo, |sent|) && p in s.fifo;
  }

  /** After the reply has been read, the mirror still has every path the client owns. */
  lemma ServedCovered(s: Store, e: Event, c: Fd, k: Client, p: Path)
    requires Inv(s) && Apply(s, e, AsMeant).Done?
    requires k.phase.Asked? && k.phase.request == Ask(e) && AskOk(c, k) && k.wire == []
    requires Owns(s, c, p) ==> Covered(k, p)
    requires var o := Apply(s, e, AsMeant);
             Owns(o.store, c, p) && (Owns(s, c, p) || (e.Lock? && p == e.p))
    ensures var o := Apply(s, e, AsMeant); Covered(AfterServe(k, o.status, o.sent), p)
  {
    var o := Apply(s, e, AsMeant);
    assert p in s.files && FileOk(s.files[p]);
    assert p in k.mirror;
    match e
    case Write(_, _, _) =>
      if p in Paths(o.sent) {
        ExpelledAreGone(s, e, p);
      }
      RemoveAllKeeps(k.mirror, Paths(o.sent), p);
    case Remove(_, q) =>
      if o.status == Success {
        assert q !in o.store.files;
        RemoveFirstKeeps(k.mirror, q, p);
      }
    case _ =>
  }

  /** A lock request that got no reply is queued on its file; every other request got one reply. */
  lemma ServedReplyOk(s: Store, lost: set<Fd>, e: Event, c: Fd, k: Client)
    requires Inv(s) && Apply(s, e, AsMeant).Done? && c !in lost
    requires k.phase.Asked? && k.phase.request == Ask(e) && AskOk(c, k) && k.wire == []
    requires forall p :: !Waits(s, c, p)
    requires forall p :: Waits(Apply(s, e, AsMeant).store, c, p) ==> e.Lock? && p == e.p
    ensures var o := Apply(s, e, AsMeant);
            var k' := AfterServe(k, o.status, o.sent);
            && ReplyOk(o.store, lost, c, k')
            && forall p :: Waits(o.store, c, p) ==> Locking(k', c, p) && k'.wire == []
  {
    if e.Lock? {
      assert !Waits(s, c, e.p);
    }
  }

  lemma ServeInv(y: System, c: Fd)
    requires SysInv(y) && Enabled(y, Serve(c), AsMeant)
    ensures SysInv(Next(y, Serve(c), AsMeant))
  {
    var k := y.clients[c];
    var e := k.phase.request.e;
    var o := Apply(y.store, e, AsMeant);
    var k' := AfterServe(k, o.status, o.sent);
    assert ClientOk(y.store, y.lost, c, k);
    StepOfApply(y.store, e, c);
    SenderIsFree(y, e, o.store, c);
    OwnStep(y.store, e, o.store, c);
    ServedReplyOk(y.store, y.lost + Orphans(y.store, o.store), e, c, k);
    forall p | Owns(o.store, c, p)
      ensures Covered(k', p)
    {
      ServedCovered(y.store, e, c, k, p);
    }
    RanInv(y, c, e, k');
  }

  /** The pass gives file p of the queue to its head waiter. */
  ghost predicate Granting(files: map<Path, File>, p: Path, c: Fd)
  {
    p in files && Grantable(files[p]) && files[p].waiters[0] == c
  }

  lemma {:induction false} NoGrantNoReply(files: map<Path, File>, q: seq<Path>, c: Fd)
    requires forall p :: p in q ==> p in files && !Granting(files, p, c)
    ensures RepliesTo(Grants(files, q), c) == []
  {
    if q == [] {
    } else {
      assert q[0] in q;
      NoGrantNoReply(files, q[1..], c);
    }
  }

  /** A client that one file of the queue is granted to gets exactly one reply. */
  lemma {:induction false} OneGrantOneReply(files: map<Path, File>, q: seq<Path>, c: Fd, p: Path)
    requires NoDup(q) && (forall r :: r in q ==> r in files) && p in q && Granting(files, p, c)
    requires forall r :: r in q && r != p ==> !Granting(files, r, c)
    ensures RepliesTo(Grants(files, q), c) == [Reply(Success, [])]
  {
    assert q[0] in q && q == [q[0]] + q[1..];
    if q[0] == p {
      NoGrantNoReply(files, q[1..], c);
    } else {
      OneGrantOneReply(files, q[1..], c, p);
    }
  }

  ghost function AfterPass(y: System, c: Fd): Client
    requires QueueOk(y.store) && c in y.clients
  {
    assert forall p :: p in y.store.fifo ==> Written(y.store, p);
    var grants := Grants(y.store.files, y.store.fifo);
    y.clients[c].(wire := y.clients[c].wire + RepliesTo(grants, c))
  }

  /** Who owns and who waits after a pass: only clients that were granted a file see a change. */
  lemma PassUsers(s: Store, c: Fd, p: Path)
    requires Inv(s) && p in s.files && NoDup(s.files[p].waiters)
    ensures var g := p in s.fifo && Granting(s.files, p, c);
            && (Owns(LockManagerPass(s), c, p) <==> Owns(s, c, p) || g)
            && (Waits(LockManagerPass(s), c, p) <==> Waits(s, c, p) && !g)
  {
    var f := s.files[p];
    assert FileOk(f);
    assert f.waiters != [] ==> f.waiters == [f.waiters[0]] + f.waiters[1..];
  }

  lemma PassUsersAll(y: System, c: Fd)
    requires SysInv(y)
    ensures forall p :: Owns(LockManagerPass(y.store), c, p) <==>
                          Owns(y.store, c, p) || (p in y.store.fifo && Granting(y.store.files, p, c))
    ensures forall p :: Waits(LockManagerPass(y.store), c, p) <==>
                          Waits(y.store, c, p) && !(p in y.store.fifo && Granting(y.store.files, p, c))
  {
    forall p | p in y.store.files
      ensures NoDup(y.store.files[p].waiters)
    {
      assert FileUsers(y, p);
    }
    forall p
      ensures Owns(LockManagerPass(y.store), c, p) <==>
                Owns(y.store, c, p) || (p in y.store.fifo && Granting(y.store.files, p, c))
      ensures Waits(LockManagerPass(y.store), c, p) <==>
                Waits(y.store, c, p) && !(p in y.store.fifo && Granting(y.store.files, p, c))
    {
      if p in y.store.files {
        PassUsers(y.store, c, p);
      }
    }
  }

  /** A client granted a file was waiting for that file only. */
  lemma GrantedOnce(y: System, c: Fd, p: Path)
    requires SysInv(y) && c in y.clients && p in y.store.fifo && Granting(y.store.files, p, c)
    ensures Locking(y.clients[c], c, p) && y.clients[c].wire == [] && c !in y.lost
    ensures forall q :: Waits(y.store, c, q) ==> q == p
    ensures forall q :: Granting(y.store.files, q, c) ==> q == p
  {
    assert Waits(y.store, c, p);
    WaiterIsLocking(y, c, p);
    forall q | Waits(y.store, c, q)
      ensures q == p
    {
      WaiterIsLocking(y, c, q);
    }
    assert forall q :: Granting(y.store.files, q, c) ==> Waits(y.store, c, q);
  }

  lemma GrantedClientOk(y: System, c: Fd, p: Path)
    requires SysInv(y) && c in y.clients && p in y.store.fifo && Granting(y.store.files, p, c)
    ensures ClientOk(LockManagerPass(y.store), y.lost, c, AfterPass(y, c))
  {
    assert forall q :: q in y.store.fifo ==> Written(y.store, q);
    assert ClientOk(y.store, y.lost, c, y.clients[c]);
    GrantedOnce(y, c, p);
    OneGrantOneReply(y.store.files, y.store.fifo, c, p);
    GrantedOwns(y, c, p);
    AnsweredClientOk(LockManagerPass(y.store), y.lost, c, AfterPass(y, c), p);
  }

  lemma AnsweredClientOk(s: Store, lost: set<Fd>, c: Fd, k: Client, p: Path)
    requires Locking(k, c, p) && k.wire == [Reply(Success, [])] && p in k.mirror && c !in lost
    requires forall q :: Owns(s, c, q) ==> q in k.mirror
    requires forall q :: !Waits(s, c, q)
    ensures ClientOk(s, lost, c, k)
  {
  }

  /** After the grant the client waits nowhere, and its mirror has what it owns. */
  lemma GrantedOwns(y: System, c: Fd, p: Path)
    requires SysInv(y) && c in y.clients && p in y.store.fifo && Granting(y.store.files, p, c)
    ensures forall q :: Owns(LockManagerPass(y.store), c, q) ==> q in y.clients[c].mirror
    ensures forall q :: !Waits(LockManagerPass(y.store), c, q)
  {
    var k := y.clients[c];
    assert ClientOk(y.store, y.lost, c, k);
    GrantedOnce(y, c, p);
    PassUsersAll(y, c);
    forall q | Owns(LockManagerPass(y.store), c, q)
      ensures q in k.mirror
    {
      assert Owns(y.store, c, q) ==> Covered(k, q);
    }
  }

  lemma UngrantedClientOk(y: System, c: Fd)
    requires SysInv(y) && c in y.clients
    requires forall p :: p in y.store.fifo ==> p in y.store.files && !Granting(y.store.files, p, c)
    ensures ClientOk(LockManagerPass(y.store), y.lost, c, AfterPass(y, c))
  {
    var s, k := y.store, y.clients[c];
    assert ClientOk(s, y.lost, c, k);
    NoGrantNoReply(s.files, s.fifo, c);
    PassUsersAll(y, c);
  }

  /** What a pass does for one client: it stays as it is, or its one queued request is answered. */
  lemma PassClientOk(y: System, c: Fd)
    requires SysInv(y) && c in y.clients
    ensures ClientOk(LockManagerPass(y.store), y.lost, c, AfterPass(y, c))
  {
    assert forall p :: p in y.store.fifo ==> p in y.store.files;
    if p :| p in y.store.fifo && Granting(y.store.files, p, c) {
      GrantedClientOk(y, c, p);
    } else {
      UngrantedClientOk(y, c);
    }
  }

  /** Whoever still waits after a pass got no reply from it. */
  lemma StillWaiting(y: System, p: Path, c: Fd)
    requires SysInv(y) && Waits(LockManagerPass(y.store), c, p)
    ensures Waits(y.store, c, p) && LockManagerPass(y.store).files[p].owner != c
    ensures c in y.clients && AfterPass(y, c) == y.clients[c]
    ensures Locking(y.clients[c], c, p) && y.clients[c].wire == [] && c !in y.lost
  {
    PassUsersAll(y, c);
    WaiterIsLocking(y, c, p);
    assert FileUsers(y, p) && !Owns(y.store, c, p) && !Owns(LockManagerPass(y.store), c, p);
    forall q | q in y.store.fifo
      ensures q in y.store.files && !Granting(y.store.files, q, c)
    {
      if q in y.store.files && Granting(y.store.files, q, c) {
        GrantedOnce(y, c, q);
      }
    }
    NoGrantNoReply(y.store.files, y.store.fifo, c);
  }

  lemma GrantUsers(f: File)
    requires NoDup(f.waiters)
    ensures NoDup(Grant(f).waiters) && (Grant(f).owner == f.owner || Grant(f).owner in f.waiters)
  {
  }

  lemma PassFileUsers(y: System, y': System, p: Path)
    requires SysInv(y) && p in y.store.files && y'.lost == y.lost && y'.store == LockManagerPass(y.store)
    requires y'.clients.Keys == y.clients.Keys && forall c :: c in y.clients ==> y'.clients[c] == AfterPass(y, c)
    ensures FileUsers(y', p)
  {
    assert FileUsers(y, p);
    GrantUsers(y.store.files[p]);
    forall c | c in y'.store.files[p].waiters
      ensures y'.store.files[p].owner != c && c in y'.clients && Locking(y'.clients[c], c, p)
      ensures y'.clients[c].wire == [] && c !in y'.lost
    {
      StillWaiting(y, p, c);
    }
  }

  lemma PassKeepsInv(s: Store)
    requires Inv(s)
    ensures Inv(LockManagerPass(s))
  {
    StepInv(s, LockPass);
    assert Apply(s, LockPass, AsMeant).store == LockManagerPass(s);
  }

  lemma PassInv(y: System)
    requires SysInv(y)
    ensures SysInv(Next(y, Pass, AsMeant))
  {
    PassKeepsInv(y.store);
    var y' := Next(y, Pass, AsMeant);
    forall p | p in y'.store.files
      ensures FileUsers(y', p)
    {
      PassFileUsers(y, y', p);
    }
    forall c | c in y'.clients
      ensures ClientOk(y'.store, y'.lost, c, y'.clients[c])
    {
      PassClientOk(y, c);
    }
  }

  /** A client that is neither in a call nor lost, and owns only what its mirror holds. */
  lemma ClientStepInv(y: System, c: Fd, k': Client)
    requires SysInv(y)
    requires c in y.clients ==> forall p :: !Waits(y.store, c, p)
    requires ClientOk(y.store, y.lost, c, k')
    ensures SysInv(y.(clients := y.clients[c := k']))
  {
    var y' := y.(clients := y.clients[c := k']);
    forall p | p in y.store.files
      ensures FileUsers(y', p)
    {
      assert FileUsers(y, p);
      assert c in y.store.files[p].waiters ==> Waits(y.store, c, p);
    }
  }

  /** A client without a queued request waits nowhere. */
  lemma NotQueued(y: System, c: Fd)
    requires SysInv(y) && c in y.clients && (y.clients[c].phase == Idle || y.clients[c].wire != [])
    ensures forall p :: !Waits(y.store, c, p)
  {
    forall p
      ensures !Waits(y.store, c, p)
    {
      if Waits(y.store, c, p) {
        WaiterIsLocking(y, c, p);
      }
    }
  }

  /** A descriptor that is not connected owns nothing and waits for nothing. */
  lemma Stranger(y: System, c: Fd)
    requires SysInv(y) && c !in y.clients
    ensures forall p :: !Owns(y.store, c, p) && !Waits(y.store, c, p)
    ensures c !in y.lost
  {
    forall p
      ensures !Owns(y.store, c, p) && !Waits(y.store, c, p)
    {
      if p in y.store.files {
        assert FileUsers(y, p);
      }
    }
  }

  /** When a client has closed every file of its mirror, nothing stored is locked or awaited by it. */
  lemma ClosedOwnsNothing(y: System, c: Fd)
    requires SysInv(y) && Enabled(y, Disconnect(c), AsMeant)
    ensures forall p :: !Owns(y.store, c, p) && !Waits(y.store, c, p)
    ensures c !in y.lost
  {
    NotQueued(y, c);
    assert ClientOk(y.store, y.lost, c, y.clients[c]);
    forall p
      ensures !Owns(y.store, c, p)
    {
      assert Owns(y.store, c, p) ==> Covered(y.clients[c], p);
    }
  }

  lemma DisconnectInv(y: System, c: Fd)
    requires SysInv(y) && Enabled(y, Disconnect(c), AsMeant)
    ensures SysInv(Next(y, Disconnect(c), AsMeant))
  {
    var y' := Next(y, Disconnect(c), AsMeant);
    ClosedOwnsNothing(y, c);
    forall p | p in y.store.files
      ensures FileUsers(y', p)
    {
      assert FileUsers(y, p) && !Owns(y.store, c, p) && !Waits(y.store, c, p);
    }
  }

  lemma ReceiveInv(y: System, c: Fd)
    requires SysInv(y) && Enabled(y, Receive(c), AsMeant)
    ensures SysInv(Next(y, Receive(c), AsMeant))
  {
    NotQueued(y, c);
    assert ClientOk(y.store, y.lost, c, y.clients[c]);
    ClientStepInv(y, c, Next(y, Receive(c), AsMeant).clients[c]);
  }

  /** Starting a call or the closing takes no file out of sight. */
  lemma IdleCovered(y: System, a: Act, p: Path)
    requires (a.Send? || a.BeginClose? || a.CloseNext?) && Enabled(y, a, AsMeant) && p in y.clients[a.c].mirror
    ensures Covered(Next(y, a, AsMeant).clients[a.c], p)
  {
    var k := y.clients[a.c];
    assert a.CloseNext? ==> k.mirror == [k.mirror[0]] + k.mirror[1..];
  }

  lemma IdleStepInv(y: System, a: Act)
    requires SysInv(y) && (a.Send? || a.BeginClose? || a.CloseNext?) && Enabled(y, a, AsMeant)
    ensures SysInv(Next(y, a, AsMeant))
  {
    var k := y.clients[a.c];
    NotQueued(y, a.c);
    assert ClientOk(y.store, y.lost, a.c, k);
    forall p | Owns(y.store, a.c, p)
      ensures Covered(Next(y, a, AsMeant).clients[a.c], p)
    {
      assert Covered(k, p);
      IdleCovered(y, a, p);
    }
    ClientStepInv(y, a.c, Next(y, a, AsMeant).clients[a.c]);
  }

  /** Every act of every client, handler and pass keeps the whole picture. */
  lemma NextInv(y: System, a: Act)
    requires SysInv(y) && Enabled(y, a, AsMeant)
    ensures SysInv(Next(y, a, AsMeant))
  {
    match a
    case Connect(c) =>
      Stranger(y, c);
      ClientStepInv(y, c, Client([], false, Idle, []));
    case OpenStep(c) => OpenStepInv(y, c);
    case Serve(c) => ServeInv(y, c);
    case Pass => PassInv(y);
    case Receive(c) => ReceiveInv(y, c);
    case Disconnect(c) => DisconnectInv(y, c);
    case _ => IdleStepInv(y, a);
  }

  ghost predicate IsSession(ys: seq<System>, acts: seq<Act>, r: Reading)
  {
    && |ys| == |acts| + 1
    && forall i {:trigger acts[i]} :: 0 <= i < |acts| ==>
         Enabled(ys[i], acts[i], r) && ys[i + 1] == Next(ys[i], acts[i], r)
  }

  function Start(maxSize: nat, maxFiles: nat): System
  {
    System(Empty(maxSize, maxFiles), map[], {})
  }

  lemma {:induction false} SessionInv(ys: seq<System>, acts: seq<Act>, maxSize: nat, maxFiles: nat, i: nat)
    requires IsSession(ys, acts, AsMeant) && ys[0] == Start(maxSize, maxFiles) && i < |ys|
    ensures SysInv(ys[i])
  {
    if i == 0 {
    } else {
      SessionInv(ys, acts, maxSize, maxFiles, i - 1);
      NextInv(ys[i - 1], acts[i - 1]);
    }
  }

  /** In every state of every session: whatever the server records as locked by c is in c's mirror,
      or is the subject of the call c is in. */
  lemma OwnedIsMirrored(ys: seq<System>, acts: seq<Act>, maxSize: nat, maxFiles: nat, i: nat, c: Fd, p: Path)
    requires IsSession(ys, acts, AsMeant) && ys[0] == Start(maxSize, maxFiles) && i < |ys|
    requires Owns(ys[i].store, c, p)
    ensures c in ys[i].clients
    ensures var k := ys[i].clients[c];
            p in k.mirror || (k.phase != Idle && (k.phase.request == Open(p) || k.phase.request == Ask(Close(c, p))))
  {
    SessionInv(ys, acts, maxSize, maxFiles, i);
    assert FileUsers(ys[i], p);
    var k := ys[i].clients[c];
    assert ClientOk(ys[i].store, ys[i].lost, c, k) && Covered(k, p);
    if k.phase.Handled? && k.wire != [] {
      MirrorAfterAddsSubject(k.mirror, k.phase.request, k.wire[0], p);
    }
  }

  lemma MirrorAfterAddsSubject(mirror: seq<Path>, q: Request, reply: Reply, p: Path)
    requires p in MirrorAfter(mirror, q, reply)
    ensures p in mirror || q == Open(p)
  {
    if q.Ask? && q.e.Remove? && reply.status == Success {
      RemoveFirstIn(mirror, q.e.p, p);
    } else if q.Ask? && q.e.Write? {
      RemoveAllIn(mirror, reply.expelled, p);
    }
  }

  lemma {:induction false} RemoveFirstIn(mirror: seq<Path>, x: Path, p: Path)
    requires p in RemoveFirst(mirror, x)
    ensures p in mirror
  {
    if mirror == [] {
    } else if mirror[0] != x && p != mirror[0] {
      RemoveFirstIn(mirror[1..], x, p);
    }
  }

  lemma {:induction false} RemoveAllIn(mirror: seq<Path>, gone: seq<Path>, p: Path)
    requires p in RemoveAll(mirror, gone)
    ensures p in mirror
    decreases gone
  {
    if gone == [] {
    } else {
      RemoveAllIn(RemoveFirst(mirror, gone[0]), gone[1..], p);
      RemoveFirstIn(mirror, gone[0], p);
    }
  }

  /** A descriptor that is connected, or connected again, starts with no locks and no place in any queue. */
  lemma ConnectsClean(ys: seq<System>, acts: seq<Act>, maxSize: nat, maxFiles: nat, i: nat)
    requires IsSession(ys, acts, AsMeant) && ys[0] == Start(maxSize, maxFiles) && i < |acts|
    requires acts[i].Connect? || acts[i].Disconnect?
    ensures forall p :: !Owns(ys[i].store, acts[i].c, p) && !Waits(ys[i].store, acts[i].c, p)
  {
    SessionInv(ys, acts, maxSize, maxFiles, i);
    if acts[i].Connect? {
      Stranger(ys[i], acts[i].c);
    } else {
      ClosedOwnsNothing(ys[i], acts[i].c);
    }
  }

  /** Every lock request is accounted for in every state of every session: unhandled, or answered by
      one reply, or queued on its file and on no other, or lost with its file. No client waits for a
      file it owns, and no reply goes to a client that is not waiting for one. */
  lemma LockRequestsAccountedFor(ys: seq<System>, acts: seq<Act>, maxSize: nat, maxFiles: nat, i: nat, c: Fd, p: Path)
    requires IsSession(ys, acts, AsMeant) && ys[0] == Start(maxSize, maxFiles) && i < |ys| && c in ys[i].clients
    ensures var k, s := ys[i].clients[c], ys[i].store;
            && |k.wire| <= 1 && (k.wire != [] ==> k.phase.Handled?)
            && (Waits(s, c, p) ==> Locking(k, c, p) && !Owns(s, c, p) && multiset(s.files[p].waiters)[c] == 1)
            && (Locking(k, c, p) ==>
                  || (|k.wire| == 1 && !Waits(s, c, p) && c !in ys[i].lost)
                  || (k.wire == [] && Waits(s, c, p) && c !in ys[i].lost)
                  || (k.wire == [] && !Waits(s, c, p) && c in ys[i].lost))
  {
    SessionInv(ys, acts, maxSize, maxFiles, i);
    assert ClientOk(ys[i].store, ys[i].lost, c, ys[i].clients[c]);
    if Waits(ys[i].store, c, p) {
      assert FileUsers(ys[i], p);
      NoDupCountsOne(ys[i].store.files[p].waiters, c);
    }
  }

  lemma {:induction false} NoDupCountsOne<T>(q: seq<T>, x: T)
    requires NoDup(q)
    ensures multiset(q)[x] == if x in q then 1 else 0
  {
    if q == [] {
    } else {
      assert q == [q[0]] + q[1..];
      NoDupCountsOne(q[1..], x);
    }
  }

  /** A lock request is lost exactly when the file it is queued on leaves the storage. */
  lemma LostWithItsFile(y: System, a: Act, c: Fd)
    requires SysInv(y) && Enabled(y, a, AsMeant) && c !in y.lost
    ensures c in Next(y, a, AsMeant).lost <==> exists p :: Waits(y.store, c, p) && p !in Next(y, a, AsMeant).store.files
  {
    var s' := Next(y, a, AsMeant).store;
    if p :| Waits(y.store, c, p) && p !in s'.files {
      assert c in Orphans(y.store, s');
    }
    if c in Orphans(y.store, s') {
      OrphanWaited(y.store, s', c);
    }
  }

  /** No act of anybody moves a client whose lock request is lost. */
  lemma LostStep(y: System, a: Act, c: Fd)
    requires SysInv(y) && Enabled(y, a, AsMeant) && c in y.lost
    ensures c in y.clients && y.clients[c].phase.Handled? && y.clients[c].wire == []
    ensures var y' := Next(y, a, AsMeant);
            c in y'.lost && c in y'.clients && y'.clients[c] == y.clients[c]
  {
    assert ClientOk(y.store, y.lost, c, y.clients[c]);
    if a.Pass? {
      assert forall p :: p in y.store.fifo ==> Written(y.store, p);
      forall p | p in y.store.fifo
        ensures !Granting(y.store.files, p, c)
      {
        if Granting(y.store.files, p, c) {
          WaiterIsLocking(y, c, p);
        }
      }
      NoGrantNoReply(y.store.files, y.store.fifo, c);
    }
  }

  /** At step k the file that c was waiting for left the storage. */
  ghost predicate Orphaned(ys: seq<System>, k: nat, c: Fd)
    requires k + 1 < |ys|
  {
    exists p :: Waits(ys[k].store, c, p) && p !in ys[k + 1].store.files
  }

  lemma LostAt(ys: seq<System>, acts: seq<Act>, maxSize: nat, maxFiles: nat, k: nat, c: Fd)
    requires IsSession(ys, acts, AsMeant) && ys[0] == Start(maxSize, maxFiles) && k < |acts|
    ensures c in ys[k + 1].lost <==> c in ys[k].lost || Orphaned(ys, k, c)
    ensures c in ys[k].lost ==>
              c in ys[k].clients && c in ys[k + 1].clients && ys[k + 1].clients[c] == ys[k].clients[c]
  {
    SessionInv(ys, acts, maxSize, maxFiles, k);
    var y, a := ys[k], acts[k];
    assert Enabled(y, a, AsMeant) && ys[k + 1] == Next(y, a, AsMeant);
    if c in y.lost {
      LostStep(y, a, c);
    } else {
      LostWithItsFile(y, a, c);
    }
  }

  /** It is in a call, with no reply on the wire: it can neither send nor receive. */
  ghost predicate Blocked(y: System, c: Fd)
  {
    c in y.clients && y.clients[c].phase.Handled? && y.clients[c].wire == []
  }

  lemma LostIsBlocked(ys: seq<System>, acts: seq<Act>, maxSize: nat, maxFiles: nat, i: nat, c: Fd)
    requires IsSession(ys, acts, AsMeant) && ys[0] == Start(maxSize, maxFiles) && i < |ys| && c in ys[i].lost
    ensures Blocked(ys[i], c)
  {
    SessionInv(ys, acts, maxSize, maxFiles, i);
    assert ClientOk(ys[i].store, ys[i].lost, c, ys[i].clients[c]);
  }

  /** A client whose lock request was lost blocks for ever: whatever happens after, it never gets a
      reply and nothing about it changes. */
  lemma {:induction false} LostForEver(
      ys: seq<System>, acts: seq<Act>, maxSize: nat, maxFiles: nat, i: nat, j: nat, c: Fd)
    requires IsSession(ys, acts, AsMeant) && ys[0] == Start(maxSize, maxFiles) && i <= j < |ys| && c in ys[i].lost
    ensures c in ys[j].lost && Blocked(ys[i], c) && Blocked(ys[j], c) && ys[j].clients[c] == ys[i].clients[c]
    decreases j
  {
    LostIsBlocked(ys, acts, maxSize, maxFiles, i, c);
    if i < j {
      LostForEver(ys, acts, maxSize, maxFiles, i, j - 1, c);
      LostAt(ys, acts, maxSize, maxFiles, j - 1, c);
    }
  }

  /** The history of lost: whoever was waiting for a file when it was removed or evicted. */
  lemma {:induction false} LostIff(ys: seq<System>, acts: seq<Act>, maxSize: nat, maxFiles: nat, i: nat, c: Fd)
    requires IsSession(ys, acts, AsMeant) && ys[0] == Start(maxSize, maxFiles) && i < |ys|
    ensures c in ys[i].lost <==> exists k :: 0 <= k < i && Orphaned(ys, k, c)
  {
    if i == 0 {
    } else {
      LostIff(ys, acts, maxSize, maxFiles, i - 1, c);
      LostAt(ys, acts, maxSize, maxFiles, i - 1, c);
    }
  }
}
