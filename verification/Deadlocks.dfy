/** Clients of the lock protocol that block for ever: those whose request was lost, and those that
    wait for each other. */
module Deadlocks {
  import opened Basics
  import opened FileStore
  import opened Accounts
  import opened Laws
  import opened Sessions
  import opened SessionProofs

  /** Each of them has lost its lock request, or waits for a file that one of them owns. */
  ghost predicate Deadlocked(y: System, ds: set<Fd>)
  {
    forall c :: c in ds ==> c in y.clients && (c in y.lost || exists p, d :: Held(y, ds, c, p, d))
  }

  ghost predicate Held(y: System, ds: set<Fd>, c: Fd, p: Path, d: Fd)
  {
    d in ds && Waits(y.store, c, p) && Owns(y.store, d, p)
  }

  lemma DeadlockedIsBlocked(y: System, ds: set<Fd>, c: Fd)
    requires SysInv(y) && Deadlocked(y, ds) && c in ds
    ensures Blocked(y, c)
  {
    assert ClientOk(y.store, y.lost, c, y.clients[c]);
    if c !in y.lost {
      var p, d :| Held(y, ds, c, p, d);
      WaiterIsLocking(y, c, p);
    }
  }

  /** A handler serving another client leaves c waiting for the same file of the same owner, or takes
      the file away from both. */
  lemma HeldServed(y: System, ds: set<Fd>, c: Fd, p: Path, d: Fd, b: Fd, e: Event, k: Client)
    requires SysInv(y) && Held(y, ds, c, p, d) && b !in ds && c in ds
    requires !e.LockPass? && e.c == b && Apply(y.store, e, AsMeant).Done?
    ensures var y' := Ran(y, b, e, k, AsMeant);
            c in y'.lost || Held(y', ds, c, p, d)
  {
    var s' := Apply(y.store, e, AsMeant).store;
    StepOfApply(y.store, e, b);
    assert Lawful(y.store, e, s', p);
    if p in s'.files {
      OthersGainNothing(y.store, e, s', b, c);
    } else {
      assert c in Orphans(y.store, s');
    }
  }

  lemma DeadlockServed(y: System, ds: set<Fd>, b: Fd, e: Event, k: Client)
    requires SysInv(y) && Deadlocked(y, ds) && b !in ds && b in y.clients
    requires !e.LockPass? && e.c == b && Apply(y.store, e, AsMeant).Done?
    ensures Deadlocked(Ran(y, b, e, k, AsMeant), ds)
  {
    var y' := Ran(y, b, e, k, AsMeant);
    forall c | c in ds
      ensures c in y'.clients && (c in y'.lost || exists p, d :: Held(y', ds, c, p, d))
    {
      if c !in y.lost {
        var p, d :| Held(y, ds, c, p, d);
        HeldServed(y, ds, c, p, d, b, e, k);
      }
    }
  }

  /** No pass gives a locked file away, and so it answers none of them. */
  lemma HeldPassed(y: System, ds: set<Fd>, c: Fd, p: Path, d: Fd)
    requires SysInv(y) && Held(y, ds, c, p, d) && c in y.clients
    ensures Waits(LockManagerPass(y.store), c, p) && Owns(LockManagerPass(y.store), d, p)
    ensures AfterPass(y, c) == y.clients[c]
  {
    assert FileOk(y.store.files[p]);
    PassUsersAll(y, c);
    PassUsersAll(y, d);
    StillWaiting(y, p, c);
  }

  lemma DeadlockPassed(y: System, ds: set<Fd>)
    requires SysInv(y) && Deadlocked(y, ds)
    ensures Deadlocked(Next(y, Pass, AsMeant), ds)
    ensures forall c :: c in ds ==> Next(y, Pass, AsMeant).clients[c] == y.clients[c]
  {
    var y' := Next(y, Pass, AsMeant);
    forall c | c in ds
      ensures y'.clients[c] == y.clients[c]
      ensures c in y'.clients && (c in y'.lost || exists p, d :: Held(y', ds, c, p, d))
    {
      if c in y.lost {
        LostStep(y, Pass, c);
      } else {
        var p, d :| Held(y, ds, c, p, d);
        HeldPassed(y, ds, c, p, d);
        assert Held(y', ds, c, p, d);
      }
    }
  }

  /** No act of anybody frees one of them. */
  lemma DeadlockStep(y: System, a: Act, ds: set<Fd>)
    requires SysInv(y) && Deadlocked(y, ds) && Enabled(y, a, AsMeant)
    ensures Deadlocked(Next(y, a, AsMeant), ds)
    ensures forall c :: c in ds ==> Next(y, a, AsMeant).clients[c] == y.clients[c]
  {
    forall c | c in ds
      ensures Blocked(y, c)
    {
      DeadlockedIsBlocked(y, ds, c);
    }
    if a.Pass? {
      DeadlockPassed(y, ds);
    } else {
      assert a.c !in ds;
      OtherAct(y, a, ds);
    }
  }

  lemma OtherAct(y: System, a: Act, ds: set<Fd>)
    requires SysInv(y) && Deadlocked(y, ds) && Enabled(y, a, AsMeant) && !a.Pass? && a.c !in ds
    ensures Deadlocked(Next(y, a, AsMeant), ds)
    ensures forall c :: c in ds ==> Next(y, a, AsMeant).clients[c] == y.clients[c]
  {
    var y', b := Next(y, a, AsMeant), a.c;
    if a.OpenStep? {
      DeadlockServed(y, ds, b, NextOpenEvent(b, y.clients[b]), y'.clients[b]);
    } else if a.Serve? {
      assert ClientOk(y.store, y.lost, b, y.clients[b]);
      DeadlockServed(y, ds, b, y.clients[b].phase.request.e, y'.clients[b]);
    } else {
      SameStore(y, y', ds);
    }
  }

  lemma SameStore(y: System, y': System, ds: set<Fd>)
    requires Deadlocked(y, ds) && y'.store == y.store && y'.lost == y.lost
    requires forall c :: c in ds ==> c in y'.clients
    ensures Deadlocked(y', ds)
  {
    forall c | c in ds && c !in y.lost
      ensures exists p, d :: Held(y', ds, c, p, d)
    {
      var p, d :| Held(y, ds, c, p, d);
      assert Held(y', ds, c, p, d);
    }
  }

  /** Once deadlocked, blocked for ever: over any rest of any session none of them gets a reply, takes
      a step or changes at all, even when the files they wait for are evicted. */
  lemma {:induction false} DeadlockForEver(
      ys: seq<System>, acts: seq<Act>, maxSize: nat, maxFiles: nat, i: nat, j: nat, ds: set<Fd>)
    requires IsSession(ys, acts, AsMeant) && ys[0] == Start(maxSize, maxFiles) && i <= j < |ys|
    requires Deadlocked(ys[i], ds)
    ensures Deadlocked(ys[j], ds)
    ensures forall c :: c in ds ==> Blocked(ys[j], c) && ys[j].clients[c] == ys[i].clients[c]
    decreases j
  {
    if i < j {
      DeadlockForEver(ys, acts, maxSize, maxFiles, i, j - 1, ds);
      SessionInv(ys, acts, maxSize, maxFiles, j - 1);
      assert Enabled(ys[j - 1], acts[j - 1], AsMeant) && ys[j] == Next(ys[j - 1], acts[j - 1], AsMeant);
      DeadlockStep(ys[j - 1], acts[j - 1], ds);
    }
    SessionInv(ys, acts, maxSize, maxFiles, j);
    forall c | c in ds
      ensures Blocked(ys[j], c)
    {
      DeadlockedIsBlocked(ys[j], ds, c);
    }
  }

  /** Client 5 holds one file and waits for another, which client 6 holds, waiting for the first. */
  function TwoClients(): System
  {
    var f, g := File(true, true, 5, 0, [], [6]), File(true, true, 6, 0, [], [5]);
    System(
      Store(10, 10, 0, 2, map[A := f, B := g], []),
      map[5 := Client([A, B], false, Handled(Ask(Lock(5, B))), []),
          6 := Client([B, A], false, Handled(Ask(Lock(6, A))), [])],
      {})
  }

  lemma TwoClientsDeadlock()
    ensures SysInv(TwoClients()) && Deadlocked(TwoClients(), {5, 6}) && TwoClients().lost == {}
  {
    var y := TwoClients();
    assert A[0] != B[0];
    TwoClientsBooks();
    forall p | p in y.store.files
      ensures FileUsers(y, p)
    {
      assert p == A || p == B;
    }
    forall c | c in y.clients
      ensures ClientOk(y.store, y.lost, c, y.clients[c])
    {
      TwoClientsOk(c);
    }
    assert Held(y, {5, 6}, 5, B, 6) && Held(y, {5, 6}, 6, A, 5);
  }

  lemma TwoClientsBooks()
    ensures Inv(TwoClients().store)
  {
    var s := TwoClients().store;
    assert A[0] != B[0];
    NoBytesAtAll(s.files);
    assert s.files.Keys == {A, B};
    assert |s.files| == |{A, B}| == 2;
  }

  lemma TwoClientsOk(c: Fd)
    requires c == 5 || c == 6
    ensures var y := TwoClients(); ClientOk(y.store, {}, c, y.clients[c])
  {
    assert A[0] != B[0];
    forall p | Owns(TwoClients().store, c, p)
      ensures p in TwoClients().clients[c].mirror
    {
      assert p == A || p == B;
    }
  }
}
