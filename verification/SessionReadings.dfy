/** The sessions of the code as written: when they are those meant, and what goes wrong otherwise. */
module SessionReadings {
  import opened Basics
  import opened HashTables
  import opened FileStore
  import opened Accounts
  import opened Collisions
  import opened Laws
  import opened Readings
  import opened Sessions
  import opened SessionProofs

  /** The step of the storage that an act runs, if it is a handler's. */
  ghost function HandlerEvent(y: System, a: Act): Option<Event>
    requires (a.OpenStep? ==> a.c in y.clients && y.clients[a.c].phase.Asked? && y.clients[a.c].phase.request.Open?)
    requires (a.Serve? ==> a.c in y.clients && y.clients[a.c].phase.Asked? && y.clients[a.c].phase.request.Ask?)
  {
    match a
    case OpenStep(c) => Some(NextOpenEvent(c, y.clients[c]))
    case Serve(c) => Some(y.clients[c].phase.request.e)
    case _ => None
  }

  /** The handler's step is one that the code handles as meant. */
  ghost predicate ActAsMeant(y: System, a: Act, r: Reading)
    requires r.AsWritten? && Enabled(y, a, r)
  {
    var e := HandlerEvent(y, a);
    e.Some? ==> AsMeantHere(y.store, e.value, r)
  }

  lemma SameAct(y: System, a: Act, r: Reading)
    requires SysInv(y) && r.AsWritten? && Enabled(y, a, r) && ActAsMeant(y, a, r)
    ensures Enabled(y, a, AsMeant) && Next(y, a, AsMeant) == Next(y, a, r)
  {
    if HandlerEvent(y, a).Some? {
      ReadingsAgreeIff(y.store, HandlerEvent(y, a).value, r);
    }
  }

  /** A session of the code as written, every step of which is one that it handles as meant. */
  ghost predicate SessionAsMeant(ys: seq<System>, acts: seq<Act>, r: Reading)
    requires r.AsWritten?
  {
    && |ys| == |acts| + 1
    && forall k {:trigger acts[k]} :: 0 <= k < |acts| ==> StepOfSession(ys[k], acts[k], ys[k + 1], r)
  }

  lemma SessionStepAt(ys: seq<System>, acts: seq<Act>, r: Reading, k: nat)
    requires r.AsWritten? && SessionAsMeant(ys, acts, r) && k < |acts| && SysInv(ys[k])
    ensures SysInv(ys[k + 1]) && MeantStep(ys[k], acts[k], ys[k + 1])
  {
    assert StepOfSession(ys[k], acts[k], ys[k + 1], r);
    SessionStep(ys[k], acts[k], ys[k + 1], r);
  }

  lemma {:induction false} SysInvAt(
      ys: seq<System>, acts: seq<Act>, maxSize: nat, maxFiles: nat, r: Reading, i: nat)
    requires r.AsWritten? && SessionAsMeant(ys, acts, r) && ys[0] == Start(maxSize, maxFiles) && i < |ys|
    ensures SysInv(ys[i])
  {
    if i == 0 {
      StartInv(maxSize, maxFiles);
    } else {
      SysInvAt(ys, acts, maxSize, maxFiles, r, i - 1);
      var y, y' := ys[i - 1], ys[i];
      IsStepOfSession(ys, acts, r, i - 1);
      SessionStep(y, acts[i - 1], y', r);
    }
  }

  lemma IsStepOfSession(ys: seq<System>, acts: seq<Act>, r: Reading, k: nat)
    requires r.AsWritten? && SessionAsMeant(ys, acts, r) && k < |acts|
    ensures StepOfSession(ys[k], acts[k], ys[k + 1], r)
  {
  }

  lemma StartInv(maxSize: nat, maxFiles: nat)
    ensures SysInv(Start(maxSize, maxFiles))
  {
  }

  ghost predicate StepOfSession(y: System, a: Act, y': System, r: Reading)
    requires r.AsWritten?
  {
    Enabled(y, a, r) && ActAsMeant(y, a, r) && y' == Next(y, a, r)
  }

  ghost predicate MeantStep(y: System, a: Act, y': System)
  {
    Enabled(y, a, AsMeant) && y' == Next(y, a, AsMeant)
  }

  lemma SessionStep(y: System, a: Act, y': System, r: Reading)
    requires SysInv(y) && r.AsWritten? && StepOfSession(y, a, y', r)
    ensures SysInv(y') && MeantStep(y, a, y')
  {
    SameAct(y, a, r);
    NextInv(y, a);
  }

  /** A session of the code as written whose steps are all handled as meant is a session as meant, so
      every result about sessions holds of it. */
  lemma AsWrittenSessionIsAsMeant(ys: seq<System>, acts: seq<Act>, maxSize: nat, maxFiles: nat, r: Reading)
    requires r.AsWritten? && SessionAsMeant(ys, acts, r) && ys[0] == Start(maxSize, maxFiles)
    ensures IsSession(ys, acts, r) && IsSession(ys, acts, AsMeant)
  {
    forall k: nat | k < |acts|
      ensures MeantStep(ys[k], acts[k], ys[k + 1])
    {
      SysInvAt(ys, acts, maxSize, maxFiles, r, k);
      SessionStepAt(ys, acts, r, k);
    }
    SameSession(ys, acts, r);
  }

  lemma SameSession(ys: seq<System>, acts: seq<Act>, r: Reading)
    requires r.AsWritten? && SessionAsMeant(ys, acts, r)
    requires forall k {:trigger acts[k]} :: 0 <= k < |acts| ==> MeantStep(ys[k], acts[k], ys[k + 1])
    ensures IsSession(ys, acts, r) && IsSession(ys, acts, AsMeant)
  {
  }

  /** The opener takes the lock, from whomever. */
  function Seized(s: Store, c: Fd, p: Path): Store
    requires p in s.files
  {
    Update(s, p, s.files[p].(owner := c, locked := true))
  }

  lemma SeizedUsers(y: System, c: Fd, p: Path, d: Fd, q: Path)
    requires SysInv(y) && p in y.store.files && c in y.clients
    ensures var s' := Seized(y.store, c, p);
            && (Owns(s', d, q) <==> if q == p then d == c else Owns(y.store, d, q))
            && (Waits(s', d, q) <==> Waits(y.store, d, q))
  {
  }

  lemma SeizedOrphans(s: Store, c: Fd, p: Path)
    requires p in s.files
    ensures Orphans(s, Seized(s, c, p)) == {}
  {
  }

  /** Taking a lock from its owner keeps the session invariant: the old owner's mirror has one path
      too many, and the new owner's call is about that path. */
  lemma SeizedInv(y: System, c: Fd, p: Path, k': Client)
    requires SysInv(y) && c in y.clients && y.clients[c].phase.Asked? && p in y.store.files
    requires ClientOk(Seized(y.store, c, p), y.lost, c, k')
    ensures SysInv(System(Seized(y.store, c, p), y.clients[c := k'], y.lost))
  {
    var s' := Seized(y.store, c, p);
    var y' := System(s', y.clients[c := k'], y.lost);
    UpdateBooks(y.store, p, s'.files[p]);
    NobodyWaitsAsked(y, c);
    forall q | q in s'.files
      ensures FileUsers(y', q)
    {
      assert FileUsers(y, q) && !Waits(y.store, c, q);
    }
    forall d | d in y'.clients
      ensures ClientOk(s', y.lost, d, y'.clients[d])
    {
      if d != c {
        SeizedOther(y, c, p, d);
      }
    }
  }

  lemma NobodyWaitsAsked(y: System, c: Fd)
    requires SysInv(y) && c in y.clients && y.clients[c].phase.Asked?
    ensures forall q :: !Waits(y.store, c, q)
  {
    forall q
      ensures !Waits(y.store, c, q)
    {
      if Waits(y.store, c, q) {
        WaiterIsLocking(y, c, q);
      }
    }
  }

  lemma SeizedOther(y: System, c: Fd, p: Path, d: Fd)
    requires SysInv(y) && c in y.clients && p in y.store.files && d in y.clients && d != c
    ensures ClientOk(Seized(y.store, c, p), y.lost, d, y.clients[d])
  {
    assert ClientOk(y.store, y.lost, d, y.clients[d]);
    forall q
      ensures Owns(Seized(y.store, c, p), d, q) ==> Owns(y.store, d, q)
      ensures Waits(Seized(y.store, c, p), d, q) <==> Waits(y.store, d, q)
    {
      SeizedUsers(y, c, p, d, q);
    }
  }

  /** The opener's own side, whether it got the lock or was refused for having it already. */
  lemma OpenerOk(y: System, c: Fd, p: Path, status: Status)
    requires SysInv(y) && c in y.clients && p in y.store.files
    requires var k := y.clients[c]; k.phase.Asked? && k.phase.request == Open(p) && !k.phase.create && k.phase.lock
    requires status == Success || Owns(y.store, c, p)
    ensures var s' := if status == Success then Seized(y.store, c, p) else y.store;
            ClientOk(s', y.lost, c, AfterOpenStep(y.clients[c], status))
  {
    assert ClientOk(y.store, y.lost, c, y.clients[c]);
    NobodyWaitsAsked(y, c);
    var k := y.clients[c];
    var s' := if status == Success then Seized(y.store, c, p) else y.store;
    forall q | Owns(s', c, q)
      ensures Covered(AfterOpenStep(k, status), q)
    {
      if Owns(y.store, c, q) {
        assert Covered(k, q);
      }
    }
  }

  /** Refused or not, an open with lock as written keeps the session invariant. */
  lemma OpenWithLockInv(y: System, c: Fd, r: Reading)
    requires SysInv(y) && r.AsWritten? && Enabled(y, OpenStep(c), r)
    requires NextOpenEvent(c, y.clients[c]).LockOnOpen? && y.clients[c].phase.request.p in y.store.files
    ensures SysInv(Next(y, OpenStep(c), r))
  {
    var p := y.clients[c].phase.request.p;
    var o := LockOpened(y.store, c, p, r);
    var k' := AfterOpenStep(y.clients[c], o.status);
    var y' := Next(y, OpenStep(c), r);
    assert FileOk(y.store.files[p]);
    OpenerOk(y, c, p, o.status);
    if o.status == Success {
      SeizedOrphans(y.store, c, p);
      SeizedInv(y, c, p, k');
      assert y' == System(Seized(y.store, c, p), y.clients[c := k'], y.lost);
    } else {
      NobodyWaitsAsked(y, c);
      ClientChanged(y, c, k');
      NoOrphans(y);
      assert y' == y.(clients := y.clients[c := k']);
    }
  }

  lemma NoOrphans(y: System)
    ensures y.lost + Orphans(y.store, y.store) == y.lost
  {
  }

  lemma ClientChanged(y: System, c: Fd, k': Client)
    requires SysInv(y) && c in y.clients && ClientOk(y.store, y.lost, c, k')
    requires forall q :: !Waits(y.store, c, q)
    ensures SysInv(y.(clients := y.clients[c := k']))
  {
    var y' := y.(clients := y.clients[c := k']);
    forall q | q in y.store.files
      ensures FileUsers(y', q)
    {
      assert FileUsers(y, q) && !Waits(y.store, c, q);
    }
  }

  /** As written a step of a session keeps the session invariant exactly when the code handles it as
      meant, or when it opens with lock. */
  lemma StepAsWrittenIff(y: System, a: Act, r: Reading)
    requires SysInv(y) && r.AsWritten? && Enabled(y, a, r)
    ensures SysInv(Next(y, a, r)) <==>
              ActAsMeant(y, a, r) || (HandlerEvent(y, a).Some? && HandlerEvent(y, a).value.LockOnOpen?)
  {
    if ActAsMeant(y, a, r) {
      SameAct(y, a, r);
      NextInv(y, a);
    } else {
      var e := HandlerEvent(y, a).value;
      BooksKeptAsWrittenIff(y.store, e, r);
      if e.LockOnOpen? {
        LockOnOpenIsOpen(y, a, r);
        OpenWithLockInv(y, a.c, r);
      } else {
        assert Next(y, a, r).store == Apply(y.store, e, r).store;
      }
    }
  }

  lemma LockOnOpenIsOpen(y: System, a: Act, r: Reading)
    requires SysInv(y) && r.AsWritten? && Enabled(y, a, r)
    requires HandlerEvent(y, a).Some? && HandlerEvent(y, a).value.LockOnOpen?
    ensures a.OpenStep? && HandlerEvent(y, a).value == NextOpenEvent(a.c, y.clients[a.c])
  {
    assert a.Serve? ==> ClientOk(y.store, y.lost, a.c, y.clients[a.c]);
  }

  /** The client removes a file it owns and reads the reply: it is told that the file is gone, and the
      path leaves its mirror once. As written it still owns the file exactly when it never wrote it. */
  lemma RemovedStillOwned(y: System, c: Fd, p: Path, r: Reading)
    requires SysInv(y) && r.AsWritten? && c in y.clients && Owns(y.store, c, p)
    requires y.clients[c].phase.Asked? && y.clients[c].phase.request == Ask(Remove(c, p))
    ensures Enabled(y, Serve(c), r) && Enabled(Next(y, Serve(c), r), Receive(c), r)
    ensures var y2 := Next(Next(y, Serve(c), r), Receive(c), r);
            && y2.clients[c].phase == Idle && y2.clients[c].mirror == RemoveFirst(y.clients[c].mirror, p)
            && (Owns(y2.store, c, p) <==> y.store.files[p].unwritten)
  {
    assert ClientOk(y.store, y.lost, c, y.clients[c]) && FileOk(y.store.files[p]);
    RemoveReadings(y.store, p, r);
    var o := Apply(y.store, Remove(c, p), r);
    assert o.status == Success;
    var y1 := Next(y, Serve(c), r);
    assert y1.clients[c].wire == [Reply(Success, [])];
  }

  /** A client that created, locked and now removes a file. */
  function Remover(): System
  {
    System(
      Store(10, 10, 0, 1, map[A := File(true, true, 5, 0, [], [])], []),
      map[5 := Client([A], false, Asked(Ask(Remove(5, A)), false, false, false), [])], {})
  }

  lemma RemoverInv()
    ensures SysInv(Remover())
  {
    var y := Remover();
    NoBytesAtAll(y.store.files);
    assert y.store.files.Keys == {A};
    assert |y.store.files| == |{A}| == 1;
    assert ClientOk(y.store, {}, 5, y.clients[5]);
  }

  /** As written the next client on that descriptor starts out owning a file it never heard of. */
  lemma ReusedDescriptorOwnsAsWritten(r: Reading)
    requires r.AsWritten?
    ensures SysInv(Remover()) && Enabled(Remover(), Serve(5), r)
    ensures var y1 := Next(Remover(), Serve(5), r);
            && Enabled(y1, Receive(5), r)
            && var y2 := Next(y1, Receive(5), r);
               && Enabled(y2, BeginClose(5), r)
               && var y3 := Next(y2, BeginClose(5), r);
                  && Enabled(y3, Disconnect(5), r)
                  && var y4 := Next(y3, Disconnect(5), r);
                     && Enabled(y4, Connect(5), r)
                     && var y5 := Next(y4, Connect(5), r);
                        Owns(y5.store, 5, A) && y5.clients[5] == Client([], false, Idle, [])
  {
    RemoverInv();
    RemovedStillOwned(Remover(), 5, A, r);
    assert RemoveFirst([A], A) == [];
  }
}
