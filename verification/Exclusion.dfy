/** What clients of the lock protocol are told, and what they then have. */
module Exclusion {
  import opened Basics
  import opened FileStore
  import opened Accounts
  import opened Laws
  import opened Answers
  import opened Sessions
  import opened SessionProofs

  /** A served request is answered with the answer of its step, unless the lock has to be awaited. */
  lemma ServedAnswer(y: System, c: Fd)
    requires SysInv(y) && Enabled(y, Serve(c), AsMeant)
    ensures var e, y' := y.clients[c].phase.request.e, Next(y, Serve(c), AsMeant);
            var a := Answer(y.store, e, AsMeant);
            && a.Some? && y'.store == After(y.store, e, AsMeant)
            && y'.clients[c].phase == Handled(Ask(e)) && y'.clients[c].mirror == y.clients[c].mirror
            && (a == Some(Awaiting) <==> y'.clients[c].wire == [])
            && (a != Some(Awaiting) ==> |y'.clients[c].wire| == 1 && y'.clients[c].wire[0].status == a.value)
  {
    assert ClientOk(y.store, y.lost, c, y.clients[c]);
  }

  /** A lock request is told Success exactly when the file was free or the client's own, and then it is
      the client's; it is told nothing exactly when another owns it, and then the client is in line. */
  lemma ServedLock(y: System, c: Fd, p: Path)
    requires SysInv(y) && Enabled(y, Serve(c), AsMeant) && y.clients[c].phase.request == Ask(Lock(c, p))
    ensures var y' := Next(y, Serve(c), AsMeant);
            var told := y'.clients[c].wire;
            && (told != [] && told[0].status == Success <==> OwnedBy(y.store, p, NO_OWNER) || OwnedBy(y.store, p, c))
            && (told != [] && told[0].status == Success ==> Owns(y'.store, c, p))
            && (told == [] <==> OwnedByAnother(y.store, p, c))
            && (told == [] ==> Waits(y'.store, c, p))
            && (told != [] && told[0].status == NotFound <==> p !in y.store.files)
  {
    ServedAnswer(y, c);
    LockAnswer(y.store, c, p, AsMeant);
    var t := After(y.store, Lock(c, p), AsMeant);
    if Answer(y.store, Lock(c, p), AsMeant) == Some(Awaiting) {
      var w := t.files[p].waiters;
      assert w[|w| - 1] == c;
    }
  }

  lemma ServedUnlock(y: System, c: Fd, p: Path)
    requires SysInv(y) && Enabled(y, Serve(c), AsMeant) && y.clients[c].phase.request == Ask(Unlock(c, p))
    ensures var y' := Next(y, Serve(c), AsMeant);
            var told := y'.clients[c].wire;
            && told != [] && (told[0].status == Success <==> Owns(y.store, c, p))
            && (told[0].status == Success ==> OwnedBy(y'.store, p, NO_OWNER))
            && y'.lost == y.lost
  {
    ServedAnswer(y, c);
    UnlockAnswer(y.store, c, p, AsMeant);
    var s' := Next(y, Serve(c), AsMeant).store;
    assert Orphans(y.store, s') == {};
  }

  function FlagsLeft(k: Client): nat
  {
    if k.phase.Asked? then
      (if k.phase.create then 1 else 0) + (if k.phase.lock then 1 else 0) + if k.phase.check then 1 else 0
    else 0
  }

  /** Each step of an open either ends it or leaves fewer; no step but the last tells the client
      anything; and whoever has passed the step for the lock, told or not, has the lock. */
  lemma OpenStepAnswer(y: System, c: Fd)
    requires SysInv(y) && Enabled(y, OpenStep(c), AsMeant)
    ensures var k, k', p := y.clients[c], Next(y, OpenStep(c), AsMeant).clients[c], y.clients[c].phase.request.p;
            var s' := Next(y, OpenStep(c), AsMeant).store;
            && (k'.phase.Handled? <==> |k'.wire| == 1) && (k'.phase.Asked? <==> k'.wire == [])
            && (k'.phase.Asked? ==> FlagsLeft(k') < FlagsLeft(k))
            && (k'.phase.Asked? || k'.wire[0].status == Success ==>
                  && (k.phase.create ==> p !in y.store.files && p in s'.files && s'.files[p].unwritten)
                  && (k.phase.lock && !k.phase.create ==> Owns(s', c, p))
                  && (FlagsLeft(k) > 0 ==> p in s'.files)
                  && (k.phase.create && k.phase.lock ==> k'.phase == Asked(Open(p), false, true, k.phase.check)))
            && (k'.phase.Handled? && k'.wire[0].status != Success ==> !Owns(s', c, p) || Owns(y.store, c, p))
  {
    var k := y.clients[c];
    var p := k.phase.request.p;
    assert ClientOk(y.store, y.lost, c, k);
    CreateAnswer(y.store, c, p);
    LockOnOpenAnswer(y.store, c, p, AsMeant);
    CheckAnswer(y.store, c, p, AsMeant);
    assert Answer(y.store, NextOpenEvent(c, k), AsMeant).Some?;
  }

  /** By this act client d is told that it has the lock of p, which it asked for or opened the file with. */
  ghost predicate Gets(y: System, y': System, d: Fd, p: Path)
  {
    && d in y.clients && d in y'.clients && y.clients[d].wire == []
    && y'.clients[d].wire != [] && y'.clients[d].wire[0].status == Success
    && var phase := y.clients[d].phase;
       && phase != Idle
       && (phase.request == Ask(Lock(d, p)) || (phase.Asked? && phase.request == Open(p) && phase.lock))
  }

  lemma GetsOwns(y: System, a: Act, d: Fd, p: Path)
    requires SysInv(y) && Enabled(y, a, AsMeant) && Gets(y, Next(y, a, AsMeant), d, p)
    ensures Owns(Next(y, a, AsMeant).store, d, p)
  {
    if a.Pass? {
      PassGets(y, d, p);
    } else if a == Serve(d) {
      ServedLock(y, d, p);
    } else if a == OpenStep(d) {
      OpenStepAnswer(y, d);
    }
  }

  /** A pass answers only those it gives a file, and they were waiting for that one. */
  lemma PassGets(y: System, d: Fd, p: Path)
    requires SysInv(y) && Gets(y, Next(y, Pass, AsMeant), d, p)
    ensures Owns(Next(y, Pass, AsMeant).store, d, p)
  {
    if forall q :: q in y.store.fifo ==> !Granting(y.store.files, q, d) {
      PassAnswersNobody(y, d);
    } else {
      var q :| q in y.store.fifo && Granting(y.store.files, q, d);
      PassGives(y, d, q);
    }
  }

  lemma PassGives(y: System, d: Fd, q: Path)
    requires SysInv(y) && d in y.clients && q in y.store.fifo && Granting(y.store.files, q, d)
    ensures Owns(LockManagerPass(y.store), d, q) && y.clients[d].phase == Handled(Ask(Lock(d, q)))
  {
    GrantedOnce(y, d, q);
    assert FileUsers(y, q);
    PassUsers(y.store, d, q);
  }

  lemma PassAnswersNobody(y: System, d: Fd)
    requires SysInv(y) && d in y.clients && forall q :: q in y.store.fifo ==> !Granting(y.store.files, q, d)
    ensures Next(y, Pass, AsMeant).clients[d].wire == y.clients[d].wire
  {
    assert forall q :: q in y.store.fifo ==> Written(y.store, q);
    NoGrantNoReply(y.store.files, y.store.fifo, d);
  }

  /** The handler runs the owner's close or unlock of p. */
  ghost predicate GivesBack(y: System, a: Act, c: Fd, p: Path)
  {
    a == Serve(c) && c in y.clients && y.clients[c].phase.Asked?
    && (y.clients[c].phase.request == Ask(Close(c, p)) || y.clients[c].phase.request == Ask(Unlock(c, p)))
  }

  lemma HandlerStep(y: System, a: Act, p: Path) returns (e: Event)
    requires SysInv(y) && Enabled(y, a, AsMeant) && (a.OpenStep? || a.Serve?)
    ensures Apply(y.store, e, AsMeant).Done? && Next(y, a, AsMeant).store == Apply(y.store, e, AsMeant).store
    ensures Lawful(y.store, e, Next(y, a, AsMeant).store, p) && !e.LockPass? && e.c == a.c
    ensures (e.Close? || e.Unlock?) && e.p == p ==> GivesBack(y, a, a.c, p)
  {
    e := if a.OpenStep? then NextOpenEvent(a.c, y.clients[a.c]) else y.clients[a.c].phase.request.e;
    assert ClientOk(y.store, y.lost, a.c, y.clients[a.c]);
    StepLawful(y.store, e, p);
  }

  /** From owner to owner there is always a time without one. */
  lemma OwnerActs(y: System, a: Act, c: Fd, p: Path)
    requires SysInv(y) && Enabled(y, a, AsMeant) && Owns(y.store, c, p) && p in Next(y, a, AsMeant).store.files
    ensures Owns(Next(y, a, AsMeant).store, c, p)
            || (GivesBack(y, a, c, p) && OwnedBy(Next(y, a, AsMeant).store, p, NO_OWNER))
  {
    if a.OpenStep? || a.Serve? {
      var e := HandlerStep(y, a, p);
    } else if a.Pass? {
      assert FileOk(y.store.files[p]);
      PassUsersAll(y, c);
    }
  }

  ghost predicate Undisturbed(ys: seq<System>, acts: seq<Act>, i: nat, j: nat, c: Fd, p: Path)
    requires i <= j < |ys| && |ys| == |acts| + 1
  {
    && (forall k :: i <= k <= j ==> p in ys[k].store.files)
    && forall k {:trigger acts[k]} :: i <= k < j ==> !GivesBack(ys[k], acts[k], c, p)
  }

  lemma {:induction false} OwnerStays(
      ys: seq<System>, acts: seq<Act>, maxSize: nat, maxFiles: nat, i: nat, j: nat, c: Fd, p: Path)
    requires IsSession(ys, acts, AsMeant) && ys[0] == Start(maxSize, maxFiles) && i <= j < |ys|
    requires Owns(ys[i].store, c, p) && Undisturbed(ys, acts, i, j, c, p)
    ensures Owns(ys[j].store, c, p)
    decreases j
  {
    if i < j {
      OwnerStays(ys, acts, maxSize, maxFiles, i, j - 1, c, p);
      SessionInv(ys, acts, maxSize, maxFiles, j - 1);
      var y, a, y' := ys[j - 1], acts[j - 1], ys[j];
      assert Enabled(y, a, AsMeant) && y' == Next(y, a, AsMeant);
      OwnerActs(y, a, c, p);
    }
  }

  /** Mutual exclusion over any session: once c has been told that it has the lock of p, nobody else is
      told so until c has closed or unlocked p or p has left the storage. */
  lemma MutualExclusion(
      ys: seq<System>, acts: seq<Act>, maxSize: nat, maxFiles: nat, i: nat, j: nat, c: Fd, d: Fd, p: Path)
    requires IsSession(ys, acts, AsMeant) && ys[0] == Start(maxSize, maxFiles) && i < j < |acts| && c != d
    requires Gets(ys[i], ys[i + 1], c, p) && Undisturbed(ys, acts, i + 1, j, c, p)
    ensures Owns(ys[j].store, c, p) && !Gets(ys[j], ys[j + 1], d, p)
  {
    GetsOwnsAt(ys, acts, maxSize, maxFiles, i, c, p);
    OwnerStays(ys, acts, maxSize, maxFiles, i + 1, j, c, p);
    NoOtherGetsAt(ys, acts, maxSize, maxFiles, j, c, d, p);
  }

  lemma GetsOwnsAt(ys: seq<System>, acts: seq<Act>, maxSize: nat, maxFiles: nat, i: nat, d: Fd, p: Path)
    requires IsSession(ys, acts, AsMeant) && ys[0] == Start(maxSize, maxFiles) && i < |acts|
    requires Gets(ys[i], ys[i + 1], d, p)
    ensures Owns(ys[i + 1].store, d, p)
  {
    SessionInv(ys, acts, maxSize, maxFiles, i);
    var y, a := ys[i], acts[i];
    assert Enabled(y, a, AsMeant) && ys[i + 1] == Next(y, a, AsMeant);
    GetsOwns(y, a, d, p);
  }

  lemma NoOtherGetsAt(
      ys: seq<System>, acts: seq<Act>, maxSize: nat, maxFiles: nat, j: nat, c: Fd, d: Fd, p: Path)
    requires IsSession(ys, acts, AsMeant) && ys[0] == Start(maxSize, maxFiles) && j < |acts|
    requires Owns(ys[j].store, c, p) && c != d
    ensures !Gets(ys[j], ys[j + 1], d, p)
  {
    SessionInv(ys, acts, maxSize, maxFiles, j);
    var y, a := ys[j], acts[j];
    assert Enabled(y, a, AsMeant) && ys[j + 1] == Next(y, a, AsMeant);
    NoOtherGets(y, a, c, d, p);
  }

  lemma NoOtherGets(y: System, a: Act, c: Fd, d: Fd, p: Path)
    requires SysInv(y) && Enabled(y, a, AsMeant) && Owns(y.store, c, p) && c != d
    ensures !Gets(y, Next(y, a, AsMeant), d, p)
  {
    if Gets(y, Next(y, a, AsMeant), d, p) {
      GetsOwns(y, a, d, p);
      OwnerActs(y, a, c, p);
    }
  }

  /** A path comes into a mirror only with the news that its open succeeded, and leaves only with the news
      that its removal did or that a write expelled it, or when the connection is being closed. */
  lemma MirrorLaw(y: System, a: Act, c: Fd, p: Path)
    requires SysInv(y) && Enabled(y, a, AsMeant) && c in y.clients && c in Next(y, a, AsMeant).clients
    ensures var k, k' := y.clients[c], Next(y, a, AsMeant).clients[c];
            && (p in k'.mirror && p !in k.mirror ==>
                  a == Receive(c) && k.phase.request == Open(p) && k.wire[0].status == Success)
            && (a == Receive(c) && k.phase.request == Open(p) ==>
                  k'.mirror == if k.wire[0].status == Success then k.mirror + [p] else k.mirror)
            && (p in k.mirror && p !in k'.mirror ==>
                  || (a == Receive(c) && k.phase.request == Ask(Remove(c, p)) && k.wire[0].status == Success)
                  || (a == Receive(c) && k.phase.request.Ask? && k.phase.request.e.Write? && p in k.wire[0].expelled)
                  || (a == CloseNext(c) && k.closing))
  {
    var k := y.clients[c];
    assert ClientOk(y.store, y.lost, c, k);
    if a == Receive(c) && k.phase.request.Ask? {
      MirrorLosesOnly(k.mirror, k.phase.request.e, k.wire[0], p);
    } else if a == CloseNext(c) {
      assert k.mirror == [k.mirror[0]] + k.mirror[1..];
    }
  }

  lemma MirrorLosesOnly(mirror: seq<Path>, e: Event, reply: Reply, p: Path)
    ensures var left := MirrorAfter(mirror, Ask(e), reply);
            && (p in left ==> p in mirror)
            && (p in mirror && p !in left ==>
                  (e.Remove? && e.p == p && reply.status == Success) || (e.Write? && p in reply.expelled))
  {
    match e
    case Remove(_, q) =>
      RemoveFirstOthers(mirror, q, p);
    case Write(_, _, _) =>
      RemoveAllOthers(mirror, reply.expelled, p);
    case _ =>
  }

  lemma {:induction false} RemoveFirstOthers(q: seq<Path>, x: Path, p: Path)
    ensures p in RemoveFirst(q, x) ==> p in q
    ensures p != x && p in q ==> p in RemoveFirst(q, x)
  {
    if q != [] {
      assert q == [q[0]] + q[1..];
      if q[0] != x {
        RemoveFirstOthers(q[1..], x, p);
      }
    }
  }

  lemma {:induction false} RemoveAllOthers(q: seq<Path>, gone: seq<Path>, p: Path)
    ensures p in RemoveAll(q, gone) ==> p in q
    ensures p !in gone && p in q ==> p in RemoveAll(q, gone)
    decreases gone
  {
    if gone != [] {
      RemoveFirstOthers(q, gone[0], p);
      RemoveAllOthers(RemoveFirst(q, gone[0]), gone[1..], p);
    }
  }

  /** Client c waits for the end of its open with lock of p. */
  ghost predicate Opening(y: System, c: Fd, p: Path)
  {
    && c in y.clients && y.clients[c].wire == [] && y.clients[c].phase.Asked?
    && y.clients[c].phase.request == Open(p) && y.clients[c].phase.lock && !y.clients[c].phase.check
  }

  lemma OpeningStep(y: System, a: Act, c: Fd, p: Path)
    requires SysInv(y) && Enabled(y, a, AsMeant) && Opening(y, c, p)
    ensures var y' := Next(y, a, AsMeant);
            Opening(y', c, p) || (c in y'.clients && y'.clients[c].wire != []
                                  && (y'.clients[c].wire[0].status == Success ==> Owns(y'.store, c, p)))
  {
    if a == OpenStep(c) {
      OpenStepAnswer(y, c);
    } else if a.Pass? {
      NotGranted(y, c);
      PassAnswersNobody(y, c);
    }
  }

  lemma NotGranted(y: System, c: Fd)
    requires SysInv(y) && c in y.clients && y.clients[c].phase.Asked?
    ensures forall q :: q in y.store.fifo ==> !Granting(y.store.files, q, c)
  {
    forall q | q in y.store.fifo
      ensures !Granting(y.store.files, q, c)
    {
      if Granting(y.store.files, q, c) {
        GrantedOnce(y, c, q);
      }
    }
  }

  /** A client that sends an open with lock has the lock when it is told Success, whatever the others did
      between the steps. */
  lemma {:induction false} OpenedIsLocked(
      ys: seq<System>, acts: seq<Act>, maxSize: nat, maxFiles: nat, i: nat, j: nat, c: Fd, p: Path, create: bool)
    requires IsSession(ys, acts, AsMeant) && ys[0] == Start(maxSize, maxFiles) && i < j < |ys|
    requires acts[i] == Send(c, Open(p), create, true, false)
    requires forall k :: i < k < j ==> c in ys[k].clients && ys[k].clients[c].wire == []
    ensures Opening(ys[j], c, p) || (c in ys[j].clients && ys[j].clients[c].wire != []
                                     && (ys[j].clients[c].wire[0].status == Success ==> Owns(ys[j].store, c, p)))
    decreases j
  {
    var y, a, y' := ys[j - 1], acts[j - 1], ys[j];
    SessionInv(ys, acts, maxSize, maxFiles, j - 1);
    assert Enabled(y, a, AsMeant) && y' == Next(y, a, AsMeant);
    if j == i + 1 {
      assert ClientOk(y.store, y.lost, c, y.clients[c]);
    } else {
      OpenedIsLocked(ys, acts, maxSize, maxFiles, i, j - 1, c, p, create);
      OpeningStep(y, a, c, p);
    }
  }

  /** In every state a client can go on: send, be served unless its step would crash, read its reply, or
      close; but for those that wait for a lock or have lost their request. */
  lemma ClientCanAct(y: System, c: Fd)
    requires SysInv(y) && c in y.clients
    ensures var k := y.clients[c];
            && (k.phase == Idle && !k.closing ==> Enabled(y, BeginClose(c), AsMeant))
            && (k.phase == Idle && k.closing ==>
                  if k.mirror == [] then Enabled(y, Disconnect(c), AsMeant) else Enabled(y, CloseNext(c), AsMeant))
            && (k.phase.Asked? && k.phase.request.Open? ==> Enabled(y, OpenStep(c), AsMeant))
            && (k.phase.Asked? && k.phase.request.Ask? && Answer(y.store, k.phase.request.e, AsMeant).Some? ==>
                  Enabled(y, Serve(c), AsMeant))
            && (k.phase.Handled? ==>
                  (Enabled(y, Receive(c), AsMeant) <==> c !in y.lost && forall p :: !Waits(y.store, c, p)))
  {
    var k := y.clients[c];
    assert ClientOk(y.store, y.lost, c, k);
    if k.phase.Handled? {
      forall p | Waits(y.store, c, p)
        ensures k.wire == [] && c !in y.lost
      {
        WaiterIsLocking(y, c, p);
      }
    }
  }

  /** An idle client can ask for whatever concerns a path it has opened, and open, close or read many
      files any time. */
  lemma IdleCanSend(y: System, c: Fd, p: Path, body: seq<Byte>, n: int, create: bool, lock: bool, check: bool)
    requires c in y.clients && y.clients[c].phase == Idle && !y.clients[c].closing
    ensures forall q :: q in {Open(p), Ask(Close(c, p)), Ask(ReadN(c, n))} ==>
              Enabled(y, Send(c, q, create, lock, check), AsMeant)
    ensures forall q :: q in {Ask(Write(c, p, body)), Ask(Append(c, p, body)), Ask(Read(c, p)), Ask(Remove(c, p)),
                              Ask(Lock(c, p)), Ask(Unlock(c, p))} ==>
              (Enabled(y, Send(c, q, create, lock, check), AsMeant) <==> p in y.clients[c].mirror)
  {
  }
}
