/** How descriptors travel between the select loop (server/server.c) and the workers
    (server/worker.c), and how the pool is shut down. */
module Dispatch {
  import opened Basics

  datatype Item = Request(c: Fd) | Terminator

  /** Where a worker is in its loop. Checking: about to look at the queue with its mutex held.
      Waiting: on the condition variable, not signalled. Closing: the client's socket is closed and
      the connection still counted. */
  datatype Worker = Top | Checking | Waiting | Serving(c: Fd) | Closing | Returning(fd: Option<Fd>) | Exited

  /** draining: the select loop is over and the threads are being joined. */
  datatype Server = Server(
    selected: set<Fd>, queue: seq<Item>, workers: seq<Worker>, pipe: seq<Option<Fd>>,
    live: set<Fd>, connections: int, accepting: bool, shutdown: bool, draining: bool, terminators: nat)

  /** signalled: the waiting worker that a signal wakes, when there is one. */
  datatype Act =
    | Accept(c: Fd)
    | Enqueue(c: Fd, signalled: nat)
    | ReadPipe
    | HangupSignal
    | InterruptSignal
    | GracefulShutdown
    | LeaveLoop
    | Terminate(signalled: nat)
    | CheckFlag(i: nat)
    | Dequeue(i: nat)
    | Wait(i: nat)
    | WakeUp(i: nat)
    | Finish(i: nat)
    | Hangup(i: nat)
    | Uncount(i: nat)
    | Return(i: nat)

  predicate IsWorkerAct(a: Act)
  {
    a.CheckFlag? || a.Dequeue? || a.Wait? || a.WakeUp? || a.Finish? || a.Hangup? || a.Uncount? || a.Return?
  }

  /** pthread_cond_signal: some waiting worker, if any, goes back to the queue. */
  predicate SignalOk(ws: seq<Worker>, w: nat)
  {
    Waiting in ws ==> w < |ws| && ws[w] == Waiting
  }

  function Signal(ws: seq<Worker>, w: nat): seq<Worker>
    requires SignalOk(ws, w)
  {
    if Waiting in ws then ws[w := Checking] else ws
  }

  predicate At(s: Server, i: nat, w: Worker)
  {
    i < |s.workers| && s.workers[i] == w
  }

  predicate Enabled(s: Server, a: Act)
  {
    match a
    case Accept(c) => !s.draining && s.accepting && c !in s.live
    case Enqueue(c, w) => !s.draining && c in s.selected && SignalOk(s.workers, w)
    case ReadPipe => !s.draining && s.pipe != []
    case HangupSignal => true
    case InterruptSignal => true
    case GracefulShutdown => !s.draining && !s.accepting && s.connections == 0
    case LeaveLoop => s.shutdown && !s.draining
    case Terminate(w) => s.draining && s.terminators < |s.workers| && SignalOk(s.workers, w)
    case CheckFlag(i) => At(s, i, Top)
    case Dequeue(i) => At(s, i, Checking) && s.queue != []
    case Wait(i) => At(s, i, Checking) && s.queue == []
    case WakeUp(i) => At(s, i, Waiting)
    case Finish(i) => i < |s.workers| && s.workers[i].Serving?
    case Hangup(i) => i < |s.workers| && s.workers[i].Serving?
    case Uncount(i) => At(s, i, Closing)
    case Return(i) => i < |s.workers| && s.workers[i].Returning?
  }

  function Move(s: Server, i: nat, w: Worker): Server
    requires i < |s.workers|
  {
    s.(workers := s.workers[i := w])
  }

  function Next(s: Server, a: Act): Server
    requires Enabled(s, a)
  {
    match a
    case Accept(c) => s.(selected := s.selected + {c}, live := s.live + {c}, connections := s.connections + 1)
    case Enqueue(c, w) =>
      s.(selected := s.selected - {c}, queue := s.queue + [Request(c)], workers := Signal(s.workers, w))
    case ReadPipe =>
      s.(pipe := s.pipe[1..], selected := if s.pipe[0].Some? then s.selected + {s.pipe[0].value} else s.selected)
    case HangupSignal => s.(accepting := false)
    case InterruptSignal => s.(shutdown := true)
    case GracefulShutdown => s.(shutdown := true)
    case LeaveLoop => s.(draining := true)
    case Terminate(w) =>
      s.(queue := s.queue + [Terminator], workers := Signal(s.workers, w), terminators := s.terminators + 1)
    case CheckFlag(i) => Move(s, i, if s.shutdown then Exited else Checking)
    case Dequeue(i) =>
      var item := s.queue[0];
      Move(s.(queue := s.queue[1..]), i, if item.Terminator? then Exited else Serving(item.c))
    case Wait(i) => Move(s, i, Waiting)
    case WakeUp(i) => Move(s, i, Checking)
    case Finish(i) => Move(s, i, Returning(Some(s.workers[i].c)))
    case Hangup(i) => Move(s.(live := s.live - {s.workers[i].c}), i, Closing)
    case Uncount(i) => Move(s.(connections := s.connections - 1), i, Returning(None))
    case Return(i) =>
      Move(s.(pipe := s.pipe + [s.workers[i].fd]), i, if s.shutdown then Exited else Top)
  }

  /** How many times x occurs in q. */
  function Occurs<T(==)>(q: seq<T>, x: T): nat
  {
    if q == [] then 0 else (if q[0] == x then 1 else 0) + Occurs(q[1..], x)
  }

  lemma {:induction false} OccursLast<T>(q: seq<T>, y: T, x: T)
    ensures Occurs(q + [y], x) == Occurs(q, x) + if y == x then 1 else 0
  {
    if q == [] {
      assert q + [y] == [y];
    } else {
      assert (q + [y])[1..] == q[1..] + [y];
      OccursLast(q[1..], y, x);
    }
  }

  lemma {:induction false} OccursUpdate<T>(q: seq<T>, i: nat, y: T, x: T)
    requires i < |q|
    ensures Occurs(q[i := y], x) == Occurs(q, x) - (if q[i] == x then 1 else 0) + (if y == x then 1 else 0)
  {
    if i == 0 {
      assert q[i := y][1..] == q[1..];
    } else {
      assert q[i := y][1..] == q[1..][i - 1 := y];
      OccursUpdate(q[1..], i - 1, y, x);
    }
  }

  lemma {:induction false} OccursIn<T>(q: seq<T>, x: T)
    ensures Occurs(q, x) > 0 <==> x in q
  {
    if q == [] {
    } else {
      assert q == [q[0]] + q[1..];
      OccursIn(q[1..], x);
    }
  }

  /** Two places in q that hold x. */
  lemma {:induction false} OccursTwice<T>(q: seq<T>, i: nat, j: nat, x: T)
    requires i < j < |q| && q[i] == q[j] == x
    ensures Occurs(q, x) >= 2
  {
    if i == 0 {
      assert q[1..][j - 1] == x;
      OccursIn(q[1..], x);
    } else {
      OccursTwice(q[1..], i - 1, j - 1, x);
    }
  }

  lemma {:induction false} OccursBoth<T>(q: seq<T>, x: T, y: T)
    requires x != y
    ensures Occurs(q, x) + Occurs(q, y) <= |q|
  {
    if q == [] {
    } else {
      OccursBoth(q[1..], x, y);
    }
  }

  ghost function Count(s: Server, w: Worker): nat
  {
    Occurs(s.workers, w)
  }

  /** In how many places the descriptor c is. */
  ghost function Places(s: Server, c: Fd): nat
  {
    (if c in s.selected then 1 else 0) + Occurs(s.queue, Request(c)) + Count(s, Serving(c))
    + Count(s, Returning(Some(c))) + Occurs(s.pipe, Some(c))
  }

  ghost predicate InOnePlace(s: Server, c: Fd)
  {
    Places(s, c) == if c in s.live then 1 else 0
  }

  /** Every live client is in exactly one place, every other descriptor in none, and the counter
      counts the live clients and those just closed. */
  ghost predicate Conserved(s: Server)
  {
    && (forall c :: InOnePlace(s, c))
    && s.connections == |s.live| + Count(s, Closing)
  }

  /** While a worker waits unsignalled, every queued item has a worker on its way to it. */
  ghost predicate NoLostWakeup(s: Server)
  {
    Count(s, Waiting) > 0 ==> |s.queue| <= Count(s, Checking)
  }

  /** Enough items are queued, or still to be queued, for the workers that will take one. */
  ghost predicate EnoughItems(s: Server)
  {
    && (s.draining ==> s.shutdown)
    && s.terminators <= |s.workers|
    && (if s.draining then Count(s, Waiting) + Count(s, Checking) + s.terminators <= |s.queue| + |s.workers|
        else s.terminators == 0)
  }

  ghost predicate DispatchInv(s: Server)
  {
    Conserved(s) && NoLostWakeup(s) && EnoughItems(s)
  }

  function Start(n: nat): Server
  {
    Server({}, [], seq(n, _ => Top), [], {}, 0, true, false, false, 0)
  }

  lemma {:induction false} OccursNever<T>(q: seq<T>, x: T)
    requires x !in q
    ensures Occurs(q, x) == 0
  {
    OccursIn(q, x);
  }

  lemma StartInv(n: nat)
    ensures DispatchInv(Start(n))
  {
    var s := Start(n);
    assert forall w :: w in s.workers ==> w == Top;
    forall w | w != Top
      ensures Count(s, w) == 0
    {
      OccursNever(s.workers, w);
    }
  }

  lemma SignalCount(ws: seq<Worker>, w: nat, v: Worker)
    requires SignalOk(ws, w)
    ensures v != Waiting && v != Checking ==> Occurs(Signal(ws, w), v) == Occurs(ws, v)
    ensures Occurs(ws, Waiting) == 0 ==> Signal(ws, w) == ws
    ensures Occurs(ws, Waiting) > 0 ==>
              && Occurs(Signal(ws, w), Waiting) == Occurs(ws, Waiting) - 1
              && Occurs(Signal(ws, w), Checking) == Occurs(ws, Checking) + 1
  {
    OccursIn(ws, Waiting);
    if Waiting in ws {
      OccursUpdate(ws, w, Checking, v);
      OccursUpdate(ws, w, Checking, Waiting);
      OccursUpdate(ws, w, Checking, Checking);
    }
  }

  lemma MasterPlaces(s: Server, a: Act, c: Fd)
    requires InOnePlace(s, c) && Enabled(s, a) && !IsWorkerAct(a)
    ensures InOnePlace(Next(s, a), c)
  {
    match a
    case Enqueue(d, w) =>
      SignalCount(s.workers, w, Serving(c));
      SignalCount(s.workers, w, Returning(Some(c)));
      OccursLast(s.queue, Request(d), Request(c));
    case Terminate(w) =>
      SignalCount(s.workers, w, Serving(c));
      SignalCount(s.workers, w, Returning(Some(c)));
      OccursLast(s.queue, Terminator, Request(c));
    case _ =>
  }

  /** A worker holds c when it serves it or is about to hand it back. */
  function Held(w: Worker, c: Fd): nat
  {
    if w == Serving(c) || w == Returning(Some(c)) then 1 else 0
  }

  lemma MovePlaces(s: Server, i: nat, w: Worker, c: Fd)
    requires i < |s.workers|
    ensures Places(Move(s, i, w), c) == Places(s, c) - Held(s.workers[i], c) + Held(w, c)
  {
    OccursUpdate(s.workers, i, w, Serving(c));
    OccursUpdate(s.workers, i, w, Returning(Some(c)));
  }

  lemma DequeuePlaces(s: Server, i: nat, c: Fd)
    requires Enabled(s, Dequeue(i))
    ensures Places(Next(s, Dequeue(i)), c) == Places(s, c)
  {
    MovePlaces(s.(queue := s.queue[1..]), i, Next(s, Dequeue(i)).workers[i], c);
  }

  lemma ReturnPlaces(s: Server, i: nat, c: Fd)
    requires Enabled(s, Return(i))
    ensures Places(Next(s, Return(i)), c) == Places(s, c)
  {
    OccursLast(s.pipe, s.workers[i].fd, Some(c));
    MovePlaces(s.(pipe := s.pipe + [s.workers[i].fd]), i, Next(s, Return(i)).workers[i], c);
  }

  lemma HangupPlaces(s: Server, i: nat, c: Fd)
    requires InOnePlace(s, c) && Enabled(s, Hangup(i))
    ensures InOnePlace(Next(s, Hangup(i)), c)
  {
    MovePlaces(s.(live := s.live - {s.workers[i].c}), i, Closing, c);
  }

  lemma WorkerPlaces(s: Server, a: Act, c: Fd)
    requires InOnePlace(s, c) && Enabled(s, a) && IsWorkerAct(a)
    ensures InOnePlace(Next(s, a), c)
  {
    match a
    case Dequeue(i) => DequeuePlaces(s, i, c);
    case Return(i) => ReturnPlaces(s, i, c);
    case Hangup(i) => HangupPlaces(s, i, c);
    case Uncount(i) => MovePlaces(s.(connections := s.connections - 1), i, Returning(None), c);
    case CheckFlag(i) => MovePlaces(s, i, if s.shutdown then Exited else Checking, c);
    case Finish(i) => MovePlaces(s, i, Returning(Some(s.workers[i].c)), c);
    case Wait(i) => MovePlaces(s, i, Waiting, c);
    case WakeUp(i) => MovePlaces(s, i, Checking, c);
  }

  lemma HungUpIsLive(s: Server, i: nat)
    requires Conserved(s) && Enabled(s, Hangup(i))
    ensures s.workers[i].c in s.live
  {
    OccursIn(s.workers, s.workers[i]);
    assert InOnePlace(s, s.workers[i].c) && Places(s, s.workers[i].c) >= 1;
  }

  lemma WorkerConnections(s: Server, a: Act)
    requires Conserved(s) && Enabled(s, a) && IsWorkerAct(a)
    ensures Next(s, a).connections == |Next(s, a).live| + Count(Next(s, a), Closing)
  {
    OccursUpdate(s.workers, a.i, Next(s, a).workers[a.i], Closing);
    if a.Hangup? {
      HungUpIsLive(s, a.i);
    }
  }

  lemma MasterConnections(s: Server, a: Act)
    requires Conserved(s) && Enabled(s, a) && !IsWorkerAct(a)
    ensures Next(s, a).connections == |Next(s, a).live| + Count(Next(s, a), Closing)
  {
    if a.Enqueue? || a.Terminate? {
      SignalCount(s.workers, a.signalled, Closing);
    }
  }

  /** The connection count follows the clients over every step. */
  lemma Connections(s: Server, a: Act)
    requires Conserved(s) && Enabled(s, a)
    ensures Next(s, a).connections == |Next(s, a).live| + Count(Next(s, a), Closing)
  {
    if IsWorkerAct(a) {
      WorkerConnections(s, a);
    } else {
      MasterConnections(s, a);
    }
  }

  lemma PoolMaster(s: Server, a: Act)
    requires NoLostWakeup(s) && EnoughItems(s) && Enabled(s, a) && !IsWorkerAct(a)
    ensures NoLostWakeup(Next(s, a)) && EnoughItems(Next(s, a))
  {
    OccursBoth(s.workers, Waiting, Checking);
    if a.Enqueue? || a.Terminate? {
      SignalCount(s.workers, a.signalled, Waiting);
    }
  }

  lemma PoolWorker(s: Server, a: Act)
    requires NoLostWakeup(s) && EnoughItems(s) && Enabled(s, a) && IsWorkerAct(a)
    ensures NoLostWakeup(Next(s, a)) && EnoughItems(Next(s, a))
  {
    var w := Next(s, a).workers[a.i];
    OccursUpdate(s.workers, a.i, w, Waiting);
    OccursUpdate(s.workers, a.i, w, Checking);
  }

  /** Every step of the master, of the workers and of the signals keeps descriptors and wake-ups. */
  lemma StepInv(s: Server, a: Act)
    requires DispatchInv(s) && Enabled(s, a)
    ensures DispatchInv(Next(s, a))
  {
    Connections(s, a);
    if IsWorkerAct(a) {
      PoolWorker(s, a);
      forall c
        ensures InOnePlace(Next(s, a), c)
      {
        WorkerPlaces(s, a, c);
      }
    } else {
      PoolMaster(s, a);
      forall c
        ensures InOnePlace(Next(s, a), c)
      {
        MasterPlaces(s, a, c);
      }
    }
  }

  ghost predicate IsRun(ss: seq<Server>, acts: seq<Act>)
  {
    && |ss| == |acts| + 1
    && forall i {:trigger acts[i]} :: 0 <= i < |acts| ==> Enabled(ss[i], acts[i]) && ss[i + 1] == Next(ss[i], acts[i])
  }

  lemma {:induction false} RunInv(ss: seq<Server>, acts: seq<Act>, n: nat, i: nat)
    requires IsRun(ss, acts) && ss[0] == Start(n) && i < |ss|
    ensures DispatchInv(ss[i])
  {
    if i == 0 {
      StartInv(n);
    } else {
      RunInv(ss, acts, n, i - 1);
      StepInv(ss[i - 1], acts[i - 1]);
    }
  }

  /** At no time do two workers hold the same client, nor a worker and the select set, the queue or
      the pipe; and a client that is held anywhere is live. */
  lemma OneHolder(ss: seq<Server>, acts: seq<Act>, n: nat, k: nat, c: Fd, i: nat)
    requires IsRun(ss, acts) && ss[0] == Start(n) && k < |ss|
    requires i < |ss[k].workers| && Held(ss[k].workers[i], c) == 1
    ensures c in ss[k].live && c !in ss[k].selected && Request(c) !in ss[k].queue && Some(c) !in ss[k].pipe
    ensures forall j :: 0 <= j < |ss[k].workers| && j != i ==> Held(ss[k].workers[j], c) == 0
  {
    RunInv(ss, acts, n, k);
    var s := ss[k];
    assert InOnePlace(s, c);
    OccursIn(s.workers, s.workers[i]);
    OccursIn(s.queue, Request(c));
    OccursIn(s.pipe, Some(c));
    forall j | 0 <= j < |s.workers| && j != i
      ensures Held(s.workers[j], c) == 0
    {
      OccursIn(s.workers, s.workers[j]);
      if s.workers[i] == s.workers[j] {
        OccursTwice(s.workers, if i < j then i else j, if i < j then j else i, s.workers[i]);
      }
    }
  }

  /** No client is forgotten: a live one is in one of the five places. */
  lemma NobodyForgotten(ss: seq<Server>, acts: seq<Act>, n: nat, k: nat, c: Fd)
    requires IsRun(ss, acts) && ss[0] == Start(n) && k < |ss| && c in ss[k].live
    ensures var s := ss[k];
            c in s.selected || Request(c) in s.queue || Some(c) in s.pipe
            || Serving(c) in s.workers || Returning(Some(c)) in s.workers
  {
    RunInv(ss, acts, n, k);
    assert InOnePlace(ss[k], c);
    OccursIn(ss[k].queue, Request(c));
    OccursIn(ss[k].pipe, Some(c));
    OccursIn(ss[k].workers, Serving(c));
    OccursIn(ss[k].workers, Returning(Some(c)));
  }

  /** Graceful shutdown fires only when every accepted client has closed and been counted out. */
  lemma GracefulMeansAllClosed(ss: seq<Server>, acts: seq<Act>, n: nat, i: nat)
    requires IsRun(ss, acts) && ss[0] == Start(n) && i < |acts| && acts[i] == GracefulShutdown
    ensures ss[i].live == {} && Closing !in ss[i].workers && !ss[i].accepting
  {
    RunInv(ss, acts, n, i);
    OccursIn(ss[i].workers, Closing);
    assert |ss[i].live| == 0;
  }

  /** Every worker has been sent its terminator. */
  ghost predicate Drained(s: Server)
  {
    DispatchInv(s) && s.draining && s.terminators == |s.workers|
  }

  /** Then no worker is left waiting for a signal, and there is an item for each one still to take one. */
  lemma NobodyLeftWaiting(s: Server)
    requires Drained(s)
    ensures Waiting !in s.workers && Count(s, Checking) <= |s.queue|
  {
    OccursIn(s.workers, Waiting);
  }

  /** An upper bound on the steps a worker has left. */
  function Left(w: Worker): nat
  {
    match w
    case Exited => 0
    case Top => 1
    case Returning(_) => 1
    case Closing => 2
    case Serving(_) => 3
    case Checking => 4
    case Waiting => 5
  }

  function LeftOfAll(ws: seq<Worker>): nat
  {
    if ws == [] then 0 else Left(ws[0]) + LeftOfAll(ws[1..])
  }

  lemma {:induction false} LeftUpdate(ws: seq<Worker>, i: nat, w: Worker)
    requires i < |ws|
    ensures LeftOfAll(ws[i := w]) == LeftOfAll(ws) - Left(ws[i]) + Left(w)
  {
    if i == 0 {
      assert ws[i := w][1..] == ws[1..];
    } else {
      assert ws[i := w][1..] == ws[1..][i - 1 := w];
      LeftUpdate(ws[1..], i - 1, w);
    }
  }

  /** From then on every step of a worker brings it nearer to its exit, and no worker is ever blocked. */
  lemma DrainStep(s: Server, a: Act)
    requires Drained(s) && IsWorkerAct(a) && Enabled(s, a)
    ensures Drained(Next(s, a)) && LeftOfAll(Next(s, a).workers) < LeftOfAll(s.workers)
  {
    StepInv(s, a);
    NobodyLeftWaiting(s);
    OccursIn(s.workers, Checking);
    LeftUpdate(s.workers, a.i, Next(s, a).workers[a.i]);
  }

  function NextActOf(s: Server, i: nat): Act
    requires i < |s.workers| && s.workers[i] != Exited
  {
    match s.workers[i]
    case Top => CheckFlag(i)
    case Checking => Dequeue(i)
    case Waiting => WakeUp(i)
    case Serving(_) => Finish(i)
    case Closing => Uncount(i)
    case Returning(_) => Return(i)
  }

  lemma NobodyBlocked(s: Server, i: nat)
    requires Drained(s) && i < |s.workers| && s.workers[i] != Exited
    ensures IsWorkerAct(NextActOf(s, i)) && Enabled(s, NextActOf(s, i))
  {
    NobodyLeftWaiting(s);
    OccursIn(s.workers, Checking);
  }

  lemma {:induction false} DrainRun(ss: seq<Server>, acts: seq<Act>, k: nat)
    requires IsRun(ss, acts) && Drained(ss[0]) && k < |ss| && forall a :: a in acts ==> IsWorkerAct(a)
    ensures Drained(ss[k]) && k + LeftOfAll(ss[k].workers) <= LeftOfAll(ss[0].workers)
  {
    if k == 0 {
    } else {
      DrainRun(ss, acts, k - 1);
      assert acts[k - 1] in acts;
      DrainStep(ss[k - 1], acts[k - 1]);
    }
  }

  /** So all joins complete: however the workers are scheduled, no more than LeftOfAll steps are
      possible, and when none is, every worker has exited. */
  lemma AllJoin(ss: seq<Server>, acts: seq<Act>, i: nat)
    requires IsRun(ss, acts) && Drained(ss[0]) && (forall a :: a in acts ==> IsWorkerAct(a))
    requires i < |ss[|acts|].workers|
    ensures |acts| <= LeftOfAll(ss[0].workers)
    ensures ss[|acts|].workers[i] == Exited || exists a :: IsWorkerAct(a) && Enabled(ss[|acts|], a)
  {
    DrainRun(ss, acts, |acts|);
    if ss[|acts|].workers[i] != Exited {
      NobodyBlocked(ss[|acts|], i);
    }
  }

  /** The items put into the queue by the first i acts, in order. */
  ghost function Arrivals(acts: seq<Act>, i: nat): seq<Item>
    requires i <= |acts|
  {
    if i == 0 then []
    else Arrivals(acts, i - 1) + Coming(acts[i - 1])
  }

  /** What the first i acts took from the queue, as the workers that took it then show. */
  ghost function Departures(ss: seq<Server>, acts: seq<Act>, i: nat): seq<Item>
    requires IsRun(ss, acts) && i <= |acts|
  {
    if i == 0 then []
    else
      assert Enabled(ss[i - 1], acts[i - 1]) && ss[i] == Next(ss[i - 1], acts[i - 1]);
      Departures(ss, acts, i - 1) + Going(acts[i - 1], ss[i])
  }

  /** Requests are taken up in order of arrival, each by the worker that then serves it. */
  lemma {:induction false} QueueInOrder(ss: seq<Server>, acts: seq<Act>, n: nat, i: nat)
    requires IsRun(ss, acts) && ss[0] == Start(n) && i <= |acts|
    ensures Arrivals(acts, i) == Departures(ss, acts, i) + ss[i].queue
  {
    if i > 0 {
      var s, a, t := ss[i - 1], acts[i - 1], ss[i];
      QueueInOrder(ss, acts, n, i - 1);
      assert Enabled(s, a) && t == Next(s, a);
      QueueStep(s, a, t);
      PassThrough(Arrivals(acts, i - 1), Departures(ss, acts, i - 1), s.queue, Coming(a), Going(a, t), t.queue);
    }
  }

  lemma PassThrough<T>(all: seq<T>, gone: seq<T>, q: seq<T>, coming: seq<T>, going: seq<T>, t: seq<T>)
    requires all == gone + q && q + coming == going + t
    ensures all + coming == gone + going + t
  {
    assert gone + q + coming == gone + (q + coming) && gone + going + t == gone + (going + t);
  }

  ghost function Coming(a: Act): seq<Item>
  {
    match a
    case Enqueue(c, _) => [Request(c)]
    case Terminate(_) => [Terminator]
    case _ => []
  }

  ghost function Going(a: Act, t: Server): seq<Item>
    requires a.Dequeue? ==> a.i < |t.workers|
  {
    if a.Dequeue? then [if t.workers[a.i].Serving? then Request(t.workers[a.i].c) else Terminator] else []
  }

  lemma QueueStep(s: Server, a: Act, t: Server)
    requires Enabled(s, a) && t == Next(s, a)
    ensures (a.Dequeue? ==> a.i < |t.workers|) && s.queue + Coming(a) == Going(a, t) + t.queue
  {
    if a.Dequeue? {
      assert s.queue == [s.queue[0]] + t.queue;
    }
  }

  /** A request wakes a sleeping worker, if there is one, and that worker can take it up. */
  lemma EnqueueWakes(s: Server, c: Fd, w: nat)
    requires Enabled(s, Enqueue(c, w)) && Waiting in s.workers
    ensures w < |s.workers| && s.workers[w] == Waiting && Enabled(Next(s, Enqueue(c, w)), Dequeue(w))
  {
  }

  /** A worker that wakes up by itself looks at the queue again: it serves what is first in it, or
      sleeps on. */
  lemma WakeUpLooks(s: Server, i: nat)
    requires Enabled(s, WakeUp(i))
    ensures var t := Next(s, WakeUp(i));
            if s.queue == [] then Enabled(t, Wait(i)) && Next(t, Wait(i)) == s
            else Enabled(t, Dequeue(i)) && (s.queue[0].Request? ==>
                   Next(t, Dequeue(i)).workers[i] == Serving(s.queue[0].c))
  {
    if s.queue == [] {
      assert s.workers[i := Checking][i := Waiting] == s.workers;
    }
  }

  lemma {:induction false} StaysClosed(ss: seq<Server>, acts: seq<Act>, i: nat, j: nat)
    requires IsRun(ss, acts) && i <= j < |ss| && !ss[i].accepting
    ensures !ss[j].accepting
    decreases j
  {
    if i < j {
      StaysClosed(ss, acts, i, j - 1);
      assert Enabled(ss[j - 1], acts[j - 1]) && ss[j] == Next(ss[j - 1], acts[j - 1]);
    }
  }

  /** After the hang-up signal no client is accepted any more. */
  lemma NoneAcceptedAfterHangup(ss: seq<Server>, acts: seq<Act>, i: nat, j: nat)
    requires IsRun(ss, acts) && i < j < |acts| && acts[i] == HangupSignal
    ensures !acts[j].Accept?
  {
    assert ss[i + 1] == Next(ss[i], acts[i]);
    StaysClosed(ss, acts, i + 1, j);
    assert Enabled(ss[j], acts[j]);
  }

  /** And once all clients have closed and been counted out, the loop can shut down and be left. */
  lemma GracefulReady(ss: seq<Server>, acts: seq<Act>, n: nat, i: nat, j: nat)
    requires IsRun(ss, acts) && ss[0] == Start(n) && i < j < |ss| && acts[i] == HangupSignal
    requires ss[j].live == {} && Closing !in ss[j].workers && !ss[j].draining
    ensures Enabled(ss[j], GracefulShutdown) && Enabled(Next(ss[j], GracefulShutdown), LeaveLoop)
    ensures Drains(Next(Next(ss[j], GracefulShutdown), LeaveLoop), 0)
  {
    assert ss[i + 1] == Next(ss[i], acts[i]);
    StaysClosed(ss, acts, i + 1, j);
    RunInv(ss, acts, n, j);
    OccursIn(ss[j].workers, Closing);
    StepInv(ss[j], GracefulShutdown);
    LeavingDrains(Next(ss[j], GracefulShutdown));
  }

  /** An interrupt lets the loop be left whatever the clients do. */
  lemma InterruptReady(s: Server)
    requires DispatchInv(s) && !s.draining
    ensures Enabled(Next(s, InterruptSignal), LeaveLoop)
    ensures Drains(Next(Next(s, InterruptSignal), LeaveLoop), 0)
  {
    StepInv(s, InterruptSignal);
    LeavingDrains(Next(s, InterruptSignal));
  }

  /** The threads are being joined, and that many terminators have been sent. */
  ghost predicate Drains(s: Server, sent: nat)
  {
    DispatchInv(s) && s.draining && s.shutdown && s.terminators == sent
  }

  lemma LeavingDrains(s: Server)
    requires DispatchInv(s) && Enabled(s, LeaveLoop)
    ensures Drains(Next(s, LeaveLoop), 0)
  {
    StepInv(s, LeaveLoop);
  }

  /** While a terminator is missing the next can be sent. */
  lemma TerminateReady(s: Server, sent: nat) returns (w: nat)
    requires Drains(s, sent) && sent < |s.workers|
    ensures Enabled(s, Terminate(w))
  {
    w := 0;
    if Waiting in s.workers {
      w :| 0 <= w < |s.workers| && s.workers[w] == Waiting;
    }
  }

  ghost function Sent(acts: seq<Act>, i: nat): nat
    requires i <= |acts|
  {
    if i == 0 then 0 else Sent(acts, i - 1) + if acts[i - 1].Terminate? then 1 else 0
  }

  /** Whatever the workers do meanwhile, with one terminator for each worker the pool is drained. */
  lemma {:induction false} TerminatorsDrain(ss: seq<Server>, acts: seq<Act>, i: nat)
    requires IsRun(ss, acts) && Drains(ss[0], 0) && i < |ss|
    ensures Drains(ss[i], Sent(acts, i)) && |ss[i].workers| == |ss[0].workers|
    ensures Sent(acts, i) == |ss[0].workers| ==> Drained(ss[i])
  {
    if i > 0 {
      TerminatorsDrain(ss, acts, i - 1);
      assert Enabled(ss[i - 1], acts[i - 1]) && ss[i] == Next(ss[i - 1], acts[i - 1]);
      StepInv(ss[i - 1], acts[i - 1]);
    }
  }

  /** A client's close takes it out of the live ones and, in its worker's next step, out of the count. */
  lemma HangupCounts(s: Server, i: nat, c: Fd)
    requires Conserved(s) && i < |s.workers| && s.workers[i] == Serving(c)
    ensures Enabled(s, Hangup(i)) && Enabled(Next(s, Hangup(i)), Uncount(i))
    ensures var t := Next(Next(s, Hangup(i)), Uncount(i));
            && c in s.live && t.live == s.live - {c} && t.connections == s.connections - 1
            && t.workers[i] == Returning(None)
  {
    HungUpIsLive(s, i);
  }
}
