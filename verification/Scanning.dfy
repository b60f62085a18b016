/** A scan of the select loop among the workers (server/server.c, server/worker.c): when its reads of
    the worker pipe can be served, and when the loop hangs. */
module Scanning {
  import opened Basics
  import Dispatch

  /** todo: the ready descriptors still to be visited. reading: the pipe was reported ready, so it is
      read once after every visit. waiting: such a read is going on. */
  datatype State = State(
    server: Dispatch.Server, todo: seq<Fd>, reading: bool, waiting: bool, pipeFd: Fd, listenFd: Fd)

  /** Interrupt: a signal that sets the shutdown flag arrives while the scan goes on. */
  datatype Act =
    | Visit(accepted: Fd, signalled: nat)
    | Take
    | Work(a: Dispatch.Act)
    | Interrupt

  /** What the loop does at the next ready descriptor; at the pipe itself nothing but the read. */
  function VisitAct(x: State, accepted: Fd, signalled: nat): Option<Dispatch.Act>
    requires x.todo != []
  {
    if x.todo[0] == x.pipeFd then None
    else if x.todo[0] == x.listenFd then Some(Dispatch.Accept(accepted))
    else Some(Dispatch.Enqueue(x.todo[0], signalled))
  }

  predicate Enabled(x: State, a: Act)
  {
    match a
    case Visit(c, w) =>
      && !x.waiting && x.todo != [] && c != x.pipeFd && c != x.listenFd
      && (VisitAct(x, c, w).Some? ==> Dispatch.Enabled(x.server, VisitAct(x, c, w).value))
    case Take => x.waiting && Dispatch.Enabled(x.server, Dispatch.ReadPipe)
    case Work(b) => Dispatch.IsWorkerAct(b) && Dispatch.Enabled(x.server, b)
    case Interrupt => true
  }

  function Next(x: State, a: Act): State
    requires Enabled(x, a)
  {
    match a
    case Visit(c, w) =>
      var b := VisitAct(x, c, w);
      x.(server := if b.Some? then Dispatch.Next(x.server, b.value) else x.server,
         todo := x.todo[1..], waiting := x.reading)
    case Take => x.(server := Dispatch.Next(x.server, Dispatch.ReadPipe), waiting := false)
    case Work(b) => x.(server := Dispatch.Next(x.server, b))
    case Interrupt => x.(server := Dispatch.Next(x.server, Dispatch.InterruptSignal))
  }

  /** Before the threads are joined there are no terminators, and workers exit on the flag only. */
  ghost predicate Quiet(s: Dispatch.Server)
  {
    !s.draining ==> Dispatch.Terminator !in s.queue && (!s.shutdown ==> Dispatch.Exited !in s.workers)
  }

  lemma QuietStep(s: Dispatch.Server, a: Dispatch.Act)
    requires Quiet(s) && Dispatch.Enabled(s, a)
    ensures Quiet(Dispatch.Next(s, a))
  {
    if Dispatch.IsWorkerAct(a) && a.Dequeue? {
      assert s.queue[0] in s.queue;
    }
  }

  lemma {:induction false} QuietAt(ss: seq<Dispatch.Server>, acts: seq<Dispatch.Act>, n: nat, i: nat)
    requires Dispatch.IsRun(ss, acts) && ss[0] == Dispatch.Start(n) && i < |ss|
    ensures Quiet(ss[i])
  {
    if i > 0 {
      QuietAt(ss, acts, n, i - 1);
      assert ss[i] == Dispatch.Next(ss[i - 1], acts[i - 1]);
      QuietStep(ss[i - 1], acts[i - 1]);
    }
  }

  /** The clients still to be visited are selected; no client has the descriptor of the pipe or of the
      listening socket, which is ready only while connections are accepted. */
  ghost predicate ScanInv(x: State)
  {
    && Dispatch.DispatchInv(x.server) && !x.server.draining && Quiet(x.server)
    && Unvisited(x) && (x.waiting || x.pipeFd in x.todo ==> x.reading)
  }

  ghost predicate Unvisited(x: State)
  {
    && NoDup(x.todo) && x.pipeFd != x.listenFd
    && x.pipeFd !in x.server.live && x.listenFd !in x.server.live
    && (x.listenFd in x.todo ==> x.server.accepting)
    && forall c :: c in x.todo && c != x.pipeFd && c != x.listenFd ==> c in x.server.selected
  }

  /** A loop that is not waiting can always visit the next ready descriptor. */
  lemma VisitReady(x: State, accepted: Fd) returns (signalled: nat)
    requires ScanInv(x) && !x.waiting && x.todo != []
    requires accepted !in x.server.live && accepted != x.pipeFd && accepted != x.listenFd
    ensures Enabled(x, Visit(accepted, signalled))
  {
    signalled := 0;
    if Dispatch.Waiting in x.server.workers {
      signalled :| 0 <= signalled < |x.server.workers| && x.server.workers[signalled] == Dispatch.Waiting;
    }
  }

  lemma SelectedIsLive(s: Dispatch.Server, c: Fd)
    requires Dispatch.Conserved(s) && c in s.selected
    ensures c in s.live && Some(c) !in s.pipe
  {
    assert Dispatch.InOnePlace(s, c);
    Dispatch.OccursIn(s.pipe, Some(c));
  }

  /** No read delivers a descriptor still to be visited, and no new client is given one. */
  lemma DeliveredIsVisited(x: State, c: Fd)
    requires ScanInv(x) && c in x.todo
    ensures x.server.pipe != [] ==> x.server.pipe[0] != Some(c)
    ensures forall w, d :: Enabled(x, Visit(d, w)) && x.todo[0] == x.listenFd ==> d != c
  {
    if c == x.pipeFd || c == x.listenFd {
      assert Dispatch.InOnePlace(x.server, c);
      Dispatch.OccursIn(x.server.pipe, Some(c));
    } else {
      SelectedIsLive(x.server, c);
    }
  }

  lemma VisitInv(x: State, c: Fd, w: nat)
    requires ScanInv(x) && Enabled(x, Visit(c, w))
    ensures ScanInv(Next(x, Visit(c, w)))
  {
    assert x.todo == [x.todo[0]] + x.todo[1..] && x.todo[0] !in x.todo[1..];
    if VisitAct(x, c, w).Some? {
      Dispatch.StepInv(x.server, VisitAct(x, c, w).value);
      QuietStep(x.server, VisitAct(x, c, w).value);
    }
  }

  /** What workers, reads and signals do leaves the unvisited ones alone. */
  lemma ServerInv(x: State, y: State, b: Dispatch.Act)
    requires ScanInv(x) && Dispatch.Enabled(x.server, b)
    requires Dispatch.IsWorkerAct(b) || b.ReadPipe? || b.InterruptSignal?
    requires y == x.(server := Dispatch.Next(x.server, b), waiting := y.waiting) && (y.waiting ==> x.waiting)
    ensures ScanInv(y)
  {
    Dispatch.StepInv(x.server, b);
    QuietStep(x.server, b);
    assert y.server.live <= x.server.live && x.server.selected <= y.server.selected;
  }

  /** Every act of the loop, of a worker and of a signal keeps the scan in order. */
  lemma ScanStep(x: State, a: Act)
    requires ScanInv(x) && Enabled(x, a)
    ensures ScanInv(Next(x, a))
  {
    match a
    case Visit(c, w) => VisitInv(x, c, w);
    case Take => ServerInv(x, Next(x, a), Dispatch.ReadPipe);
    case Work(b) => ServerInv(x, Next(x, a), b);
    case Interrupt => ServerInv(x, Next(x, a), Dispatch.InterruptSignal);
  }

  predicate Busy(w: Dispatch.Worker)
  {
    w.Serving? || w.Closing? || w.Returning?
  }

  function BusyOf(ws: seq<Dispatch.Worker>): nat
  {
    if ws == [] then 0 else (if Busy(ws[0]) then 1 else 0) + BusyOf(ws[1..])
  }

  lemma {:induction false} BusyUpdate(ws: seq<Dispatch.Worker>, i: nat, w: Dispatch.Worker)
    requires i < |ws|
    ensures BusyOf(ws[i := w]) == BusyOf(ws) - (if Busy(ws[i]) then 1 else 0) + (if Busy(w) then 1 else 0)
  {
    if i == 0 {
      assert ws[i := w][1..] == ws[1..];
    } else {
      assert ws[i := w][1..] == ws[1..][i - 1 := w];
      BusyUpdate(ws[1..], i - 1, w);
    }
  }

  /** The workers that are past the check of the shutdown flag and will take an item. */
  function Takers(ws: seq<Dispatch.Worker>): nat
  {
    Dispatch.Occurs(ws, Dispatch.Checking) + Dispatch.Occurs(ws, Dispatch.Waiting)
  }

  /** How many of that many queued clients will be served: all of them, but after the shutdown flag
      (or without any workers) no more than one for each worker past its check. */
  function Served(s: Dispatch.Server, clients: nat): nat
  {
    if (!s.shutdown && s.workers != []) || clients <= Takers(s.workers) then clients else Takers(s.workers)
  }

  /** The values that can still come out of the pipe when that many more clients are handed over. */
  function Supply(s: Dispatch.Server, more: nat): nat
  {
    |s.pipe| + BusyOf(s.workers) + Served(s, |s.queue| + more)
  }

  /** The clients still to be handed over. */
  function Coming(x: State, todo: seq<Fd>): nat
  {
    if todo == [] then 0
    else (if todo[0] == x.pipeFd || todo[0] == x.listenFd then 0 else 1) + Coming(x, todo[1..])
  }

  /** The values that can still come out of the pipe, less the reads still to be served. */
  function Balance(x: State): int
  {
    Supply(x.server, Coming(x, x.todo)) - |x.todo| - (if x.waiting then 1 else 0)
  }

  lemma WorkerSupply(s: Dispatch.Server, a: Dispatch.Act, more: nat)
    requires Dispatch.Enabled(s, a) && Dispatch.IsWorkerAct(a) && !s.draining && Quiet(s)
    ensures Supply(Dispatch.Next(s, a), more) == Supply(s, more)
  {
    var w := Dispatch.Next(s, a).workers[a.i];
    BusyUpdate(s.workers, a.i, w);
    Dispatch.OccursUpdate(s.workers, a.i, w, Dispatch.Checking);
    Dispatch.OccursUpdate(s.workers, a.i, w, Dispatch.Waiting);
    Dispatch.OccursIn(s.workers, Dispatch.Checking);
  }

  lemma {:induction false} SignalSupply(ws: seq<Dispatch.Worker>, w: nat)
    requires Dispatch.SignalOk(ws, w)
    ensures BusyOf(Dispatch.Signal(ws, w)) == BusyOf(ws) && Takers(Dispatch.Signal(ws, w)) == Takers(ws)
  {
    Dispatch.SignalCount(ws, w, Dispatch.Waiting);
    Dispatch.OccursIn(ws, Dispatch.Waiting);
    if Dispatch.Waiting in ws {
      BusyUpdate(ws, w, Dispatch.Checking);
    }
  }

  lemma {:induction false} ComingOf(x: State, y: State, todo: seq<Fd>)
    requires y.pipeFd == x.pipeFd && y.listenFd == x.listenFd
    ensures Coming(x, todo) == Coming(y, todo)
  {
    if todo != [] {
      ComingOf(x, y, todo[1..]);
    }
  }

  /** While the pipe is being read, no act of the loop or of a worker changes the balance, and an
      interrupt cannot raise it. */
  lemma BalanceStep(x: State, a: Act)
    requires ScanInv(x) && Enabled(x, a) && x.reading
    ensures if a.Interrupt? then Balance(Next(x, a)) <= Balance(x) else Balance(Next(x, a)) == Balance(x)
  {
    var y := Next(x, a);
    ComingOf(x, y, y.todo);
    match a
    case Visit(c, w) =>
      if x.todo[0] != x.pipeFd && x.todo[0] != x.listenFd {
        SignalSupply(x.server.workers, w);
      }
    case Take =>
    case Work(b) => WorkerSupply(x.server, b, Coming(x, x.todo));
    case Interrupt =>
  }

  lemma {:induction false} ComingCounts(x: State, todo: seq<Fd>)
    requires NoDup(todo) && x.pipeFd != x.listenFd
    ensures Coming(x, todo)
         == |todo| - (if x.pipeFd in todo then 1 else 0) - (if x.listenFd in todo then 1 else 0)
  {
    if todo != [] {
      assert todo == [todo[0]] + todo[1..] && todo[0] !in todo[1..];
      ComingCounts(x, todo[1..]);
    }
  }

  /** The loop waits in a read, and no value is in the pipe or can still come into it. */
  predicate Stuck(x: State)
  {
    x.waiting && Supply(x.server, 0) == 0
  }

  /** A stuck loop moves no more, and no step of a worker and no signal frees it. */
  lemma StuckStep(x: State, a: Act)
    requires ScanInv(x) && Stuck(x) && Enabled(x, a)
    ensures (a.Work? || a.Interrupt?) && Stuck(Next(x, a))
  {
    if a.Work? {
      WorkerSupply(x.server, a.a, 0);
    }
  }

  /** Within n steps of workers the pending read can go on. */
  ghost predicate CanTakeIn(x: State, n: nat)
    decreases n
  {
    Enabled(x, Take) || (n > 0 && exists b :: Enabled(x, Work(b)) && CanTakeIn(Next(x, Work(b)), n - 1))
  }

  lemma {:induction false} StuckForEver(x: State, n: nat)
    requires ScanInv(x) && Stuck(x)
    ensures !CanTakeIn(x, n)
    decreases n
  {
    if n > 0 {
      forall b | Enabled(x, Work(b))
        ensures !CanTakeIn(Next(x, Work(b)), n - 1)
      {
        StuckStep(x, Work(b));
        ScanStep(x, Work(b));
        StuckForEver(Next(x, Work(b)), n - 1);
      }
    }
  }

  /** Worker i is on its way to writing a value. */
  predicate Able(s: Dispatch.Server, i: nat)
  {
    i < |s.workers| &&
    match s.workers[i]
    case Top => !s.shutdown && s.queue != []
    case Checking => s.queue != []
    case w => Busy(w)
  }

  function Steps(w: Dispatch.Worker): nat
  {
    match w
    case Returning(_) => 1
    case Closing => 2
    case Serving(_) => 2
    case Checking => 3
    case Top => 4
    case _ => 0
  }

  /** Its own next steps bring the value, whatever the others do not do. */
  lemma {:induction false} AbleDelivers(x: State, i: nat) returns (n: nat)
    requires ScanInv(x) && x.waiting && (x.server.pipe != [] || Able(x.server, i))
    ensures CanTakeIn(x, n)
    decreases if x.server.pipe != [] then 0 else 1 + Steps(x.server.workers[i])
  {
    n := 0;
    if x.server.pipe == [] {
      var a := Work(Dispatch.NextActOf(x.server, i));
      assert x.server.queue != [] ==> x.server.queue[0] in x.server.queue;
      ScanStep(x, a);
      var m := AbleDelivers(Next(x, a), i);
      n := m + 1;
    }
  }

  lemma {:induction false} SomeBusy(ws: seq<Dispatch.Worker>) returns (i: nat)
    requires BusyOf(ws) > 0
    ensures i < |ws| && Busy(ws[i])
  {
    if Busy(ws[0]) {
      i := 0;
    } else {
      var j := SomeBusy(ws[1..]);
      i := j + 1;
    }
  }

  /** Whatever is deliverable is in the pipe or some worker, awake, is on its way to write it. */
  lemma SomebodyMoves(s: Dispatch.Server) returns (i: nat)
    requires Dispatch.DispatchInv(s) && !s.draining && Quiet(s) && Supply(s, 0) > 0
    ensures s.pipe != [] || Able(s, i)
  {
    i := 0;
    if s.pipe == [] {
      Dispatch.OccursIn(s.workers, Dispatch.Waiting);
      Dispatch.OccursIn(s.workers, Dispatch.Checking);
      if BusyOf(s.workers) > 0 {
        i := SomeBusy(s.workers);
      } else if Dispatch.Checking in s.workers {
        i :| 0 <= i < |s.workers| && s.workers[i] == Dispatch.Checking;
      } else {
        assert s.workers[0] in s.workers;
        NotBusy(s.workers, 0);
      }
    }
  }

  lemma {:induction false} NotBusy(ws: seq<Dispatch.Worker>, i: nat)
    requires BusyOf(ws) == 0 && i < |ws|
    ensures !Busy(ws[i])
  {
    if i > 0 {
      NotBusy(ws[1..], i - 1);
    }
  }

  /** Stuck means just that: no steps of workers, however many, let the read go on. */
  lemma StuckIff(x: State)
    requires ScanInv(x) && x.waiting
    ensures Stuck(x) <==> forall n: nat :: !CanTakeIn(x, n)
  {
    if Stuck(x) {
      forall n: nat
        ensures !CanTakeIn(x, n)
      {
        StuckForEver(x, n);
      }
    } else {
      var i := SomebodyMoves(x.server);
      var n := AbleDelivers(x, i);
      assert CanTakeIn(x, n);
    }
  }

  predicate Ended(x: State)
  {
    x.todo == [] && !x.waiting
  }

  /** Within n steps of anybody the scan can be over. */
  ghost predicate CanEndIn(x: State, n: nat)
    decreases n
  {
    Ended(x) || (n > 0 && exists a :: Enabled(x, a) && CanEndIn(Next(x, a), n - 1))
  }

  lemma {:induction false} EndNeedsBalance(x: State, n: nat)
    requires ScanInv(x) && x.reading && CanEndIn(x, n)
    ensures Balance(x) >= 0
    decreases n
  {
    if !Ended(x) {
      var a :| Enabled(x, a) && CanEndIn(Next(x, a), n - 1);
      ScanStep(x, a);
      BalanceStep(x, a);
      EndNeedsBalance(Next(x, a), n - 1);
    }
  }

  lemma {:induction false} ComingAtMost(x: State, todo: seq<Fd>)
    ensures Coming(x, todo) <= |todo|
  {
    if todo != [] {
      ComingAtMost(x, todo[1..]);
    }
  }

  /** A scan with enough values to come is not stuck. */
  lemma StuckNeedsDebt(x: State)
    requires Stuck(x)
    ensures Balance(x) < 0
  {
    ComingAtMost(x, x.todo);
  }

  lemma {:induction false} FreeDescriptor(live: set<Fd>, a: Fd, b: Fd) returns (c: Fd)
    ensures c > a && c > b && forall d :: d in live ==> d < c
    decreases live
  {
    if live == {} {
      c := a + b + 1;
    } else {
      var d :| d in live;
      var m := FreeDescriptor(live - {d}, a, b);
      c := if d < m then m else d + m + 1;
      assert forall e :: e in live ==> e == d || e in live - {d};
    }
  }

  /** With enough values to come, the loop and the workers can bring the scan to its end. */
  lemma {:induction false} Finish(x: State) returns (n: nat)
    requires ScanInv(x) && x.reading && Balance(x) >= 0
    ensures CanEndIn(x, n)
    decreases 2 * |x.todo| + (if x.waiting then 1 else 0), 1, 0
  {
    n := 0;
    if x.waiting {
      if Stuck(x) {
        StuckNeedsDebt(x);
      }
      var i := SomebodyMoves(x.server);
      var k := AbleDelivers(x, i);
      n := FinishAfter(x, k);
    } else if x.todo != [] {
      var c := FreeDescriptor(x.server.live, x.pipeFd, x.listenFd);
      var w := VisitReady(x, c);
      ScanStep(x, Visit(c, w));
      BalanceStep(x, Visit(c, w));
      n := Finish(Next(x, Visit(c, w)));
      n := n + 1;
    }
  }

  lemma {:induction false} FinishAfter(x: State, k: nat) returns (n: nat)
    requires ScanInv(x) && x.reading && x.waiting && Balance(x) >= 0 && CanTakeIn(x, k)
    ensures CanEndIn(x, n)
    decreases 2 * |x.todo| + 1, 0, k
  {
    if Enabled(x, Take) {
      ScanStep(x, Take);
      BalanceStep(x, Take);
      n := Finish(Next(x, Take));
    } else {
      var b :| Enabled(x, Work(b)) && CanTakeIn(Next(x, Work(b)), k - 1);
      ScanStep(x, Work(b));
      BalanceStep(x, Work(b));
      n := FinishAfter(Next(x, Work(b)), k - 1);
    }
    n := n + 1;
  }

  /** A scan can still be brought to its end exactly when enough values can still come. */
  lemma EndsIff(x: State)
    requires ScanInv(x) && x.reading
    ensures (exists n: nat :: CanEndIn(x, n)) <==> Balance(x) >= 0
  {
    if n: nat :| CanEndIn(x, n) {
      EndNeedsBalance(x, n);
    }
    if Balance(x) >= 0 {
      var n := Finish(x);
      assert CanEndIn(x, n);
    }
  }

  ghost predicate IsScan(xs: seq<State>, acts: seq<Act>)
  {
    && |xs| == |acts| + 1
    && forall i {:trigger acts[i]} :: 0 <= i < |acts| ==> Enabled(xs[i], acts[i]) && xs[i + 1] == Next(xs[i], acts[i])
  }

  lemma {:induction false} ScanAt(xs: seq<State>, acts: seq<Act>, i: nat)
    requires IsScan(xs, acts) && ScanInv(xs[0]) && xs[0].reading && i < |xs|
    ensures ScanInv(xs[i]) && xs[i].reading && Balance(xs[i]) <= Balance(xs[0])
    ensures Interrupt !in acts ==> Balance(xs[i]) == Balance(xs[0])
  {
    if i > 0 {
      ScanAt(xs, acts, i - 1);
      assert Enabled(xs[i - 1], acts[i - 1]) && xs[i] == Next(xs[i - 1], acts[i - 1]);
      ScanStep(xs[i - 1], acts[i - 1]);
      BalanceStep(xs[i - 1], acts[i - 1]);
      assert acts[i - 1] in acts;
    }
  }

  /** In every state of every scan: with too few values to come it never ends, whatever happens; with
      enough it is not stuck, and stays so in every schedule until an interrupt. */
  lemma HangsNeverEnds(xs: seq<State>, acts: seq<Act>, i: nat)
    requires IsScan(xs, acts) && ScanInv(xs[0]) && xs[0].reading && i < |xs|
    ensures Balance(xs[0]) < 0 ==> !Ended(xs[i])
    ensures Balance(xs[0]) >= 0 && Interrupt !in acts ==> !Stuck(xs[i]) && exists n: nat :: CanEndIn(xs[i], n)
  {
    ScanAt(xs, acts, i);
    EndsIff(xs[i]);
    if Stuck(xs[i]) {
      StuckNeedsDebt(xs[i]);
    }
  }

  /** The scan begins: select has reported the pipe ready, so there is a value in it. */
  ghost predicate Begins(x: State)
  {
    ScanInv(x) && !x.waiting && x.reading && x.pipeFd in x.todo && x.server.pipe != []
  }

  /** While the server is not shutting down, what makes a scan hang can be seen when select reports:
      the listening socket is ready beside the pipe, and only one value is on its way. The read after
      each of the two is served by no value of its own. */
  lemma HangsIff(x: State)
    requires Begins(x) && !x.server.shutdown && x.server.workers != []
    ensures Balance(x) < 0 <==>
              x.listenFd in x.todo && |x.server.pipe| + |x.server.queue| + BusyOf(x.server.workers) == 1
  {
    ComingCounts(x, x.todo);
  }

  /** After the shutdown flag a scan of the pipe and one client can hang too: the workers past their
      check are too few. */
  lemma HangsIffShutdown(x: State)
    requires Begins(x) && x.server.shutdown
    ensures var clients := |x.todo| - 1 - (if x.listenFd in x.todo then 1 else 0);
            var served := if |x.server.queue| + clients <= Takers(x.server.workers) then |x.server.queue| + clients
                          else Takers(x.server.workers);
            Balance(x) < 0 <==> |x.server.pipe| + BusyOf(x.server.workers) + served < |x.todo|
  {
    ComingCounts(x, x.todo);
  }

  /** One worker, about to exit: it has given back client 5 and client 8 is ready beside the pipe. */
  function LastWorker(shutdown: bool): State
  {
    State(
      Dispatch.Server({8}, [], [Dispatch.Top], [Some(5)], {5, 8}, 2, true, shutdown, false, 0),
      [4, 8], true, false, 4, 3)
  }

  lemma LastWorkerInv(shutdown: bool)
    ensures Begins(LastWorker(shutdown))
  {
    var s := LastWorker(shutdown).server;
    forall c
      ensures Dispatch.InOnePlace(s, c)
    {
    }
    assert |s.live| == 2;
  }

  /** The scan can end before the flag is set and not after: the interrupt alone makes it hang. */
  lemma InterruptHangs()
    ensures Begins(LastWorker(false)) && exists n: nat :: CanEndIn(LastWorker(false), n)
    ensures Next(LastWorker(false), Interrupt) == LastWorker(true)
    ensures Begins(LastWorker(true)) && forall n: nat :: !CanEndIn(LastWorker(true), n)
  {
    LastWorkerInv(false);
    LastWorkerInv(true);
    HangsIff(LastWorker(false));
    HangsIffShutdown(LastWorker(true));
    EndsIff(LastWorker(false));
    EndsIff(LastWorker(true));
  }
}
