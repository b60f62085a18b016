/** The descriptor set of the select loop and the bound fd_max that one scan runs up to, while the
    scan itself moves both (server/server.c). */
module Selectors {
  import opened Basics

  /** What one scan meets: the descriptors select reported, in increasing order, whether connections
      are accepted, the descriptor a new client would get, and the values that reads of the worker
      pipe deliver while the scan goes on (None for a closed client), also those that workers write
      meanwhile. */
  datatype Scan = Scan(
    ready: seq<nat>, pipeFd: nat, listenFd: nat, accepting: bool, accepted: nat, pipe: seq<Option<Fd>>)
  {
    /** A ready descriptor not yet visited is open and still selected: it is not a new client's, and no
        worker holds it to give it back. One visited before may be either. */
    ghost predicate Ok()
    {
      && Increasing(ready) && pipeFd != listenFd && (accepted in ready ==> accepted < listenFd)
      && forall k, j :: 0 <= k < |pipe| && k < j < |ready| ==> pipe[k] != Some(ready[j])
    }

    predicate Reading()
    {
      pipeFd in ready
    }

    /** The ready descriptors that go to the workers: all but the worker pipe, and but the listening
        socket while connections are accepted. */
    predicate GoesToWorkers(fd: nat)
    {
      fd != pipeFd && !(fd == listenFd && accepting)
    }
  }

  class Selector {
    var selected: set<nat>
    var fdMax: int

    constructor (fdMax: int)
      ensures selected == {} && this.fdMax == fdMax
    {
      selected, this.fdMax := {}, fdMax;
    }

    ghost predicate Bounded()
      reads this
    {
      forall fd :: fd in selected ==> fd <= fdMax
    }

    method Add(fd: nat)
      requires Bounded()
      modifies this
      ensures Bounded() && selected == old(selected) + {fd} && fdMax == if fd > old(fdMax) then fd else old(fdMax)
    {
      selected := selected + {fd};
      if fd > fdMax {
        fdMax := fd;
      }
    }

    /** The bound is lowered by one only, so it may be loose, but it stays a bound. */
    method Clear(fd: nat)
      requires Bounded()
      modifies this
      ensures Bounded() && selected == old(selected) - {fd}
      ensures fdMax == if fd == old(fdMax) then old(fdMax) - 1 else old(fdMax)
    {
      selected := selected - {fd};
      if fd == fdMax {
        fdMax := fdMax - 1;
      }
    }

    /** A signal arrived: neither its pipe nor the listening socket is selected any more. */
    method OnSignal(signalFd: nat, listenFd: nat)
      requires Bounded()
      modifies this
      ensures Bounded() && selected == old(selected) - {signalFd, listenFd}
    {
      Clear(signalFd);
      Clear(listenFd);
    }

    /** One ready descriptor of a scan: a new client is accepted, or the descriptor is handed over. */
    method Visit(fd: nat, listenFd: nat, accepting: bool, accepted: nat) returns (handed: bool)
      requires Bounded() && fd in selected
      modifies this
      ensures Bounded() && handed == !(fd == listenFd && accepting)
      ensures selected == if handed then old(selected) - {fd} else old(selected) + {accepted}
      ensures fdMax >= old(fdMax) || (fd == old(fdMax) && fdMax == fd - 1)
    {
      handed := !(fd == listenFd && fd in selected && accepting);
      if handed {
        Clear(fd);
      } else {
        Add(accepted);
      }
    }

    /** A value from the pipe: a descriptor to select again, or none for a client that has closed. */
    method TakeBack(value: Option<Fd>)
      requires Bounded()
      modifies this
      ensures Bounded() && fdMax >= old(fdMax)
      ensures selected == old(selected) + OneOf(value)
    {
      if value.Some? {
        Add(value.value);
      }
    }

    /** What the scan does at one ready descriptor: the pipe itself is only read from. */
    method VisitAndTake(fd: nat, pipeFd: nat, listenFd: nat, accepting: bool, accepted: nat, value: Option<Fd>)
        returns (handed: bool)
      requires Bounded() && fd in selected
      modifies this
      ensures Bounded() && handed == (fd != pipeFd && !(fd == listenFd && accepting))
      ensures handed ==> selected == old(selected) - {fd} + OneOf(value)
      ensures !handed && fd == pipeFd ==> selected == old(selected) + OneOf(value)
      ensures !handed && fd != pipeFd ==> selected == old(selected) + {accepted} + OneOf(value)
      ensures fdMax >= old(fdMax) || (fd == old(fdMax) && fdMax == fd - 1)
    {
      handed := false;
      if fd != pipeFd {
        handed := Visit(fd, listenFd, accepting, accepted);
      }
      TakeBack(value);
    }

    /** Visits one ready descriptor and reads the pipe for it; blocked when no more values come. */
    method ScanOne(scan: Scan, m: nat, queued: seq<nat>, taken: nat, ghost start: set<nat>)
        returns (blocked: bool, queued': seq<nat>, taken': nat)
      requires Bounded() && scan.Ok() && m < |scan.ready| && (forall r :: r in scan.ready ==> r in start)
      requires Progress(start, scan, m, queued, taken, selected) && (scan.Reading() ==> m <= |scan.pipe|)
      modifies this
      ensures Bounded() && (blocked <==> scan.Reading() && m == |scan.pipe|)
      ensures Progress(start, scan, m + 1, queued', taken', selected)
      ensures fdMax >= old(fdMax) || (scan.ready[m] == old(fdMax) && fdMax == old(fdMax) - 1)
    {
      var fd := scan.ready[m];
      StillSelected(start, scan, m, queued, taken, selected, m);
      blocked := scan.Reading() && taken == |scan.pipe|;
      var value := if scan.Reading() && !blocked then scan.pipe[taken] else None;
      var handed := VisitAndTake(fd, scan.pipeFd, scan.listenFd, scan.accepting, scan.accepted, value);
      queued', taken' := queued, taken;
      if handed {
        queued' := queued + [fd];
      }
      if scan.Reading() && !blocked {
        taken' := taken + 1;
      }
      StandingStep(start, scan, m, taken, taken', value);
    }

    /** The body of the scan's loop at descriptor fd, whether it is ready or not. */
    method ScanAt(scan: Scan, fd: nat, ghost m: nat, queued: seq<nat>, taken: nat, ghost start: set<nat>)
        returns (blocked: bool, queued': seq<nat>, taken': nat, ghost m': nat)
      requires Bounded() && scan.Ok() && Reached(scan, fd, m) && (forall r :: r in scan.ready ==> r in start)
      requires Progress(start, scan, m, queued, taken, selected) && (scan.Reading() ==> m <= |scan.pipe|)
      modifies this
      ensures Bounded() && Reached(scan, fd + 1, m') && Progress(start, scan, m', queued', taken', selected)
      ensures blocked <==> scan.Reading() && m' > |scan.pipe|
      ensures m' == if fd in scan.ready then m + 1 else m
      ensures m' == m ==> fdMax == old(fdMax)
    {
      IsNext(scan, fd, m);
      blocked, queued', taken', m' := false, queued, taken, m;
      if fd in scan.ready {
        blocked, queued', taken' := ScanOne(scan, RankOf(scan.ready, fd), queued, taken, start);
        m' := m + 1;
      }
    }

    /** One scan over the descriptors that select reported ready. The pipe is read once for every
        ready descriptor, so the scan ends exactly when as many values come; then every ready
        descriptor was visited, although the bound moves. Otherwise it stays in a read after visiting
        the lowest ones, one more than values came. In both cases what was visited, but for the pipe
        and a new connection, was handed over in order, and the set has lost exactly that and gained
        exactly the new client and those taken back. */
    method ScanAll(scan: Scan) returns (blocked: bool, queued: seq<nat>, taken: nat, ghost visited: nat)
      requires Bounded() && scan.Ok() && forall r :: r in scan.ready ==> r in selected
      modifies this
      ensures Bounded()
      ensures blocked <==> scan.Reading() && |scan.pipe| < |scan.ready|
      ensures visited == if blocked then |scan.pipe| + 1 else |scan.ready|
      ensures Progress(old(selected), scan, visited, queued, taken, selected)
    {
      blocked, queued, taken, visited := false, [], 0, 0;
      var fd: nat := 0;
      NothingSeen(selected, scan);
      while fd <= fdMax
        invariant Bounded() && Reached(scan, fd, visited)
        invariant Progress(old(selected), scan, visited, queued, taken, selected)
        invariant scan.Reading() ==> visited <= |scan.pipe|
        decreases |scan.ready| - visited, fdMax - fd
      {
        blocked, queued, taken, visited := ScanAt(scan, fd, visited, queued, taken, old(selected));
        if blocked {
          return;
        }
        fd := fd + 1;
      }
      if visited < |scan.ready| {
        StillSelected(old(selected), scan, visited, queued, taken, selected, visited);
        assert false;
      }
    }
  }

  /** The scan has come to fd after visiting the first m ready descriptors. */
  ghost predicate Reached(scan: Scan, fd: nat, m: nat)
  {
    && m <= |scan.ready|
    && (m > 0 ==> scan.ready[m - 1] < fd) && (m < |scan.ready| ==> fd <= scan.ready[m])
  }

  lemma IsNext(scan: Scan, fd: nat, m: nat)
    requires scan.Ok() && Reached(scan, fd, m)
    ensures fd in scan.ready <==> m < |scan.ready| && scan.ready[m] == fd
    ensures fd in scan.ready ==> RankOf(scan.ready, fd) == m && Reached(scan, fd + 1, m + 1)
    ensures fd !in scan.ready ==> Reached(scan, fd + 1, m)
  {
    if fd in scan.ready {
      var j := RankOf(scan.ready, fd);
      assert j == m;
    }
  }

  /** Where fd is in the order of visits. */
  function RankOf(ready: seq<nat>, fd: nat): (j: nat)
    requires fd in ready
    ensures j < |ready| && ready[j] == fd
  {
    if ready[0] == fd then 0 else 1 + RankOf(ready[1..], fd)
  }

  lemma NothingSeen(start: set<nat>, scan: Scan)
    ensures Progress(start, scan, 0, [], 0, start)
  {
    assert Members([]) == {};
  }

  /** Where a scan stands after m visits, with now selected: one value has been read for each, as far
      as values came. */
  ghost predicate Progress(start: set<nat>, scan: Scan, m: nat, queued: seq<nat>, taken: nat, now: set<nat>)
  {
    && m <= |scan.ready| && taken == ValuesRead(scan, m)
    && queued == HandedOver(scan, m)
    && now == Standing(start, scan, m, taken)
  }

  function ValuesRead(scan: Scan, visited: nat): (n: nat)
    ensures n <= |scan.pipe|
  {
    if !scan.Reading() then 0 else if visited <= |scan.pipe| then visited else |scan.pipe|
  }

  /** Of the first m visited, those that went to the workers. */
  function HandedOver(scan: Scan, m: nat): seq<nat>
    requires m <= |scan.ready|
  {
    if m == 0 then []
    else
      HandedOver(scan, m - 1) + if scan.GoesToWorkers(scan.ready[m - 1]) then [scan.ready[m - 1]] else []
  }

  /** The set loses what was handed over and gains the new client and what came back. */
  ghost function Standing(start: set<nat>, scan: Scan, m: nat, taken: nat): set<nat>
    requires m <= |scan.ready| && taken <= |scan.pipe|
  {
    start - Members(HandedOver(scan, m)) + NewClient(scan, m) + Descriptors(scan.pipe, taken)
  }

  ghost function NewClient(scan: Scan, m: nat): set<nat>
    requires m <= |scan.ready|
  {
    if scan.listenFd in scan.ready[..m] && scan.accepting then {scan.accepted} else {}
  }

  /** What is handed over is exactly the ready descriptors that go to the workers, in increasing order. */
  lemma {:induction false} HandedOverIs(scan: Scan, m: nat)
    requires scan.Ok() && m <= |scan.ready|
    ensures Increasing(HandedOver(scan, m))
    ensures forall fd :: fd in HandedOver(scan, m) <==> fd in scan.ready[..m] && scan.GoesToWorkers(fd)
  {
    if m == 0 {
    } else {
      HandedOverIs(scan, m - 1);
      assert scan.ready[..m] == scan.ready[..m - 1] + [scan.ready[m - 1]];
      LargestLast(HandedOver(scan, m - 1), scan.ready[m - 1]);
    }
  }

  /** A descriptor not yet visited has been neither handed over nor touched. */
  lemma StillSelected(start: set<nat>, scan: Scan, m: nat, queued: seq<nat>, taken: nat, now: set<nat>, j: nat)
    requires scan.Ok() && Progress(start, scan, m, queued, taken, now)
    requires m <= j < |scan.ready| && scan.ready[j] in start
    ensures scan.ready[j] in now
  {
    HandedOverIs(scan, m);
  }

  /** The set after visiting fd and reading the value. */
  ghost function After(scan: Scan, now: set<nat>, fd: nat, value: Option<Fd>): set<nat>
  {
    (if scan.GoesToWorkers(fd) then now - {fd} else if fd == scan.pipeFd then now else now + {scan.accepted})
    + OneOf(value)
  }

  lemma StandingStep(start: set<nat>, scan: Scan, m: nat, taken: nat, taken': nat, value: Option<Fd>)
    requires scan.Ok() && m < |scan.ready| && taken == ValuesRead(scan, m) && taken <= taken' <= |scan.pipe|
    requires if taken' == taken then value == None else taken' == taken + 1 && value == scan.pipe[taken]
    ensures After(scan, Standing(start, scan, m, taken), scan.ready[m], value) == Standing(start, scan, m + 1, taken')
  {
    var n, back := NewClient(scan, m), Descriptors(scan.pipe, taken);
    NotTouched(scan, m, taken);
    PartsNext(scan, m);
    assert Descriptors(scan.pipe, taken') == back + OneOf(value);
    SetsAgree(start, Members(HandedOver(scan, m)), n, back, OneOf(value), scan.ready[m], scan.accepted);
  }

  lemma PartsNext(scan: Scan, m: nat)
    requires m < |scan.ready|
    ensures var gone, fd := Members(HandedOver(scan, m)), scan.ready[m];
            Members(HandedOver(scan, m + 1)) == if scan.GoesToWorkers(fd) then gone + {fd} else gone
    ensures var n, fd := NewClient(scan, m), scan.ready[m];
            NewClient(scan, m + 1) == if fd == scan.listenFd && scan.accepting then n + {scan.accepted} else n
  {
    assert scan.ready[..m + 1] == scan.ready[..m] + [scan.ready[m]];
  }

  lemma SetsAgree(start: set<nat>, gone: set<nat>, n: set<nat>, back: set<nat>, more: set<nat>, fd: nat, new': nat)
    requires fd !in n && fd !in back
    ensures start - gone + n + back - {fd} + more == start - (gone + {fd}) + n + (back + more)
    ensures start - gone + n + back + more == start - gone + n + (back + more)
    ensures start - gone + n + back + {new'} + more == start - gone + (n + {new'}) + (back + more)
  {
  }

  /** The next to be visited is neither the new client's nor among the values read so far. */
  lemma NotTouched(scan: Scan, m: nat, taken: nat)
    requires scan.Ok() && m < |scan.ready| && taken <= m && taken <= |scan.pipe|
    ensures scan.ready[m] !in NewClient(scan, m) && scan.ready[m] !in Descriptors(scan.pipe, taken)
    ensures scan.ready[m] !in scan.ready[..m]
  {
    DescriptorsAre(scan.pipe, taken, scan.ready[m]);
  }

  lemma {:induction false} DescriptorsAre(pipe: seq<Option<Fd>>, k: nat, fd: nat)
    requires k <= |pipe|
    ensures fd in Descriptors(pipe, k) <==> Some(fd) in pipe[..k]
  {
    if k == 0 {
    } else {
      DescriptorsAre(pipe, k - 1, fd);
      assert pipe[..k] == pipe[..k - 1] + [pipe[k - 1]];
    }
  }

  ghost predicate Increasing(q: seq<nat>)
  {
    forall i, j :: 0 <= i < j < |q| ==> q[i] < q[j]
  }

  lemma LargestLast(q: seq<nat>, x: nat)
    requires Increasing(q) && forall y :: y in q ==> y < x
    ensures Increasing(q + [x])
  {
    assert forall i :: 0 <= i < |q| ==> q[i] in q;
  }

  ghost function Members(q: seq<nat>): set<nat>
  {
    set fd | fd in q
  }

  ghost function OneOf(value: Option<Fd>): set<nat>
  {
    if value.Some? then {value.value} else {}
  }

  /** The descriptors among the first k values of the pipe. */
  ghost function Descriptors(pipe: seq<Option<Fd>>, k: nat): set<nat>
    requires k <= |pipe|
  {
    if k == 0 then {} else Descriptors(pipe, k - 1) + OneOf(pipe[k - 1])
  }
}
