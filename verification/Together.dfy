/** One scan seen twice: as acts of the loop among the workers, and as the walk over the descriptor
    set up to fd_max. The values its reads deliver make the walk end whenever the acts do. */
module Together {
  import opened Basics
  import Dispatch
  import Scanning
  import Selectors

  /** The values taken from the pipe by the first i acts. */
  ghost function Taken(xs: seq<Scanning.State>, acts: seq<Scanning.Act>, i: nat): seq<Option<Fd>>
    requires Scanning.IsScan(xs, acts) && i <= |acts|
  {
    if i == 0 then []
    else if acts[i - 1] == Scanning.Take then
      assert Scanning.Enabled(xs[i - 1], acts[i - 1]);
      Taken(xs, acts, i - 1) + [xs[i - 1].server.pipe[0]]
    else Taken(xs, acts, i - 1)
  }

  /** The client accepted by the first i acts, if any. */
  ghost function Accepted(xs: seq<Scanning.State>, acts: seq<Scanning.Act>, i: nat): Option<Fd>
    requires Scanning.IsScan(xs, acts) && i <= |acts|
  {
    if i == 0 then None
    else if acts[i - 1].Visit? && xs[i - 1].todo != [] && xs[i - 1].todo[0] == xs[i - 1].listenFd then
      Some(acts[i - 1].accepted)
    else Accepted(xs, acts, i - 1)
  }

  ghost function Back(taken: seq<Option<Fd>>): set<Fd>
  {
    set v | v in taken && v.Some? :: v.value
  }

  ghost function Clients(x: Scanning.State, q: seq<Fd>): set<Fd>
  {
    set c | c in q && c != x.pipeFd && c != x.listenFd
  }

  /** From x to y the scan has visited the first m descriptors, read the values taken and accepted a
      client; the rest is still to be visited. */
  ghost predicate Tied(x: Scanning.State, y: Scanning.State, m: nat, taken: seq<Option<Fd>>, accepted: Option<Fd>)
  {
    && y.pipeFd == x.pipeFd && y.listenFd == x.listenFd && y.reading == x.reading
    && m <= |x.todo| && y.todo == x.todo[m..]
    && |taken| + (if y.waiting then 1 else 0) == (if x.reading then m else 0)
    && (forall k, j :: 0 <= k < |taken| && k < j < |x.todo| ==> taken[k] != Some(x.todo[j]))
    && (accepted.Some? <==> x.listenFd in x.todo[..m])
    && (accepted.Some? && accepted.value in x.todo ==> accepted.value < x.listenFd)
    && y.server.selected
       == x.server.selected - Clients(x, x.todo[..m]) + Selectors.OneOf(accepted) + Back(taken)
  }

  /** A scan begins: nothing visited yet, in increasing order. */
  ghost predicate Fresh(x: Scanning.State)
  {
    Scanning.ScanInv(x) && !x.waiting && Selectors.Increasing(x.todo)
  }

  lemma OneMore(x: Scanning.State, m: nat)
    requires Selectors.Increasing(x.todo) && m < |x.todo|
    ensures x.todo[..m + 1] == x.todo[..m] + [x.todo[m]] && x.todo[m] !in x.todo[..m]
    ensures var fd := x.todo[m];
            Clients(x, x.todo[..m + 1])
            == Clients(x, x.todo[..m]) + if fd == x.pipeFd || fd == x.listenFd then {} else {fd}
  {
    assert x.todo[..m + 1] == x.todo[..m] + [x.todo[m]];
  }

  /** A client about to be visited is not among those come back, nor the one accepted. */
  lemma NotBackYet(x: Scanning.State, y: Scanning.State, m: nat, taken: seq<Option<Fd>>, accepted: Option<Fd>)
    requires Selectors.Increasing(x.todo) && Tied(x, y, m, taken, accepted) && m < |x.todo|
    ensures x.todo[m] !in Back(taken) && x.todo[m] !in Selectors.OneOf(accepted)
  {
    if accepted.Some? {
      var j :| 0 <= j < m && x.todo[..m][j] == x.listenFd;
      assert x.todo[j] < x.todo[m];
    }
  }

  lemma TiedVisit(x: Scanning.State, y: Scanning.State, m: nat, taken: seq<Option<Fd>>, accepted: Option<Fd>,
                  c: Fd, w: nat)
    requires Selectors.Increasing(x.todo) && x.pipeFd != x.listenFd && Tied(x, y, m, taken, accepted)
    requires Scanning.Enabled(y, Scanning.Visit(c, w))
    requires y.todo[0] == y.listenFd && c in x.todo ==> c < y.listenFd
    ensures var accepted' := if y.todo[0] == y.listenFd then Some(c) else accepted;
            Tied(x, Scanning.Next(y, Scanning.Visit(c, w)), m + 1, taken, accepted')
  {
    var fd := x.todo[m];
    OneMore(x, m);
    if fd != x.listenFd && fd != x.pipeFd {
      NotBackYet(x, y, m, taken, accepted);
      SetsAgree(x.server.selected, Clients(x, x.todo[..m]), Selectors.OneOf(accepted), Back(taken), fd);
    }
  }

  lemma SetsAgree(start: set<Fd>, gone: set<Fd>, n: set<Fd>, back: set<Fd>, fd: Fd)
    requires fd !in n && fd !in back
    ensures start - gone + n + back - {fd} == start - (gone + {fd}) + n + back
  {
  }

  /** A new client gets no descriptor still to be visited, so at most one below the listening socket. */
  lemma NewClientNotAhead(x: Scanning.State, y: Scanning.State, m: nat, c: Fd, w: nat)
    requires Fresh(x) && Scanning.ScanInv(y) && m < |x.todo| && y.todo == x.todo[m..]
    requires x.todo[m] == y.listenFd && Scanning.Enabled(y, Scanning.Visit(c, w))
    ensures c in x.todo ==> c < y.listenFd
  {
    if c in x.todo {
      var j :| 0 <= j < |x.todo| && x.todo[j] == c;
      if j >= m {
        assert y.todo[j - m] == c;
        Scanning.DeliveredIsVisited(y, c);
      }
    }
  }

  lemma TiedTake(x: Scanning.State, y: Scanning.State, m: nat, taken: seq<Option<Fd>>, accepted: Option<Fd>)
    requires Tied(x, y, m, taken, accepted) && Scanning.Enabled(y, Scanning.Take)
    requires forall j :: m <= j < |x.todo| ==> y.server.pipe[0] != Some(x.todo[j])
    ensures Tied(x, Scanning.Next(y, Scanning.Take), m, taken + [y.server.pipe[0]], accepted)
  {
    var v := y.server.pipe[0];
    assert Back(taken + [v]) == Back(taken) + Selectors.OneOf(v);
  }

  lemma ValueNotAhead(x: Scanning.State, y: Scanning.State, m: nat)
    requires Scanning.ScanInv(y) && m <= |x.todo| && y.todo == x.todo[m..] && y.server.pipe != []
    ensures forall j :: m <= j < |x.todo| ==> y.server.pipe[0] != Some(x.todo[j])
  {
    forall j | m <= j < |x.todo|
      ensures y.server.pipe[0] != Some(x.todo[j])
    {
      assert y.todo[j - m] == x.todo[j];
      Scanning.DeliveredIsVisited(y, x.todo[j]);
    }
  }

  lemma TiedServer(x: Scanning.State, y: Scanning.State, m: nat, taken: seq<Option<Fd>>, accepted: Option<Fd>,
                   a: Scanning.Act)
    requires Tied(x, y, m, taken, accepted) && (a.Work? || a.Interrupt?) && Scanning.Enabled(y, a)
    ensures Tied(x, Scanning.Next(y, a), m, taken, accepted)
  {
  }

  lemma TiedStep(xs: seq<Scanning.State>, acts: seq<Scanning.Act>, i: nat, m: nat)
    requires Scanning.IsScan(xs, acts) && Fresh(xs[0]) && i < |acts| && Scanning.ScanInv(xs[i])
    requires Tied(xs[0], xs[i], m, Taken(xs, acts, i), Accepted(xs, acts, i))
    ensures Scanning.ScanInv(xs[i + 1])
    ensures var m' := if acts[i].Visit? then m + 1 else m;
            Tied(xs[0], xs[i + 1], m', Taken(xs, acts, i + 1), Accepted(xs, acts, i + 1))
  {
    var y, a := xs[i], acts[i];
    assert Scanning.Enabled(y, a) && xs[i + 1] == Scanning.Next(y, a);
    Scanning.ScanStep(y, a);
    match a
    case Visit(c, w) =>
      if y.todo[0] == y.listenFd {
        NewClientNotAhead(xs[0], y, m, c, w);
      }
      TiedVisit(xs[0], y, m, Taken(xs, acts, i), Accepted(xs, acts, i), c, w);
    case Take =>
      ValueNotAhead(xs[0], y, m);
      TiedTake(xs[0], y, m, Taken(xs, acts, i), Accepted(xs, acts, i));
    case _ => TiedServer(xs[0], y, m, Taken(xs, acts, i), Accepted(xs, acts, i), a);
  }

  lemma TiedStart(x: Scanning.State)
    requires Fresh(x)
    ensures Tied(x, x, 0, [], None)
  {
  }

  lemma {:induction false} TiedAt(xs: seq<Scanning.State>, acts: seq<Scanning.Act>, i: nat) returns (m: nat)
    requires Scanning.IsScan(xs, acts) && Fresh(xs[0]) && i <= |acts|
    ensures Scanning.ScanInv(xs[i]) && Tied(xs[0], xs[i], m, Taken(xs, acts, i), Accepted(xs, acts, i))
  {
    m := 0;
    if i == 0 {
      TiedStart(xs[0]);
    } else {
      var k := TiedAt(xs, acts, i - 1);
      TiedStep(xs, acts, i - 1, k);
      m := if acts[i - 1].Visit? then k + 1 else k;
    }
  }

  /** What the walk meets when the acts are these; free stands for the new client's descriptor while
      there is none. */
  ghost function ScanOf(xs: seq<Scanning.State>, acts: seq<Scanning.Act>, free: Fd): Selectors.Scan
    requires Scanning.IsScan(xs, acts)
  {
    var accepted := Accepted(xs, acts, |acts|);
    Selectors.Scan(
      xs[0].todo, xs[0].pipeFd, xs[0].listenFd, true, if accepted.Some? then accepted.value else free,
      Taken(xs, acts, |acts|))
  }

  /** What the walk leaves after m visits is what the acts leave, and the two descriptors that no
      client has. */
  lemma StandingIs(x: Scanning.State, y: Scanning.State, m: nat, scan: Selectors.Scan, accepted: Option<Fd>)
    requires Fresh(x) && Tied(x, y, m, scan.pipe, accepted) && scan.Ok()
    requires scan.ready == x.todo && scan.pipeFd == x.pipeFd && scan.listenFd == x.listenFd && scan.accepting
    requires accepted.Some? ==> scan.accepted == accepted.value
    ensures Selectors.Standing(x.server.selected + {x.pipeFd, x.listenFd}, scan, m, |scan.pipe|)
         == y.server.selected + {x.pipeFd, x.listenFd}
  {
    Selectors.HandedOverIs(scan, m);
    assert Selectors.Members(Selectors.HandedOver(scan, m)) == Clients(x, x.todo[..m]);
    assert Selectors.NewClient(scan, m) == Selectors.OneOf(accepted);
    assert scan.pipe[..|scan.pipe|] == scan.pipe;
    forall fd
      ensures fd in Selectors.Descriptors(scan.pipe, |scan.pipe|) <==> fd in Back(scan.pipe)
    {
      Selectors.DescriptorsAre(scan.pipe, |scan.pipe|, fd);
      assert fd in Back(scan.pipe) <==> Some(fd) in scan.pipe;
    }
  }

  /** The facts about the acts that the walk needs. */
  lemma ScanOfOk(xs: seq<Scanning.State>, acts: seq<Scanning.Act>, free: Fd)
    requires Scanning.IsScan(xs, acts) && Fresh(xs[0]) && free !in xs[0].todo
    requires Scanning.Ended(xs[|acts|])
    ensures var x, y, scan := xs[0], xs[|acts|], ScanOf(xs, acts, free);
            && scan.Ok() && |scan.pipe| == (if x.reading then |scan.ready| else 0)
            && Selectors.Standing(x.server.selected + {x.pipeFd, x.listenFd}, scan, |scan.ready|, |scan.pipe|)
               == y.server.selected + {x.pipeFd, x.listenFd}
  {
    var m := TiedAt(xs, acts, |acts|);
    assert xs[0].todo[m..] == [];
    var accepted := Accepted(xs, acts, |acts|);
    StandingIs(xs[0], xs[|acts|], m, ScanOf(xs, acts, free), accepted);
  }

  /** Every scan that ends among the workers ends as a walk, too: the bound holds, every ready
      descriptor has been visited, and both leave the same set. */
  method Walk(selector: Selectors.Selector, scan: Selectors.Scan,
              ghost xs: seq<Scanning.State>, ghost acts: seq<Scanning.Act>, ghost free: Fd)
      returns (queued: seq<nat>)
    requires Scanning.IsScan(xs, acts) && Fresh(xs[0]) && free !in xs[0].todo && Scanning.Ended(xs[|acts|])
    requires scan == ScanOf(xs, acts, free) && (xs[0].pipeFd in xs[0].todo <==> xs[0].reading)
    requires selector.Bounded() && selector.selected == xs[0].server.selected + {xs[0].pipeFd, xs[0].listenFd}
    modifies selector
    ensures selector.Bounded() && queued == Selectors.HandedOver(scan, |xs[0].todo|)
    ensures selector.selected == xs[|acts|].server.selected + {xs[0].pipeFd, xs[0].listenFd}
  {
    ScanOfOk(xs, acts, free);
    var blocked, taken;
    ghost var visited;
    blocked, queued, taken, visited := selector.ScanAll(scan);
  }
}
