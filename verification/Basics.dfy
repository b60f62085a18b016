/** Types and sequence functions shared by every module. */
module Basics {

  datatype Option<+T> = None | Some(value: T)

  type Byte = x: int | 0 <= x < 256

  /** A C string without its terminating zero. */
  type Path = seq<Byte>

  /** A client is known to the server by its descriptor only. */
  type Fd = nat

  /** True iff no value occurs twice in q. */
  ghost predicate NoDup<T>(q: seq<T>)
  {
    forall i, j :: 0 <= i < j < |q| ==> q[i] != q[j]
  }

  /** True iff some occurrence of x comes before some occurrence of y in q. */
  ghost predicate Before<T(!new)>(q: seq<T>, x: T, y: T)
  {
    exists i, j :: 0 <= i < j < |q| && q[i] == x && q[j] == y
  }

  /** q without its first occurrence of x; q itself when x does not occur. */
  function RemoveFirst<T(==)>(q: seq<T>, x: T): (r: seq<T>)
  {
    if q == [] then []
    else if q[0] == x then q[1..]
    else [q[0]] + RemoveFirst(q[1..], x)
  }

  /** Removing a value from a duplicate-free sequence removes that value and nothing else. */
  lemma {:induction false} RemoveFirstNoDup<T>(q: seq<T>, x: T)
    requires NoDup(q)
    ensures NoDup(RemoveFirst(q, x))
    ensures forall y :: y in RemoveFirst(q, x) <==> y in q && y != x
    ensures |RemoveFirst(q, x)| == if x in q then |q| - 1 else |q|
  {
    if q == [] {
    } else {
      assert q == [q[0]] + q[1..];
      assert q[0] !in q[1..] && NoDup(q[1..]);
      if q[0] != x {
        RemoveFirstNoDup(q[1..], x);
      }
    }
  }

  /** Any other value is still there. */
  lemma {:induction false} RemoveFirstKeeps<T>(q: seq<T>, x: T, y: T)
    requires y in q && y != x
    ensures y in RemoveFirst(q, x)
  {
    assert q == [q[0]] + q[1..];
    if q[0] != x && q[0] != y {
      RemoveFirstKeeps(q[1..], x, y);
    }
  }

  /** Removing the value at its first index. */
  lemma {:induction false} RemoveFirstAt<T>(q: seq<T>, x: T, k: nat)
    requires k < |q| && q[k] == x && x !in q[..k]
    ensures RemoveFirst(q, x) == q[..k] + q[k + 1..]
  {
    if k == 0 {
    } else {
      assert q[0] in q[..k];
      assert q[1..][..k - 1] == q[..k][1..];
      RemoveFirstAt(q[1..], x, k - 1);
      assert q[..k] + q[k + 1..] == [q[0]] + (q[1..][..k - 1] + q[1..][k..]);
    }
  }

  /** Removal keeps the order of what remains. */
  lemma {:induction false} RemoveFirstBefore<T(!new)>(q: seq<T>, z: T, x: T, y: T)
    requires Before(RemoveFirst(q, z), x, y)
    ensures Before(q, x, y)
  {
    if z in q {
      var k := FirstIndex(q, z);
      RemoveFirstAt(q, z, k);
      var i, j :| 0 <= i < j < |RemoveFirst(q, z)| && RemoveFirst(q, z)[i] == x && RemoveFirst(q, z)[j] == y;
      var i' := if i < k then i else i + 1;
      var j' := if j < k then j else j + 1;
      assert q[i'] == x && q[j'] == y;
    } else {
      RemoveFirstAbsent(q, z);
    }
  }

  lemma {:induction false} RemoveFirstAbsent<T>(q: seq<T>, x: T)
    requires x !in q
    ensures RemoveFirst(q, x) == q
  {
    if q == [] {
    } else {
      RemoveFirstAbsent(q[1..], x);
    }
  }

  /** The first index of a value that occurs. */
  function FirstIndex<T(==)>(q: seq<T>, x: T): (k: nat)
    requires x in q
    ensures k < |q| && q[k] == x && x !in q[..k]
  {
    if q[0] == x then 0
    else
      var k := FirstIndex(q[1..], x);
      assert q[..k + 1] == [q[0]] + q[1..][..k];
      k + 1
  }
}
