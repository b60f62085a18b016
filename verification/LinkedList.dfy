/** The singly linked list with head, tail and length (utils/linked_list.c), on the heap. */
module LinkedLists {
  import opened Basics

  class Node<T> {
    var data: T
    var next: Node?<T>

    constructor (data: T, next: Node?<T>)
      ensures this.data == data && this.next == next
    {
      this.data, this.next := data, next;
    }
  }

  class LinkedList<T(==)> {
    var head: Node?<T>
    var tail: Node?<T>
    var length: nat
    ghost var spine: seq<Node<T>>  // the nodes, in order

    ghost function NodeAt(i: nat): Node?<T>
      reads this
    {
      if i < |spine| then spine[i] else null
    }

    /** Following next from head visits the spine, and length counts it. */
    ghost predicate Chain()
      reads this, spine
    {
      && length == |spine|
      && head == NodeAt(0)
      && NoDup(spine)
      && forall i {:trigger spine[i].next} :: 0 <= i < |spine| ==> spine[i].next == NodeAt(i + 1)
    }

    /** tail may be stale on an empty list. */
    ghost predicate TailOk()
      reads this
    {
      spine != [] ==> tail == spine[|spine| - 1]
    }

    ghost predicate Valid()
      reads this, spine
    {
      Chain() && TailOk()
    }

    /** The sequence the list stands for. */
    ghost function Contents(): (s: seq<T>)
      reads this, spine
      ensures |s| == |spine|
      ensures forall i :: 0 <= i < |spine| ==> s[i] == spine[i].data
    {
      seq(|spine|, i requires 0 <= i < |spine| reads this, spine => spine[i].data)
    }

    constructor ()
      ensures Valid() && Contents() == [] && fresh(spine) && tail == null
    {
      head, tail, length, spine := null, null, 0, [];
    }

    method InsertTail(x: T)
      requires Valid()
      modifies this, spine
      ensures Valid() && Contents() == old(Contents()) + [x]
      ensures fresh(set n | n in spine && n !in old(spine))
    {
      var node := new Node(x, null);
      if length == 0 {
        head, tail := node, node;
      } else {
        tail.next := node;
        tail := node;
      }
      spine := spine + [node];
      length := length + 1;
    }

    /** As written, tail is not set: the list stays valid exactly when it was not empty. */
    method InsertHead(x: T)
      requires Valid()
      modifies this
      ensures Chain() && Contents() == [x] + old(Contents())
      ensures TailOk() <==> old(Contents()) != []
      ensures fresh(set n | n in spine && n !in old(spine))
    {
      var node := new Node(x, head);
      head := node;
      length := length + 1;
      spine := [node] + spine;
      assert forall i :: 0 < i < |spine| ==> spine[i] == old(spine)[i - 1];
    }

    method InsertAtIndex(x: T, index: int) returns (result: int)
      requires Valid()
      modifies this, spine
      ensures result == if 0 <= index <= |old(Contents())| then 0 else -1
      ensures Chain()
      ensures result == -1 ==> Contents() == old(Contents())
      ensures result == 0 ==> Contents() == old(Contents())[..index] + [x] + old(Contents())[index..]
      ensures TailOk() <==> result == -1 || old(Contents()) != []
    {
      if index < 0 || index > length {
        return -1;
      }
      if index == 0 {
        InsertHead(x);
        return 0;
      }
      if index == length {
        var last := new Node(x, null);
        tail.next := last;
        tail := last;
        length := length + 1;
        spine := spine + [last];
        assert Contents() == old(Contents()) + [x];
        return 0;
      }
      InsertInside(x, index);
      return 0;
    }

    method InsertInside(x: T, index: nat)
      requires Valid() && 0 < index < length
      modifies this, spine
      ensures Valid() && spine != []
      ensures Contents() == old(Contents())[..index] + [x] + old(Contents())[index..]
    {
      var prev, curr := Walk(index);
      var node := new Node(x, curr);
      Splice(node, prev, index);
    }

    /** Links a new node in after prev. */
    method Splice(node: Node<T>, prev: Node<T>, ghost index: nat)
      requires Valid() && 0 < index < |spine| && prev == spine[index - 1]
      requires node !in spine && node.next == spine[index]
      modifies this, prev`next
      ensures Valid()
      ensures spine == old(spine)[..index] + [node] + old(spine)[index..]
    {
      ghost var s := spine;
      prev.next := node;
      length := length + 1;
      spine := s[..index] + [node] + s[index..];
      InsertedNoDup(s, index, node);
      forall i | 0 <= i < |spine|
        ensures spine[i].next == NodeAt(i + 1)
      {
        if index < i {
          assert spine[i] == s[i - 1];
        }
      }
    }

    /** The walk of InsertAtIndex: the node at an inner index and the one before it. */
    method Walk(index: nat) returns (prev: Node<T>, curr: Node<T>)
      requires Chain() && 0 < index < length
      ensures prev == spine[index - 1] && curr == spine[index]
    {
      var before: Node?<T> := null;
      var at := head;
      var k := index;
      while k > 0 && at != null
        invariant 0 <= k <= index
        invariant at == NodeAt(index - k)
        invariant k < index ==> before == spine[index - k - 1]
      {
        before := at;
        at := at.next;
        k := k - 1;
      }
      prev, curr := before, at;
    }

    method RemoveHead() returns (x: Option<T>)
      requires Valid()
      modifies this
      ensures Valid()
      ensures old(Contents()) == [] ==> x == None && Contents() == []
      ensures old(Contents()) != [] ==>
                x == Some(old(Contents())[0]) && Contents() == old(Contents())[1..]
      ensures spine == if old(spine) == [] then [] else old(spine)[1..]
    {
      if IsEmpty() {
        return None;
      }
      x := Some(head.data);
      if length == 1 {
        head, tail := null, null;
      } else {
        head := head.next;
      }
      length := length - 1;
      spine := spine[1..];
    }

    method RemoveTail() returns (x: Option<T>)
      requires Valid()
      modifies this, spine
      ensures Valid()
      ensures old(Contents()) == [] ==> x == None && Contents() == []
      ensures old(Contents()) != [] ==>
                && x == Some(old(Contents())[|old(Contents())| - 1])
                && Contents() == old(Contents())[..|old(Contents())| - 1]
    {
      if IsEmpty() {
        return None;
      }
      var prev: Node?<T> := null;
      var curr := head;
      ghost var i := 0;
      while curr.next != null
        invariant 0 <= i < |spine|
        invariant curr == spine[i]
        invariant prev == if i == 0 then null else spine[i - 1]
        decreases |spine| - i
      {
        prev := curr;
        curr := curr.next;
        i := i + 1;
      }
      x := Some(curr.data);
      if length == 1 {
        head, tail := null, null;
      } else {
        prev.next := null;
        tail := prev;
      }
      length := length - 1;
      spine := spine[..i];
    }

    /** Removes the first match; emptying the list this way leaves tail stale, which TailOk allows. */
    method RemoveElement(x: T) returns (result: int)
      requires Valid()
      modifies this, spine
      ensures Valid()
      ensures result == if x in old(Contents()) then 0 else -1
      ensures Contents() == RemoveFirst(old(Contents()), x)
      ensures forall n :: n in spine ==> n in old(spine)
      ensures old(Contents()) == [x] ==> tail == old(tail)
    {
      var prev, curr, i := Locate(x);
      if curr == null {
        RemoveFirstAbsent(Contents(), x);
        return -1;
      }
      RemoveFirstAt(Contents(), x, i);
      if prev == null {
        UnlinkHead();
      } else {
        Unlink(prev, curr, i);
      }
      return 0;
    }

    /** The unlinking of RemoveElement at the head: unlike RemoveHead, it never touches tail. */
    method UnlinkHead()
      requires Valid() && spine != []
      modifies this
      ensures Valid() && tail == old(tail)
      ensures Contents() == old(Contents())[1..] && spine == old(spine)[1..]
    {
      head := head.next;
      length := length - 1;
      spine := spine[1..];
    }

    /** The unlinking of RemoveElement past the head. */
    method Unlink(prev: Node<T>, curr: Node<T>, ghost i: nat)
      requires Valid() && 0 < i < |spine| && curr == spine[i] && prev == spine[i - 1]
      modifies this, prev`next
      ensures Valid() && spine == old(spine)[..i] + old(spine)[i + 1..]
    {
      ghost var s := spine;
      prev.next := curr.next;
      if prev.next == null {
        tail := prev;
      }
      length := length - 1;
      spine := s[..i] + s[i + 1..];
      DeletedNoDup(s, i);
      forall j | 0 <= j < |spine|
        ensures spine[j].next == NodeAt(j + 1)
      {
      }
    }

    /** The search of RemoveElement: the first node holding x, if any, and the one before it. */
    method Locate(x: T) returns (prev: Node?<T>, curr: Node?<T>, ghost i: nat)
      requires Chain()
      ensures i <= |spine| && curr == NodeAt(i) && x !in Contents()[..i]
      ensures prev == if i == 0 then null else spine[i - 1]
      ensures curr != null ==> Contents()[i] == x
    {
      prev, curr, i := null, head, 0;
      while curr != null
        invariant 0 <= i <= |spine|
        invariant curr == NodeAt(i)
        invariant prev == if i == 0 then null else spine[i - 1]
        invariant x !in Contents()[..i]
        decreases |spine| - i
      {
        if curr.data == x {
          return;
        }
        prev := curr;
        curr := curr.next;
        i := i + 1;
      }
    }

    predicate IsEmpty()
      requires Chain()
      reads this, spine
      ensures IsEmpty() <==> Contents() == []
    {
      head == null || length == 0
    }

    method Find(x: T) returns (index: int)
      requires Chain()
      ensures x !in Contents() ==> index == -1
      ensures x in Contents() ==> 0 <= index < |Contents()| && Contents()[index] == x && x !in Contents()[..index]
    {
      index := 0;
      var curr := head;
      while curr != null
        invariant 0 <= index <= |spine|
        invariant curr == NodeAt(index)
        invariant x !in Contents()[..index]
        decreases |spine| - index
      {
        if curr.data == x {
          return;
        }
        curr := curr.next;
        index := index + 1;
      }
      index := -1;
    }
  }

  lemma InsertedNoDup<T>(q: seq<T>, k: nat, x: T)
    requires k <= |q| && NoDup(q) && x !in q
    ensures NoDup(q[..k] + [x] + q[k..])
  {
  }

  lemma DeletedNoDup<T>(q: seq<T>, k: nat)
    requires k < |q| && NoDup(q)
    ensures var r := q[..k] + q[k + 1..];
            NoDup(r) && forall i :: 0 <= i < |r| ==> r[i] == q[if i < k then i else i + 1]
  {
  }
}
