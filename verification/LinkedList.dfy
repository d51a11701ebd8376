/** The stale list: heap nodes kept in sequence-number order. */
module LinkedList {

  datatype LlError = LlNoErr | LlTrunc | LlNullParam | LlNoSlot

  datatype Entry<T> = Entry(seqNum: int, len: int, buff: T)

  ghost predicate Sorted<T>(es: seq<Entry<T>>) {
    forall i, j | 0 <= i < j < |es| :: es[i].seqNum <= es[j].seqNum
  }

  // s with x put in front of position k.
  function Splice<X>(s: seq<X>, k: nat, x: X): (r: seq<X>)
    requires k <= |s|
    ensures |r| == |s| + 1
    ensures forall j {:trigger r[j]} | 0 <= j < |r| :: r[j] == if j < k then s[j] else if j == k then x else s[j - 1]
  {
    s[..k] + [x] + s[k..]
  }

  // The position of the first entry with a larger number, from position i on.
  function Place<T>(es: seq<Entry<T>>, n: int, i: nat): (k: nat)
    requires i <= |es|
    ensures i <= k <= |es|
    ensures forall j | i <= j < k :: es[j].seqNum <= n
    ensures k < |es| ==> n < es[k].seqNum
    decreases |es| - i
  {
    if i == |es| || n < es[i].seqNum then i else Place(es, n, i + 1)
  }

  function InsertOrd<T>(es: seq<Entry<T>>, e: Entry<T>): (r: seq<Entry<T>>)
    ensures |r| == |es| + 1
  {
    Splice(es, Place(es, e.seqNum, 0), e)
  }

  lemma InsertOrdSorted<T>(es: seq<Entry<T>>, e: Entry<T>)
    requires Sorted(es)
    ensures Sorted(InsertOrd(es, e))
  {
    hide Splice;
    var r, k := InsertOrd(es, e), Place(es, e.seqNum, 0);
    forall i, j | 0 <= i < j < |r| ensures r[i].seqNum <= r[j].seqNum {
      assert k < |es| ==> e.seqNum < es[k].seqNum;
    }
  }

  lemma InsertOrdAddsOne<T>(es: seq<Entry<T>>, e: Entry<T>)
    ensures multiset(InsertOrd(es, e)) == multiset(es) + multiset{e}
  {
    var k := Place(es, e.seqNum, 0);
    assert es == es[..k] + es[k..];
  }

  // The entries of one number, in list order.
  function WithNum<T>(es: seq<Entry<T>>, n: int): seq<Entry<T>> {
    if es == [] then []
    else (if es[0].seqNum == n then [es[0]] else []) + WithNum(es[1..], n)
  }

  lemma {:induction false} WithNumConcat<T>(a: seq<Entry<T>>, b: seq<Entry<T>>, n: int)
    ensures WithNum(a + b, n) == WithNum(a, n) + WithNum(b, n)
  {
    if a == [] {
      assert a + b == b;
    } else {
      WithNumConcat(a[1..], b, n);
      assert (a + b)[0] == a[0] && (a + b)[1..] == a[1..] + b;
      var h, x, y := if a[0].seqNum == n then [a[0]] else [], WithNum(a[1..], n), WithNum(b, n);
      assert WithNum(a + b, n) == h + (x + y) == (h + x) + y;
    }
  }

  lemma {:induction false} WithNumNone<T>(es: seq<Entry<T>>, n: int)
    requires forall i | 0 <= i < |es| :: es[i].seqNum != n
    ensures WithNum(es, n) == []
  {
    if es != [] { WithNumNone(es[1..], n); }
  }

  lemma WithNumInsert<T>(front: seq<Entry<T>>, e: Entry<T>, back: seq<Entry<T>>, n: int)
    requires e.seqNum == n ==> forall i | 0 <= i < |back| :: back[i].seqNum != n
    ensures WithNum(front + [e] + back, n) == WithNum(front + back, n) + if e.seqNum == n then [e] else []
  {
    WithNumConcat(front, back, n);
    WithNumConcat(front + [e], back, n);
    WithNumConcat(front, [e], n);
    if n == e.seqNum { WithNumNone(back, n); }
  }

  /** Entries with equal numbers stay in arrival order, and no other entry moves. */
  lemma InsertOrdStable<T>(es: seq<Entry<T>>, e: Entry<T>, n: int)
    requires Sorted(es)
    ensures WithNum(InsertOrd(es, e), n) == WithNum(es, n) + if e.seqNum == n then [e] else []
  {
    hide WithNum;
    var k := Place(es, e.seqNum, 0);
    WithNumInsert(es[..k], e, es[k..], n);
    assert es == es[..k] + es[k..];
  }

  class Node<T> {
    const seqNum: int
    const len: int
    const buff: T
    var next: Node?<T>

    constructor (seqNum: int, len: int, buff: T)
      ensures this.seqNum == seqNum && this.len == len && this.buff == buff && next == null
    {
      this.seqNum := seqNum;
      this.len := len;
      this.buff := buff;
      next := null;
    }
  }

  ghost function Value<T>(n: Node<T>): Entry<T> {
    Entry(n.seqNum, n.len, n.buff)
  }

  ghost function Values<T>(spine: seq<Node<T>>): (es: seq<Entry<T>>)
    ensures |es| == |spine|
    ensures forall i | 0 <= i < |es| :: es[i] == Value(spine[i])
  {
    seq(|spine|, i requires 0 <= i < |spine| => Value(spine[i]))
  }

  // The node at position i, or null past the end.
  ghost function Link<T>(spine: seq<Node<T>>, i: nat): Node?<T> {
    if i < |spine| then spine[i] else null
  }

  // The nodes of spine form one acyclic chain.
  ghost predicate Chain<T>(spine: seq<Node<T>>)
    reads set n | n in spine
  {
    && (forall i, j | 0 <= i < j < |spine| :: spine[i] != spine[j])
    && (forall i {:trigger spine[i].next} | 0 <= i < |spine| :: spine[i].next == Link(spine, i + 1))
  }

  class LinkedList<T> {
    const slotDataSize: int
    var slotCount: int
    var head: Node?<T>
    ghost var spine: seq<Node<T>>  // the nodes from head to the end

    ghost predicate Valid()
      reads this, spine
    {
      head == Link(spine, 0) && Chain(spine) && Sorted(Contents())
    }

    ghost function Contents(): seq<Entry<T>>
      reads this
    {
      Values(spine)
    }

    constructor (buffSize: int)
      ensures Valid() && Contents() == [] && slotCount == 0 && slotDataSize == buffSize
      ensures spine == []
    {
      slotDataSize := buffSize;
      slotCount := 0;
      head := null;
      spine := [];
    }

    method GetFirst() returns (err: LlError, slot: Node?<T>)
      requires Valid()
      ensures err == if Contents() == [] then LlNoSlot else LlNoErr
      ensures err == LlNoErr ==> slot != null && slot == spine[0]
                                 && Contents()[0] == Entry(slot.seqNum, slot.len, slot.buff)
    {
      if head == null {
        return LlNoSlot, null;
      }
      return LlNoErr, head;
    }

    method GetNext(slot: Node<T>, ghost i: nat) returns (err: LlError, next: Node?<T>)
      requires Valid() && i < |spine| && slot == spine[i]
      ensures err == if i + 1 < |spine| then LlNoErr else LlNoSlot
      ensures next == if i + 1 < |spine| then spine[i + 1] else null
    {
      if slot.next == null {
        return LlNoSlot, null;
      }
      return LlNoErr, slot.next;
    }

    // Linking a new node in behind position k - 1 of the chain.
    method LinkBehind(slot: Node<T>, node: Node<T>, ghost k: nat)
      requires Valid() && 0 < k <= |spine| && slot == spine[k - 1] && node !in spine
      requires Sorted(Splice(Contents(), k, Value(node)))
      modifies this, slot, node
      ensures Valid() && slotCount == old(slotCount) + 1
      ensures spine == Splice(old(spine), k, node)
      ensures Contents() == Splice(old(Contents()), k, Value(node))
    {
      hide Splice;
      node.next := slot.next;
      slot.next := node;
      slotCount := slotCount + 1;
      ghost var before := spine;
      spine := Splice(spine, k, node);
      assert Values(spine) == Splice(Values(before), k, Value(node));
      forall j {:trigger spine[j].next} | 0 <= j < |spine|
        ensures spine[j].next == Link(spine, j + 1)
      {
        if j != k && j != k - 1 { assert spine[j] == before[if j < k then j else j - 1]; }
      }
    }

    method LinkFront(node: Node<T>)
      requires Valid() && node !in spine
      requires Sorted(Splice(Contents(), 0, Value(node)))
      modifies this, node
      ensures Valid() && slotCount == old(slotCount) + 1
      ensures spine == Splice(old(spine), 0, node)
      ensures Contents() == Splice(old(Contents()), 0, Value(node))
    {
      node.next := head;
      head := node;
      slotCount := slotCount + 1;
      spine := Splice(spine, 0, node);
      assert Contents() == Splice(old(Contents()), 0, Value(node));
      assert forall j | 0 < j < |spine| :: spine[j] == old(spine)[j - 1];
    }

    // The last node whose successor, if any, has a larger number.
    method FindPlace(seqNum: int) returns (slot: Node<T>, ghost i: nat)
      requires Valid() && head != null && head.seqNum <= seqNum
      ensures i < |spine| && slot == spine[i] && Contents()[i].seqNum <= seqNum
      ensures i + 1 < |spine| ==> seqNum < Contents()[i + 1].seqNum
    {
      slot, i := head, 0;
      while true
        invariant i < |spine| && slot == spine[i] && Contents()[i].seqNum <= seqNum
        decreases |spine| - i
      {
        if slot.next == null {
          return;
        }
        if seqNum < slot.next.seqNum {
          return;
        }
        var e, next := GetNext(slot, i);
        assert e == LlNoErr;  // the panic of the source is never reached
        slot, i := next, i + 1;
      }
    }

    // Putting a new node in its place.
    method Insert(node: Node<T>)
      requires Valid() && node !in spine
      modifies this, spine, node
      ensures Valid() && slotCount == old(slotCount) + 1
      ensures Contents() == InsertOrd(old(Contents()), Value(node))
      ensures forall n | n in spine :: n in old(spine) || n == node
    {
      hide Splice;
      InsertOrdSorted(Contents(), Value(node));
      if head == null || node.seqNum < head.seqNum {
        LinkFront(node);
      } else {
        var slot, i := FindPlace(node.seqNum);
        ghost var before := Contents();
        ghost var k := Place(before, node.seqNum, 0);
        assert before[i].seqNum <= node.seqNum && (i + 1 < |before| ==> node.seqNum < before[i + 1].seqNum);
        assert i + 1 == k;
        LinkBehind(slot, node, k);
      }
    }

    method PushSeqOrd(data: T, len: int, seqNum: int) returns (err: LlError, copied: int)
      requires Valid()
      modifies this, spine
      ensures Valid()
      ensures forall n | n in spine :: n in old(spine) || fresh(n)
      ensures len == 0 ==> err == LlNullParam && Contents() == old(Contents()) && slotCount == old(slotCount)
      ensures len != 0 ==> copied == if len < slotDataSize then len else slotDataSize
      ensures len != 0 ==> err == if copied < len then LlTrunc else LlNoErr
      ensures len != 0 ==> Contents() == InsertOrd(old(Contents()), Entry(seqNum, copied, data))
      ensures len != 0 ==> slotCount == old(slotCount) + 1
    {
      hide InsertOrd;
      if len == 0 {
        return LlNullParam, len;
      }
      copied := if len < slotDataSize then len else slotDataSize;
      err := if copied < len then LlTrunc else LlNoErr;
      var node := new Node(seqNum, copied, data);
      Insert(node);
    }

    // The count drops even when there is nothing to release.
    method ReleaseHead()
      requires Valid()
      modifies this
      ensures Valid()
      ensures Contents() == if old(Contents()) == [] then [] else old(Contents())[1..]
      ensures spine == if old(spine) == [] then [] else old(spine)[1..]
      ensures slotCount == old(slotCount) - 1
    {
      slotCount := slotCount - 1;
      if head != null {
        head := head.next;
        spine := spine[1..];
      }
    }
  }
}
