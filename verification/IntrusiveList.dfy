/** Circular doubly linked rings of nodes that live inside other objects (lib/list.h). */
module IntrusiveList {

  /** struct list_head.  `entry` stands for what list_entry finds by pointer arithmetic: the
      task the node is a member of. */
  class ListHead {
    var prev: ListHead?
    var next: ListHead?
    const entry: nat

    constructor (entry: nat)
      ensures this.entry == entry
    {
      this.entry := entry;
    }
  }

  function Succ(n: nat, i: nat): nat { if i + 1 == n then 0 else i + 1 }
  function Pred(n: nat, i: nat): int { if i == 0 then n - 1 else i - 1 }

  ghost predicate Distinct(c: seq<ListHead>) {
    forall i, j :: 0 <= i < j < |c| ==> c[i] != c[j]
  }

  /** The ring that starts at the head c[0] visits exactly c, in both directions. */
  ghost predicate IsRing(c: seq<ListHead>)
    reads c
  {
    && c != []
    && Distinct(c)
    && (forall i :: 0 <= i < |c| ==> c[i].next == c[Succ(|c|, i)])
    && (forall i :: 0 <= i < |c| ==> c[i].prev == c[Pred(|c|, i)])
  }

  /** The pointers alone determine the sequence. */
  lemma {:induction false} RingFromPointers(c: seq<ListHead>, d: seq<ListHead>, n: nat)
    requires IsRing(c) && IsRing(d) && c[0] == d[0]
    ensures n < |c| && n < |d| ==> c[n] == d[n]
  {
    if 0 < n < |c| && n < |d| {
      RingFromPointers(c, d, n - 1);
      assert c[n] == c[n - 1].next && d[n] == d[n - 1].next;
    }
  }

  lemma RingUnique(c: seq<ListHead>, d: seq<ListHead>)
    requires IsRing(c) && IsRing(d) && c[0] == d[0]
    ensures c == d
  {
    forall n: nat { RingFromPointers(c, d, n); }
    var m, n := |c| - 1, |d| - 1;
    assert c[m].next == c[0] && d[n].next == d[0];
    assert m < |d| ==> c[m] == d[m];
    assert n < |c| ==> c[n] == d[n];
  }

  /** list_head_init */
  method ListHeadInit(head: ListHead)
    modifies head
    ensures IsRing([head])
  {
    head.prev := head;
    head.next := head.prev;
  }

  /** list_empty */
  method ListEmpty(head: ListHead, ghost c: seq<ListHead>) returns (empty: bool)
    requires IsRing(c) && c[0] == head
    ensures empty <==> |c| == 1
  {
    empty := head.next == head || head.prev == head;
    assert c[0].next == c[Succ(|c|, 0)] && c[0].prev == c[Pred(|c|, 0)];
  }

  /** __list_add between two neighbours; the node's old pointers do not matter. */
  method ListInsert(node: ListHead, prev: ListHead, next: ListHead, ghost c: seq<ListHead>, ghost i: nat)
    requires IsRing(c) && node !in c && i < |c| && prev == c[i] && next == c[Succ(|c|, i)]
    modifies node, prev, next
    ensures IsRing(Inserted(c, node, i))
  {
    node.next := next;
    node.prev := prev;
    prev.next := node;
    next.prev := node;
    InsertDistinct(c, node, i);
    ghost var d := Inserted(c, node, i);
    forall j | 0 <= j < |d|
      ensures d[j].next == d[Succ(|d|, j)]
    {
      assert j < i ==> c[j].next == c[j + 1];
      assert j > i + 1 ==> c[j - 1].next == c[Succ(|c|, j - 1)];
    }
    forall j | 0 <= j < |d|
      ensures d[j].prev == d[Pred(|d|, j)]
    {
      assert j <= i ==> j == Succ(|c|, i) || c[j].prev == old(c[j].prev);
      assert j > i + 2 ==> c[j - 1].prev == c[j - 2];
    }
  }

  ghost function Inserted(c: seq<ListHead>, node: ListHead, i: nat): seq<ListHead>
    requires i < |c|
  {
    c[..i + 1] + [node] + c[i + 1..]
  }

  lemma InsertDistinct(c: seq<ListHead>, node: ListHead, i: nat)
    requires Distinct(c) && node !in c && i < |c|
    ensures var d := Inserted(c, node, i);
            && Distinct(d) && |d| == |c| + 1 && d[i + 1] == node
            && (forall j :: 0 <= j <= i ==> d[j] == c[j])
            && (forall j :: i + 1 < j < |d| ==> d[j] == c[j - 1])
  {
  }

  /** list_add: right after the head. */
  method ListAdd(node: ListHead, head: ListHead, ghost c: seq<ListHead>)
    requires IsRing(c) && node !in c && head == c[0]
    modifies node, head, head.next
    ensures IsRing([head, node] + c[1..])
  {
    var next := head.next;
    ListInsert(node, head, next, c, 0);
    assert Inserted(c, node, 0) == [head, node] + c[1..];
  }

  /** list_add_tail: right before the head. */
  method ListAddTail(node: ListHead, head: ListHead, ghost c: seq<ListHead>)
    requires IsRing(c) && node !in c && head == c[0]
    modifies node, head, head.prev
    ensures IsRing(c + [node])
  {
    var prev := head.prev;
    assert prev == c[Pred(|c|, 0)];
    ListInsert(node, prev, head, c, |c| - 1);
    assert Inserted(c, node, |c| - 1) == c + [node];
  }

  /** list_del of the i-th node of the ring; the node keeps its stale pointers. */
  method ListDel(node: ListHead, ghost c: seq<ListHead>, ghost i: nat)
    requires IsRing(c) && 0 < i < |c| && node == c[i]
    modifies node.next, node.prev
    ensures IsRing(Removed(c, i))
    ensures node.prev == old(node.prev) && node.next == old(node.next)
  {
    ghost var n, p := Succ(|c|, i), i - 1;
    assert node.next == c[n] && node.prev == c[p];
    node.next.prev := node.prev;
    node.prev.next := node.next;
    forall k | 0 <= k < |c| && k != i
      ensures c[k].next == if k == p then c[n] else c[Succ(|c|, k)]
      ensures c[k].prev == if k == n then c[p] else c[Pred(|c|, k)]
    {
      assert k != p ==> c[k] != c[p];
      assert k != n ==> c[k] != c[n];
    }
    ghost var d := Removed(c, i);
    RemovedDistinct(c, i);
    forall j | 0 <= j < |d|
      ensures d[j].next == d[Succ(|d|, j)] && d[j].prev == d[Pred(|d|, j)]
    {
      RemovedNeighbours(c, i, j);
    }
  }

  /** Where the j-th element of Removed(c, i) was in c. */
  function Source(i: nat, j: nat): nat { if j < i then j else j + 1 }

  lemma RemovedNeighbours(c: seq<ListHead>, i: nat, j: nat)
    requires 0 < i < |c| && j < |c| - 1
    ensures var d, k := Removed(c, i), Source(i, j);
            && d[j] == c[k]
            && d[Succ(|d|, j)] == (if k == i - 1 then c[Succ(|c|, i)] else c[Succ(|c|, k)])
            && d[Pred(|d|, j)] == (if k == Succ(|c|, i) then c[i - 1] else c[Pred(|c|, k)])
  {
  }

  ghost function Removed(c: seq<ListHead>, i: nat): seq<ListHead>
    requires i < |c|
  {
    c[..i] + c[i + 1..]
  }

  lemma RemovedDistinct(c: seq<ListHead>, i: nat)
    requires Distinct(c) && i < |c|
    ensures var d := Removed(c, i);
            && Distinct(d) && |d| == |c| - 1
            && (forall j :: 0 <= j < i ==> d[j] == c[j])
            && (forall j :: i <= j < |d| ==> d[j] == c[j + 1])
  {
  }

  /** list_pop */
  method ListPop(head: ListHead, ghost c: seq<ListHead>) returns (node: ListHead)
    requires IsRing(c) && |c| > 1 && head == c[0]
    modifies head.next.next, head.next.prev
    ensures node == c[1] && IsRing([head] + c[2..])
  {
    node := head.next;
    assert node == c[1];
    ListDel(node, c, 1);
    assert Removed(c, 1) == [head] + c[2..];
  }
}
