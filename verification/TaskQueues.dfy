/** A family of rings that share one node per task: ready_task_list together with the wait
    rings of the semaphores, and likewise the all_tasks ring. */
module TaskQueues {
  import opened IntrusiveList
  import opened SchedState

  /** Head and nodes of a ring that holds the tasks ts. */
  ghost function Cycle(head: ListHead, nodes: seq<ListHead>, ts: seq<Tid>): (c: seq<ListHead>)
    requires forall i :: 0 <= i < |ts| ==> ts[i] < |nodes|
    ensures |c| == |ts| + 1 && c[0] == head
    ensures forall i :: 1 <= i < |c| ==> c[i] == nodes[ts[i - 1]]
    ensures forall x <- c :: x == head || x in nodes
  {
    [head] + seq(|ts|, (i: int) requires 0 <= i < |ts| => nodes[ts[i]])
  }

  /** No head is a node and no node is in two places. */
  ghost predicate Layout(heads: seq<ListHead>, nodes: seq<ListHead>, q: seq<seq<Tid>>) {
    && |q| == |heads|
    && Distinct(heads) && Distinct(nodes)
    && (forall r, t :: 0 <= r < |heads| && 0 <= t < |nodes| ==> heads[r] != nodes[t])
    && (forall t :: 0 <= t < |nodes| ==> nodes[t].entry == t)
    && (forall r, i {:trigger q[r][i]} :: 0 <= r < |q| && 0 <= i < |q[r]| ==> q[r][i] < |nodes|)
    && (forall r :: 0 <= r < |q| ==> NoDup(q[r]))
    && (forall r, r', t {:trigger t in q[r], t in q[r']} :: 0 <= r < r' < |q| && t in q[r] ==> t !in q[r'])
  }

  /** Two different rings have no list_head in common. */
  lemma Apart(heads: seq<ListHead>, nodes: seq<ListHead>, q: seq<seq<Tid>>, r: nat, r': nat)
    requires Layout(heads, nodes, q) && r < |q| && r' < |q| && r != r'
    ensures forall x :: x in Cycle(heads[r], nodes, q[r]) ==> x !in Cycle(heads[r'], nodes, q[r'])
  {
    var c, d := Cycle(heads[r], nodes, q[r]), Cycle(heads[r'], nodes, q[r']);
    forall i, j | 0 <= i < |c| && 0 <= j < |d|
      ensures c[i] != d[j]
    {
      if i > 0 && j > 0 {
        var t, t' := q[r][i - 1], q[r'][j - 1];
        assert t in q[r] && t' in q[r'];
        assert nodes[t].entry == t && nodes[t'].entry == t';
      }
    }
  }

  /** The list_heads of all rings but r. */
  ghost function Others(heads: seq<ListHead>, nodes: seq<ListHead>, q: seq<seq<Tid>>, r: nat): set<ListHead>
    requires Layout(heads, nodes, q)
  {
    set r', x | 0 <= r' < |q| && r' != r && x in Cycle(heads[r'], nodes, q[r']) :: x
  }

  ghost predicate RingsBut(heads: seq<ListHead>, nodes: seq<ListHead>, q: seq<seq<Tid>>, r: nat)
    requires Layout(heads, nodes, q)
    reads Others(heads, nodes, q, r)
  {
    forall r' :: 0 <= r' < |q| && r' != r ==>
      assert forall x <- Cycle(heads[r'], nodes, q[r']) :: x in Others(heads, nodes, q, r);
      IsRing(Cycle(heads[r'], nodes, q[r']))
  }

  lemma AllApart(heads: seq<ListHead>, nodes: seq<ListHead>, q: seq<seq<Tid>>, r: nat)
    requires Layout(heads, nodes, q) && r < |q|
    ensures forall x <- Cycle(heads[r], nodes, q[r]) :: x !in Others(heads, nodes, q, r)
  {
    forall r' | 0 <= r' < |q| && r' != r
      ensures forall x <- Cycle(heads[r'], nodes, q[r']) :: x !in Cycle(heads[r], nodes, q[r])
    {
      Apart(heads, nodes, q, r', r);
    }
  }

  lemma LayoutWithout(heads: seq<ListHead>, nodes: seq<ListHead>, q: seq<seq<Tid>>, r: nat, t: Tid)
      returns (w: seq<Tid>, i: nat)
    requires Layout(heads, nodes, q) && r < |q| && t in q[r] && t < |nodes|
    ensures w == Without(q[r], t) && Layout(heads, nodes, q[r := w])
    ensures 0 < i <= |q[r]| && Cycle(heads[r], nodes, q[r])[i] == nodes[t]
    ensures Cycle(heads[r], nodes, w) == Removed(Cycle(heads[r], nodes, q[r]), i)
  {
    WithoutFacts(q[r], t);
    w, i := Without(q[r], t), IndexOf(q[r], t) + 1;
    forall i | 0 <= i < |w|
      ensures w[i] < |nodes|
    {
      assert w[i] in w;
    }
  }

  lemma LayoutAdded(heads: seq<ListHead>, nodes: seq<ListHead>, q: seq<seq<Tid>>, r: nat, t: Tid, w: seq<Tid>)
    requires Layout(heads, nodes, q) && r < |q| && t < |nodes|
    requires forall r' :: 0 <= r' < |q| ==> t !in q[r']
    requires w == q[r] + [t] || w == [t] + q[r]
    ensures Layout(heads, nodes, q[r := w])
    ensures nodes[t] !in Cycle(heads[r], nodes, q[r])
    ensures nodes[t] !in Others(heads, nodes, q, r)
    ensures w == q[r] + [t] ==> Cycle(heads[r], nodes, w) == Cycle(heads[r], nodes, q[r]) + [nodes[t]]
    ensures w == [t] + q[r] ==>
              Cycle(heads[r], nodes, w) == [heads[r], nodes[t]] + Cycle(heads[r], nodes, q[r])[1..]
  {
    assert forall x :: x in w <==> x in q[r] || x == t;
    forall r', j | 0 <= r' < |q| && 0 <= j < |Cycle(heads[r'], nodes, q[r'])|
      ensures Cycle(heads[r'], nodes, q[r'])[j] != nodes[t]
    {
      if j > 0 {
        var u := q[r'][j - 1];
        assert u in q[r'] && nodes[u].entry == u;
      }
    }
  }

  class RingSet {
    var heads: seq<ListHead>   // one head per ring
    var nodes: seq<ListHead>   // the node of each task
    ghost var q: seq<seq<Tid>> // what each ring holds

    ghost predicate Valid()
      reads this, heads, nodes
    {
      && Layout(heads, nodes, q)
      && (forall r :: 0 <= r < |q| ==> IsRing(Cycle(heads[r], nodes, q[r])))
    }

    constructor ()
      ensures Valid() && heads == [] && nodes == [] && q == []
    {
      heads, nodes, q := [], [], [];
    }

    /** list_head_init of a further ring. */
    method AddRing()
      requires Valid()
      modifies this`heads, this`q
      ensures Valid() && nodes == old(nodes) && q == old(q) + [[]]
      ensures |heads| == |old(heads)| + 1 && heads[..|old(heads)|] == old(heads) && fresh(heads[|old(heads)|])
    {
      var head := new ListHead(0);
      ListHeadInit(head);
      heads := heads + [head];
      q := q + [[]];
      assert Cycle(head, nodes, []) == [head];
    }

    /** The node inside a new task_struct. */
    method AddNode()
      requires Valid()
      modifies this`nodes
      ensures Valid() && heads == old(heads) && q == old(q) && |nodes| == |old(nodes)| + 1
      ensures nodes[..|old(nodes)|] == old(nodes) && fresh(nodes[|old(nodes)|])
      ensures forall r :: 0 <= r < |q| ==> |old(nodes)| !in q[r]
    {
      var node := new ListHead(|nodes|);
      ghost var was := nodes;
      nodes := nodes + [node];
      forall r | 0 <= r < |q|
        ensures Cycle(heads[r], nodes, q[r]) == Cycle(heads[r], was, q[r])
      {
        CycleGrows(heads[r], was, node, q[r]);
      }
    }

    /** The pointer part of Del: t is at place i of the cycle of ring r. */
    method Unlink(t: Tid, ghost r: nat, ghost i: nat)
      requires Valid() && r < |q| && t < |nodes| && 0 < i <= |q[r]|
      requires Cycle(heads[r], nodes, q[r])[i] == nodes[t]
      modifies heads, nodes
      ensures RingsBut(heads, nodes, q, r) && IsRing(Removed(Cycle(heads[r], nodes, q[r]), i))
    {
      ghost var c := Cycle(heads[r], nodes, q[r]);
      AllApart(heads, nodes, q, r);
      var node := nodes[t];
      assert RingsBut(heads, nodes, q, r);
      assert IsRing(c);
      hide Layout, Cycle, Others, NoDup;
      ghost var n, p := c[IntrusiveList.Succ(|c|, i)], c[Pred(|c|, i)];
      assert node.next == n && node.prev == p;
      assert n in c && p in c;
      assert n !in Others(heads, nodes, q, r) && p !in Others(heads, nodes, q, r);
      hide IsRing, RingsBut;
      ListDel(node, c, i);
    }

    /** list_del on the node of t, which is in ring r. */
    method Del(t: Tid, ghost r: nat)
      requires Valid() && r < |q| && t in q[r] && t < |nodes|
      modifies this`q, heads, nodes
      ensures Valid() && q == old(q)[r := Without(old(q[r]), t)]
    {
      ghost var w, i := LayoutWithout(heads, nodes, q, r, t);
      Unlink(t, r, i);
      q := q[r := w];
    }

    /** list_add_tail of the node of t, which is in no ring, to ring r. */
    method AddTail(t: Tid, r: nat)
      requires Valid() && r < |q| && t < |nodes| && forall r' :: 0 <= r' < |q| ==> t !in q[r']
      modifies this`q, heads, nodes
      ensures Valid() && q == old(q)[r := old(q[r]) + [t]]
    {
      ghost var c := Cycle(heads[r], nodes, q[r]);
      LayoutAdded(heads, nodes, q, r, t, q[r] + [t]);
      AllApart(heads, nodes, q, r);
      assert c[0].prev == c[Pred(|c|, 0)];
      assert RingsBut(heads, nodes, q, r);
      ListAddTail(nodes[t], heads[r], c);
      assert RingsBut(heads, nodes, q, r);
      q := q[r := q[r] + [t]];
    }

    /** list_add of the node of t, which is in no ring, to ring r. */
    method Add(t: Tid, r: nat)
      requires Valid() && r < |q| && t < |nodes| && forall r' :: 0 <= r' < |q| ==> t !in q[r']
      modifies this`q, heads, nodes
      ensures Valid() && q == old(q)[r := [t] + old(q[r])]
    {
      ghost var c := Cycle(heads[r], nodes, q[r]);
      LayoutAdded(heads, nodes, q, r, t, [t] + q[r]);
      AllApart(heads, nodes, q, r);
      assert c[0].next == c[IntrusiveList.Succ(|c|, 0)];
      assert RingsBut(heads, nodes, q, r);
      ListAdd(nodes[t], heads[r], c);
      assert RingsBut(heads, nodes, q, r);
      q := q[r := [t] + q[r]];
    }

    /** list_entry(head->next): the task whose node comes first. */
    method First(r: nat) returns (t: Tid)
      requires Valid() && r < |q| && q[r] != []
      ensures t == q[r][0] && t < |nodes|
    {
      ghost var c := Cycle(heads[r], nodes, q[r]);
      assert c[0].next == c[IntrusiveList.Succ(|c|, 0)] == c[1];
      assert nodes[q[r][0]].entry == q[r][0];
      var first := heads[r].next;
      t := first.entry;
    }

    /** list_empty */
    method Empty(r: nat) returns (empty: bool)
      requires Valid() && r < |q|
      ensures empty <==> q[r] == []
    {
      empty := ListEmpty(heads[r], Cycle(heads[r], nodes, q[r]));
    }

    /** list_pop, and the task whose node it returns. */
    method Pop(r: nat) returns (t: Tid)
      requires Valid() && r < |q| && q[r] != []
      modifies this`q, heads, nodes
      ensures Valid() && t == old(q[r][0]) && q == old(q)[r := old(q[r])[1..]]
    {
      t := First(r);
      assert Without(q[r], t) == q[r][1..];
      Del(t, r);
    }
  }

  lemma CycleGrows(head: ListHead, nodes: seq<ListHead>, more: ListHead, ts: seq<Tid>)
    requires forall i :: 0 <= i < |ts| ==> ts[i] < |nodes|
    ensures Cycle(head, nodes + [more], ts) == Cycle(head, nodes, ts)
  {
  }
}
