/** Safety of the page-frame pool over every run of gets and frees by owners. */
module PoolRuns {
  import opened Words
  import opened Bitmap
  import opened PagePool

  /** Pages handed out together. */
  datatype Range = Range(addr: nat, count: nat)

  /** FreeCall(k) frees the k-th live range with the size it was asked for. */
  datatype Call = GetCall(count: nat) | FreeCall(k: nat)

  datatype World = World(pool: Pool, live: seq<Range>)

  ghost function Next(w: World, c: Call): World {
    match c
    case GetCall(count) =>
      var (pool, addr) := Get(w.pool, count);
      World(pool, if addr == 0 then w.live else w.live + [Range(addr, count)])
    case FreeCall(k) =>
      if k >= |w.live| then w else
      World(Free(w.pool, w.live[k].addr, w.live[k].count), w.live[..k] + w.live[k + 1..])
  }

  ghost function Run(w: World, calls: seq<Call>): World {
    if calls == [] then w else Next(Run(w, calls[..|calls| - 1]), calls[|calls| - 1])
  }

  function SetBits(s: seq<bool>): nat {
    if s == [] then 0 else SetBits(s[..|s| - 1]) + if s[|s| - 1] then 1 else 0
  }

  function Total(live: seq<Range>): nat {
    if live == [] then 0 else Total(live[..|live| - 1]) + live[|live| - 1].count
  }

  /** Page i of the pool belongs to the range. */
  predicate Owns(base: nat, r: Range, i: int) {
    r.addr <= base + i * PAGE_SIZE < r.addr + r.count * PAGE_SIZE
  }

  predicate InPool(p: Pool, r: Range) {
    r.count > 0 && r.addr % PAGE_SIZE == 0 && p.base <= r.addr && r.addr + r.count * PAGE_SIZE <= PoolEnd(p)
  }

  predicate Apart(a: Range, b: Range) {
    a.addr + a.count * PAGE_SIZE <= b.addr || b.addr + b.count * PAGE_SIZE <= a.addr
  }

  ghost predicate AllInPool(w: World) {
    forall k :: 0 <= k < |w.live| ==> InPool(w.pool, w.live[k])
  }

  ghost predicate AllApart(live: seq<Range>) {
    forall j, k :: 0 <= j < k < |live| ==> Apart(live[j], live[k])
  }

  /** Page i belongs to some live range. */
  ghost predicate Live(base: nat, live: seq<Range>, i: int) {
    exists k :: 0 <= k < |live| && Owns(base, live[k], i)
  }

  ghost predicate BitsAreLive(w: World) {
    forall i :: 0 <= i < |w.pool.used| ==> (w.pool.used[i] <==> Live(w.pool.base, w.live, i))
  }

  /** What holds between the bitmap and the ranges handed out. */
  ghost predicate Safe(w: World) {
    AllInPool(w) && AllApart(w.live) && BitsAreLive(w) && SetBits(w.pool.used) == Total(w.live)
  }

  lemma {:induction false} SetBitsUpdate(s: seq<bool>, i: nat, v: bool)
    requires i < |s| && s[i] != v
    ensures SetBits(s[i := v]) == SetBits(s) + if v then 1 else -1
  {
    var n := |s| - 1;
    if i < n {
      SetBitsUpdate(s[..n], i, v);
      assert s[i := v][..n] == s[..n][i := v];
    } else {
      assert s[i := v][..n] == s[..n];
    }
  }

  lemma {:induction false} SetBitsFill(s: seq<bool>, a: nat, b: nat, v: bool)
    requires a <= b <= |s| && forall i :: a <= i < b ==> s[i] != v
    ensures SetBits(Fill(s, a, b, v)) == SetBits(s) + if v then b - a else a - b
  {
    hide *;
    if a == b {
      assert Fill(s, a, b, v) == s;
    } else {
      SetBitsFill(s, a, b - 1, v);
      FillOne(s, a, b - 1, v);
      SetBitsUpdate(Fill(s, a, b - 1, v), b - 1, v);
    }
  }

  lemma {:induction false} SetBitsClear(n: nat)
    ensures SetBits(seq(n, _ => false)) == 0
  {
    if n == 0 {
    } else {
      SetBitsClear(n - 1);
      assert seq(n, _ => false)[..n - 1] == seq(n - 1, _ => false);
    }
  }

  lemma {:induction false} TotalWithout(live: seq<Range>, k: nat)
    requires k < |live|
    ensures Total(live[..k] + live[k + 1..]) == Total(live) - live[k].count
  {
    var n := |live| - 1;
    if k < n {
      TotalWithout(live[..n], k);
      assert (live[..k] + live[k + 1..])[..n - 1] == live[..n][..k] + live[..n][k + 1..];
    } else {
      assert live[..k] + live[k + 1..] == live[..n];
    }
  }

  /** A range in the pool owns a block of page numbers. */
  lemma OwnsIs(p: Pool, r: Range, i: int)
    requires WellPlaced(p) && InPool(p, r)
    ensures var start := (r.addr - p.base) / PAGE_SIZE;
            && r.addr == p.base + start * PAGE_SIZE && start + r.count <= |p.used|
            && (Owns(p.base, r, i) <==> start <= i < start + r.count)
  {
  }

  /** Two ranges of the pool with no page in common are apart. */
  lemma NoCommonPage(p: Pool, a: Range, b: Range)
    requires WellPlaced(p) && InPool(p, a) && InPool(p, b)
    requires forall i :: 0 <= i < |p.used| ==> !(Owns(p.base, a, i) && Owns(p.base, b, i))
    ensures Apart(a, b)
  {
    var i := (if a.addr <= b.addr then b.addr - p.base else a.addr - p.base) / PAGE_SIZE;
    OwnsIs(p, a, i);
    OwnsIs(p, b, i);
    assert !(Owns(p.base, a, i) && Owns(p.base, b, i));
  }

  /** From p to q the pages of r, all free in p, became used, and no other page changed. */
  ghost predicate Taken(p: Pool, q: Pool, r: Range) {
    && q.base == p.base && |q.used| == |p.used| && InPool(p, r)
    && forall i :: 0 <= i < |p.used| ==>
         q.used[i] == (p.used[i] || Owns(p.base, r, i)) && !(p.used[i] && Owns(p.base, r, i))
  }

  lemma GetTakes(p: Pool, count: nat)
    requires WellPlaced(p) && Get(p, count).1 != 0
    ensures Taken(p, Get(p, count).0, Range(Get(p, count).1, count))
  {
    GetSpec(p, count);
    hide Get;
    var (q, addr) := Get(p, count);
    forall i | 0 <= i < |p.used|
      ensures Owns(p.base, Range(addr, count), i) <==>
              (addr - p.base) / PAGE_SIZE <= i < (addr - p.base) / PAGE_SIZE + count
    {
      OwnsIs(p, Range(addr, count), i);
    }
  }

  /** An owner's free is the inverse step. */
  lemma FreeGives(p: Pool, r: Range)
    requires WellPlaced(p) && PoolEnd(p) < TWO32 && InPool(p, r)
    requires forall i :: 0 <= i < |p.used| && Owns(p.base, r, i) ==> p.used[i]
    ensures Taken(Free(p, r.addr, r.count), p, r)
  {
    WrapIs(PoolEnd(p));
    OwnsIs(p, r, 0);
    forall i | 0 <= i < |p.used|
      ensures Free(p, r.addr, r.count).used[i] == (p.used[i] && !Owns(p.base, r, i))
    {
      OwnsIs(p, r, i);
    }
  }

  lemma TakenCount(p: Pool, q: Pool, r: Range)
    requires WellPlaced(p) && Taken(p, q, r)
    ensures SetBits(q.used) == SetBits(p.used) + r.count
  {
    var start := (r.addr - p.base) / PAGE_SIZE;
    OwnsIs(p, r, 0);
    forall i | 0 <= i < |p.used| ensures Owns(p.base, r, i) <==> start <= i < start + r.count {
      OwnsIs(p, r, i);
    }
    hide Owns;
    assert q.used == Fill(p.used, start, start + r.count, true);
    SetBitsFill(p.used, start, start + r.count, true);
  }

  lemma LiveAppend(base: nat, live: seq<Range>, r: Range, i: int)
    ensures Live(base, live + [r], i) <==> Live(base, live, i) || Owns(base, r, i)
  {
    hide Owns;
    var all := live + [r];
    assert all[|live|] == r;
    if Live(base, live, i) {
      var k :| 0 <= k < |live| && Owns(base, live[k], i);
      assert all[k] == live[k];
    }
  }

  /** The j-th range of the rest is another range than the k-th. */
  lemma RestIndex(live: seq<Range>, k: nat, j': nat)
    requires k < |live| && j' < |live| - 1
    ensures var j := if j' < k then j' else j' + 1;
            j < |live| && j != k && (live[..k] + live[k + 1..])[j'] == live[j]
  {
  }

  lemma ApartOwners(base: nat, live: seq<Range>, j: nat, k: nat, i: int)
    requires AllApart(live) && j < |live| && k < |live| && j != k && Owns(base, live[j], i)
    ensures !Owns(base, live[k], i)
  {
    assert if j < k then Apart(live[j], live[k]) else Apart(live[k], live[j]);
  }

  lemma LiveWithout(base: nat, live: seq<Range>, k: nat, i: int)
    requires AllApart(live) && k < |live|
    ensures Live(base, live[..k] + live[k + 1..], i) <==> Live(base, live, i) && !Owns(base, live[k], i)
  {
    hide Owns, AllApart;
    var rest := live[..k] + live[k + 1..];
    if Live(base, rest, i) {
      var j' :| 0 <= j' < |rest| && Owns(base, rest[j'], i);
      RestIndex(live, k, j');
      ApartOwners(base, live, if j' < k then j' else j' + 1, k, i);
    }
    if Live(base, live, i) && !Owns(base, live[k], i) {
      var j :| 0 <= j < |live| && Owns(base, live[j], i);
      RestIndex(live, k, if j < k then j else j - 1);
    }
  }

  /** A range whose pages are all free is apart from every live one. */
  lemma TakenApart(w: World, q: Pool, r: Range)
    requires WellPlaced(w.pool) && AllInPool(w) && AllApart(w.live) && BitsAreLive(w) && Taken(w.pool, q, r)
    ensures AllApart(w.live + [r])
  {
    hide WellPlaced, InPool;
    forall j | 0 <= j < |w.live| ensures Apart(w.live[j], r) {
      NoCommonPage(w.pool, w.live[j], r);
    }
  }

  lemma TakeKeepsSafe(w: World, q: Pool, r: Range)
    requires Safe(w) && WellPlaced(w.pool) && Taken(w.pool, q, r)
    ensures Safe(World(q, w.live + [r]))
  {
    hide WellPlaced, InPool, Live, Owns, Apart;
    TakenApart(w, q, r);
    TakenCount(w.pool, q, r);
    var v := World(q, w.live + [r]);
    assert v.live[..|w.live|] == w.live;
    forall i | 0 <= i < |q.used| ensures q.used[i] <==> Live(q.base, v.live, i) {
      LiveAppend(q.base, w.live, r, i);
    }
    assert AllInPool(v) by { InPoolSame(w.pool, q); }
  }

  lemma InPoolSame(p: Pool, q: Pool)
    requires p.base == q.base && |p.used| == |q.used|
    ensures forall r :: InPool(p, r) <==> InPool(q, r)
  {
  }

  lemma GiveKeepsSafe(w: World, q: Pool, k: nat)
    requires Safe(w) && WellPlaced(w.pool) && k < |w.live| && Taken(q, w.pool, w.live[k])
    ensures Safe(World(q, w.live[..k] + w.live[k + 1..]))
  {
    hide InPool, Live, Owns, Apart;
    TakenCount(q, w.pool, w.live[k]);
    TotalWithout(w.live, k);
    var v := World(q, w.live[..k] + w.live[k + 1..]);
    forall i | 0 <= i < |q.used| ensures q.used[i] <==> Live(q.base, v.live, i) {
      LiveWithout(q.base, w.live, k, i);
    }
    assert AllInPool(v) by { InPoolSame(w.pool, q); }
  }

  /** Does the step do to the live ranges what it does to the bitmap? A free of a pool that ends at 2^32
      is rejected, so it does not. */
  predicate InStep(w: World, c: Call) {
    c.FreeCall? && c.k < |w.live| ==> PoolEnd(w.pool) < TWO32
  }

  /** A step keeps bitmap and live ranges together exactly when it is no free that is rejected. */
  lemma NextKeepsSafe(w: World, c: Call)
    requires Safe(w) && WellPlaced(w.pool)
    ensures Safe(Next(w, c)) <==> InStep(w, c)
    ensures WellPlaced(Next(w, c).pool) && PoolEnd(Next(w, c).pool) == PoolEnd(w.pool)
  {
    hide Safe, InPool, Owns, Get, Free;
    match c {
      case GetCall(count) => GetKeepsSafe(w, count);
      case FreeCall(k) =>
        if k < |w.live| {
          if PoolEnd(w.pool) < TWO32 {
            LivePagesUsed(w, k);
            FreeGives(w.pool, w.live[k]);
            GiveKeepsSafe(w, Free(w.pool, w.live[k].addr, w.live[k].count), k);
          } else {
            FreeRejectedAtTop(w.pool, w.live[k].addr, w.live[k].count);
            LostRange(w, k);
          }
        }
    }
  }

  lemma GetKeepsSafe(w: World, count: nat)
    requires Safe(w) && WellPlaced(w.pool)
    ensures Safe(Next(w, GetCall(count))) && WellPlaced(Next(w, GetCall(count)).pool)
    ensures PoolEnd(Next(w, GetCall(count)).pool) == PoolEnd(w.pool)
  {
    hide Safe, InPool, Owns, Get;
    var (q, addr) := Get(w.pool, count);
    if addr != 0 {
      GetTakes(w.pool, count);
      TakeKeepsSafe(w, q, Range(addr, count));
    } else {
      GetSpec(w.pool, count);
    }
  }

  /** Forgetting a range whose pages stay used. */
  lemma LostRange(w: World, k: nat)
    requires Safe(w) && k < |w.live|
    ensures !Safe(World(w.pool, w.live[..k] + w.live[k + 1..]))
  {
    TotalWithout(w.live, k);
    assert InPool(w.pool, w.live[k]);
  }

  lemma LivePagesUsed(w: World, k: nat)
    requires Safe(w) && k < |w.live|
    ensures InPool(w.pool, w.live[k])
    ensures forall i :: 0 <= i < |w.pool.used| && Owns(w.pool.base, w.live[k], i) ==> w.pool.used[i]
  {
    hide InPool, Owns;
    assert forall i :: Owns(w.pool.base, w.live[k], i) ==> Live(w.pool.base, w.live, i);
  }

  /** All ranges ever handed out by a run. */
  ghost function Given(w: World, calls: seq<Call>): seq<Range> {
    if calls == [] then [] else
    var before, last := calls[..|calls| - 1], calls[|calls| - 1];
    Given(w, before) +
    if last.GetCall? && Get(Run(w, before).pool, last.count).1 != 0
    then [Range(Get(Run(w, before).pool, last.count).1, last.count)] else []
  }

  /** Every run of gets and owner frees from an empty pool: the live ranges are page-aligned, inside the
      pool, hence clear of the bitmap's own pages, and pairwise apart; a bit is set exactly when its
      page lies in a live range; and the number of set bits is the sum of the live sizes. In a pool
      that ends at 2^32 the same holds of all ranges ever handed out, because none comes back: no bit
      is ever cleared and no two gets overlap. */
  lemma {:induction false} AllocatorSafety(base: nat, n: nat, calls: seq<Call>)
    requires WellPlaced(Pool(base, seq(n, _ => false)))
    ensures var start := World(Pool(base, seq(n, _ => false)), []);
            var w := Run(start, calls);
            && WellPlaced(w.pool) && PoolEnd(w.pool) == base + n * PAGE_SIZE
            && (PoolEnd(w.pool) < TWO32 ==> Safe(w))
            && (PoolEnd(w.pool) == TWO32 ==> Safe(World(w.pool, Given(start, calls))))
  {
    var start := World(Pool(base, seq(n, _ => false)), []);
    if calls == [] {
      SetBitsClear(n);
    } else {
      var before, last := calls[..|calls| - 1], calls[|calls| - 1];
      AllocatorSafety(base, n, before);
      hide Safe, Get, Free, WellPlaced;
      var w := Run(start, before);
      if PoolEnd(w.pool) < TWO32 {
        NextKeepsSafe(w, last);
      } else {
        NextAtTop(w, Given(start, before), last);
        assert Given(start, calls) == Given(start, before) +
          if last.GetCall? && Get(w.pool, last.count).1 != 0
          then [Range(Get(w.pool, last.count).1, last.count)] else [];
      }
    }
  }

  /** One step of a pool that ends at 2^32. */
  lemma NextAtTop(w: World, given: seq<Range>, c: Call)
    requires WellPlaced(w.pool) && PoolEnd(w.pool) == TWO32 && Safe(World(w.pool, given))
    ensures WellPlaced(Next(w, c).pool) && PoolEnd(Next(w, c).pool) == TWO32
    ensures var more := if c.GetCall? && Get(w.pool, c.count).1 != 0
                        then [Range(Get(w.pool, c.count).1, c.count)] else [];
            Safe(World(Next(w, c).pool, given + more))
  {
    hide Safe, Get, Free;
    match c {
      case GetCall(count) =>
        GetKeepsSafe(World(w.pool, given), count);
        assert given + [] == given;
      case FreeCall(k) =>
        if k < |w.live| { FreeRejectedAtTop(w.pool, w.live[k].addr, w.live[k].count); }
        assert given + [] == given;
    }
  }

  /** The pages [a, a + count) lie in the pool and in no live range. */
  ghost predicate Available(w: World, a: int, count: nat) {
    0 <= a && a + count <= |w.pool.used| && forall i :: a <= i < a + count ==> !Live(w.pool.base, w.live, i)
  }

  /** In a safe world a get fails only when every run of that many pages meets a live range. */
  lemma GetFailsIff(w: World, count: nat)
    requires Safe(w) && WellPlaced(w.pool) && count > 0
    ensures Get(w.pool, count).1 == 0 <==> !exists a :: Available(w, a, count)
  {
    GetSpec(w.pool, count);
    hide Get, Live;
    assert forall a: nat :: IsRun(w.pool.used, |w.pool.used|, a, count, false) <==> Available(w, a, count);
  }

  /** A pool that ends exactly at 2^32, which is what 2^18 pages of memory give, never takes a
      page back. */
  lemma FreeRejectedAtTop(p: Pool, addr: nat, count: nat)
    requires WellPlaced(p) && PoolEnd(p) == TWO32
    ensures Free(p, addr, count) == p
  {
  }
}
