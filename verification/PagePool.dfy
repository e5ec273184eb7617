/** The page-frame pool (kernel/mm.c): a bitmap in the first pages of a region hands out the rest. */
module PagePool {
  import opened Words
  import opened Bitmap
  import opened StringOps

  const SIZEOF_BITMAP := 4
  /** KERNEL_VADDR_BASE, where physical memory is mapped, and the pages that can be mapped there. */
  const KERNEL_BASE := 0xc000_0000
  const MAX_PAGES := 0x4_0000
  /** pg_no(KERNEL_MEM_POOL_PHY_START) */
  const LOW_PAGES := 0x100

  // ------------------------------------------------------- layout of a region

  /** Pages mem_pool_init sets aside for the bitmap of a region of n pages. */
  function BitmapPages(n: nat): nat {
    Wrap(RequiredBufSize(n) + SIZEOF_BITMAP + PAGE_SIZE - 1) / PAGE_SIZE
  }

  /** The bitmap pages are taken from the region, bitmap_create_in_buf accepts them for the rest,
      and every 4-byte word that holds one of the rest's bits lies inside them. */
  ghost predicate LayoutOk(n: nat) {
    && BitmapPages(n) <= n
    && FitsInBuf(n - BitmapPages(n), BitmapPages(n) * PAGE_SIZE)
    && forall i :: 0 <= i < n - BitmapPages(n) ==>
         SIZEOF_BITMAP + 4 * (i / WORD) + 4 <= BitmapPages(n) * PAGE_SIZE
  }

  /** The bitmap pages are the least number of pages that hold a bit per page of the region and the count. */
  lemma BitmapPagesLeast(n: nat, k: nat)
    requires 1 <= n <= 0xffff_fff8
    ensures 8 * (k * PAGE_SIZE - SIZEOF_BITMAP) >= n <==> k >= BitmapPages(n)
  {
    BitmapPagesSuffice(n);
    assert (n + 7) / 8 + SIZEOF_BITMAP <= k * PAGE_SIZE <==> 8 * (k * PAGE_SIZE - SIZEOF_BITMAP) >= n;
    assert BitmapPages(n) * PAGE_SIZE < (n + 7) / 8 + SIZEOF_BITMAP + PAGE_SIZE;
    hide BitmapPages;
  }

  lemma BitmapPagesSuffice(n: nat)
    requires 1 <= n <= 0xffff_fff8
    ensures BitmapPages(n) <= n
    ensures (n + 7) / 8 + SIZEOF_BITMAP <= BitmapPages(n) * PAGE_SIZE <= (n + 7) / 8 + SIZEOF_BITMAP + PAGE_SIZE
  {
    assert RequiredBufSize(n) == (n + 7) / 8;
  }

  /** The region can hold its own bitmap exactly for 1 to 2^32 - 8 pages, although the size that
      is checked is rounded to bytes and the words are written in units of four. */
  lemma PoolLayout(n: nat)
    requires n < TWO32
    ensures LayoutOk(n) <==> 1 <= n <= 0xffff_fff8
  {
    hide LayoutOk;
    if 1 <= n <= 0xffff_fff8 {
      LayoutHolds(n);
    } else if n == 0 {
      LayoutFailsEmpty();
    } else {
      LayoutFailsHuge(n);
    }
  }

  lemma LayoutHolds(n: nat)
    requires 1 <= n <= 0xffff_fff8
    ensures LayoutOk(n)
  {
    hide BitmapPages;
    BitmapPagesSuffice(n);
    assert FitsInBuf(n - BitmapPages(n), BitmapPages(n) * PAGE_SIZE);
  }

  lemma LayoutFailsEmpty()
    ensures !LayoutOk(0)
  {
    assert BitmapPages(0) == 1;
  }

  lemma LayoutFailsHuge(n: nat)
    requires 0xffff_fff8 < n < TWO32
    ensures !LayoutOk(n)
  {
    hide FitsInBuf;
    assert RequiredBufSize(n) == 0 && BitmapPages(n) == 1;
    var i := n - 2;
    assert 0 <= i < n - BitmapPages(n) && 4 * (i / WORD) > PAGE_SIZE;
  }

  // ----------------------------------------------------------- specification

  /** used[i] is the bit of page i of the pool. */
  datatype Pool = Pool(base: nat, used: seq<bool>)

  function PoolEnd(p: Pool): nat { p.base + |p.used| * PAGE_SIZE }

  /** The pool lies in the 32-bit address space above page 0. */
  predicate WellPlaced(p: Pool) {
    PAGE_SIZE <= p.base && p.base % PAGE_SIZE == 0 && PoolEnd(p) <= TWO32
  }

  /** Trying every start in turn. */
  ghost function FirstFit(s: seq<bool>, from: nat, n: nat): Option<nat>
    decreases |s| - from
  {
    if from + n > |s| then None
    else if IsRun(s, |s|, from, n, false) then Some(from)
    else if from == |s| then None
    else FirstFit(s, from + 1, n)
  }

  lemma {:induction false} FirstFitIs(s: seq<bool>, from: nat, n: nat)
    ensures match FirstFit(s, from, n)
            case None => forall a :: a >= from ==> !IsRun(s, |s|, a, n, false)
            case Some(i) => i >= from && IsRun(s, |s|, i, n, false)
                            && forall a :: from <= a < i ==> !IsRun(s, |s|, a, n, false)
    decreases |s| - from
  {
    if from + n <= |s| && !IsRun(s, |s|, from, n, false) && from < |s| {
      FirstFitIs(s, from + 1, n);
    }
  }

  /** The search that skips past mismatches finds what trying every start finds. */
  lemma SearchIsFirstFit(s: seq<bool>, limit: nat, n: nat, r: nat)
    requires limit <= |s| && limit < TWO32 && n > 0
    requires IsFirstRun(s, limit, 0, n, false, r)
    ensures FirstFit(s[..limit], 0, n) == if r == BITMAP_ERR then None else Some(r)
  {
    FirstFitIs(s[..limit], 0, n);
    assert forall a :: IsRun(s[..limit], limit, a, n, false) <==> IsRun(s, limit, a, n, false);
  }

  /** mm_kget_pages: the pool afterwards and the address returned, 0 for NULL. */
  ghost function Get(p: Pool, count: nat): (r: (Pool, nat)) {
    if count == 0 then (p, 0) else
    match FirstFit(p.used, 0, count)
    case None => (p, 0)
    case Some(i) =>
      FirstFitIs(p.used, 0, count);
      (p.(used := Fill(p.used, i, i + count, true)), Wrap(p.base + i * PAGE_SIZE))
  }

  /** mm_kfree_pages: the end of the pool and the end of the range may both wrap. */
  ghost function Free(p: Pool, addr: nat, count: nat): Pool {
    var page := addr / PAGE_SIZE;
    if page * PAGE_SIZE < p.base || page * PAGE_SIZE >= Wrap(PoolEnd(p)) then p else
    var start := page - p.base / PAGE_SIZE;
    if start >= 0 && start + count <= |p.used| then p.(used := Fill(p.used, start, start + count, false)) else p
  }

  /** A get of no page or one that finds no free run returns NULL and changes nothing; otherwise
      the pages of the lowest free run become used, and no other. */
  lemma GetSpec(p: Pool, count: nat)
    requires WellPlaced(p)
    ensures Get(p, count).1 == 0 <==>
            count == 0 || forall a :: !IsRun(p.used, |p.used|, a, count, false)
    ensures Get(p, count).1 == 0 ==> Get(p, count).0 == p
    ensures Get(p, count).1 != 0 ==>
              var (q, addr) := Get(p, count);
              var i := (addr - p.base) / PAGE_SIZE;
              && p.base <= addr && addr % PAGE_SIZE == 0 && addr + count * PAGE_SIZE <= PoolEnd(p)
              && q == p.(used := q.used) && |q.used| == |p.used|
              && (forall k :: 0 <= k < |p.used| ==> q.used[k] == (p.used[k] || i <= k < i + count))
              && IsRun(p.used, |p.used|, i, count, false)
              && forall a :: 0 <= a < i ==> !IsRun(p.used, |p.used|, a, count, false)
  {
    FirstFitIs(p.used, 0, count);
    if count > 0 {
      match FirstFit(p.used, 0, count) {
        case None =>
        case Some(i) =>
          var addr := p.base + i * PAGE_SIZE;
          WrapIs(addr);
          assert (addr - p.base) / PAGE_SIZE == i;
          assert addr % PAGE_SIZE == 0;
      }
    }
  }

  /** A free of any address in any page takes effect exactly if the pool ends below 2^32, the address lies in
      it and the range does not leave it; then it clears the bits of the range, whether they were set
      or not, and no other. */
  lemma FreeSpec(p: Pool, addr: nat, count: nat)
    requires WellPlaced(p)
    ensures var q, first := Free(p, addr, count), (addr - p.base) / PAGE_SIZE;
            if PoolEnd(p) < TWO32 && p.base <= addr < PoolEnd(p) && first + count <= |p.used|
            then
              && q == p.(used := q.used) && |q.used| == |p.used|
              && forall k :: 0 <= k < |p.used| ==> q.used[k] == (p.used[k] && !(first <= k < first + count))
            else q == p
  {
    WrapIs(PoolEnd(p));
    PageOf(addr, p.base);
    InPool(p, addr);
  }

  /** Pages are counted from an aligned base. */
  lemma PageOf(addr: nat, base: nat)
    requires base % PAGE_SIZE == 0
    ensures (addr - base) / PAGE_SIZE == addr / PAGE_SIZE - base / PAGE_SIZE
    ensures addr / PAGE_SIZE * PAGE_SIZE >= base <==> addr >= base
  {
  }

  lemma InPool(p: Pool, addr: nat)
    requires WellPlaced(p)
    ensures addr / PAGE_SIZE * PAGE_SIZE >= PoolEnd(p) <==> addr >= PoolEnd(p)
  {
    PageOf(addr, PoolEnd(p));
  }

  /** A get followed by its free restores the pool exactly, except when the pool ends at 2^32,
      where its end wraps to 0 and every free is rejected. */
  lemma GetThenFree(p: Pool, count: nat)
    requires WellPlaced(p)
    requires Get(p, count).1 != 0
    ensures Free(Get(p, count).0, Get(p, count).1, count) == p <==> PoolEnd(p) < TWO32
  {
    GetSpec(p, count);
    var (q, addr) := Get(p, count);
    var i := (addr - p.base) / PAGE_SIZE;
    WrapIs(PoolEnd(p));
    assert addr / PAGE_SIZE - p.base / PAGE_SIZE == i;
    if PoolEnd(p) < TWO32 {
      assert Free(q, addr, count).used == p.used;
    } else {
      assert Free(q, addr, count) == q && q.used[i] != p.used[i];
    }
  }

  // ---------------------------------------------------------------- the pool

  datatype PageFrameFlag = PF_ATOMIC | PF_ZERO

  class MemPool {
    const bm: Bitmap
    const base: nat
    /** The bytes of the pool's pages, from address base on. */
    const frames: array<byte>

    constructor (bm: Bitmap, base: nat, frames: array<byte>)
      ensures this.bm == bm && this.base == base && this.frames == frames
    {
      this.bm, this.base, this.frames := bm, base, frames;
    }

    ghost predicate Valid()
      reads this, bm
    {
      && bm.Valid() && base < TWO32 && base % PAGE_SIZE == 0
      && frames.Length == bm.bitCount * PAGE_SIZE && frames as object != bm.bits
    }

    ghost function View(): (p: Pool)
      requires Valid()
      reads this, bm, bm.bits
      ensures p.base == base && |p.used| == bm.bitCount
    {
      Pool(base, bm.View()[..bm.bitCount])
    }

    /** The locked part of mm_kget_pages. */
    method TakeRun(count: nat) returns (idx: nat)
      requires Valid() && 0 < count < TWO32
      modifies bm.bits
      ensures Valid()
      ensures FirstFit(old(View()).used, 0, count) == if idx == BITMAP_ERR then None else Some(idx)
      ensures idx == BITMAP_ERR ==> View() == old(View())
      ensures idx != BITMAP_ERR ==>
                && idx + count <= bm.bitCount
                && View() == old(View()).(used := Fill(old(View()).used, idx, idx + count, true))
    {
      idx := bm.FindFirstBitsGroup(0, count, false);
      SearchIsFirstFit(bm.View(), bm.bitCount, count, idx);
      if idx != BITMAP_ERR {
        ghost var p := View();
        bm.ConfigMulti(idx, count, true);
        assert View().used == Fill(p.used, idx, idx + count, true);
      }
    }

    /** mm_kget_pages: the flags decide about zeroing alone. */
    method GetPages(flags: set<PageFrameFlag>, count: nat) returns (pages: nat)
      requires Valid() && WellPlaced(View()) && count < TWO32
      modifies bm.bits, frames
      ensures Valid() && (View(), pages) == Get(old(View()), count)
      ensures forall k :: 0 <= k < frames.Length ==>
                frames[k] == if pages != 0 && PF_ZERO in flags && pages <= base + k < pages + count * PAGE_SIZE
                             then 0 else old(frames[k])
    {
      if count == 0 {
        return 0;
      }
      var idx := TakeRun(count);
      if idx == BITMAP_ERR {
        return 0;
      }
      pages := Wrap(base + idx * PAGE_SIZE);
      assert (View(), pages) == Get(old(View()), count);
      assert pages == base + idx * PAGE_SIZE by { WrapIs(base + idx * PAGE_SIZE); }
      if PF_ZERO in flags {
        var _ := Memset(frames, At(idx * PAGE_SIZE), 0, count * PAGE_SIZE);
      }
    }

    /** mm_kget_page */
    method GetPage(flags: set<PageFrameFlag>) returns (page: nat)
      requires Valid() && WellPlaced(View())
      modifies bm.bits, frames
      ensures Valid() && (View(), page) == Get(old(View()), 1)
      ensures forall k :: 0 <= k < frames.Length ==>
                frames[k] == if page != 0 && PF_ZERO in flags && page <= base + k < page + PAGE_SIZE
                             then 0 else old(frames[k])
    {
      page := GetPages(flags, 1);
    }

    /** mm_kfree_pages */
    method FreePages(addr: nat, count: nat)
      requires Valid() && WellPlaced(View()) && addr < TWO32 && count < TWO32
      modifies bm.bits
      ensures Valid() && View() == Free(old(View()), addr, count)
    {
      ghost var p := View();
      var end := Wrap(base + Wrap(bm.bitCount * PAGE_SIZE));
      WrapIs(bm.bitCount * PAGE_SIZE);
      var pages := addr / PAGE_SIZE * PAGE_SIZE;
      if pages < base || pages >= end {
        return;
      }
      var start := Wrap(pages / PAGE_SIZE - base / PAGE_SIZE);
      WrapIs(pages / PAGE_SIZE - base / PAGE_SIZE);
      if Wrap(start + count) > bm.bitCount {
        WrapIs(start + count);
        return;
      }
      bm.ConfigMulti(start, count, false);
      assert start + count <= |p.used| ==> View().used == Fill(p.used, start, start + count, false);
    }
  }

  lemma RegionFits(start: nat, n: nat)
    requires start % PAGE_SIZE == 0 && 1 <= n && start + n * PAGE_SIZE <= TWO32 && start + PAGE_SIZE < TWO32
    ensures Wrap(n - BitmapPages(n)) == n - BitmapPages(n)
    ensures FitsInBuf(n - BitmapPages(n), BitmapPages(n) * PAGE_SIZE)
    ensures 1 <= BitmapPages(n) && n - BitmapPages(n) <= WORD * (BitmapPages(n) * (PAGE_SIZE / 4) - 1)
    ensures Wrap(start + BitmapPages(n) * PAGE_SIZE) == start + BitmapPages(n) * PAGE_SIZE
  {
    PoolLayout(n);
    BitmapPagesSuffice(n);
    hide BitmapPages, FitsInBuf;
    WrapIs(n - BitmapPages(n));
    WrapIs(start + BitmapPages(n) * PAGE_SIZE);
  }

  /** mem_pool_init on the region of pageCnt pages at start. `words` are the words after the
      bit count in the bitmap's pages and `frames` the bytes of the others, both of any contents. */
  method MemPoolInit(start: nat, pageCnt: nat, words: array<bv32>, frames: array<byte>)
    returns (pool: MemPool?)
    requires start % PAGE_SIZE == 0 && 1 <= pageCnt && start + pageCnt * PAGE_SIZE <= TWO32 && start + PAGE_SIZE < TWO32
    requires words.Length == BitmapPages(pageCnt) * (PAGE_SIZE / 4) - 1
    requires frames.Length == (pageCnt - BitmapPages(pageCnt)) * PAGE_SIZE && frames as object != words
    modifies words
    ensures pool != null && fresh(pool) && fresh(pool.bm) && pool.bm.bits == words && pool.frames == frames
    ensures pool.Valid() && WellPlaced(pool.View()) && PoolEnd(pool.View()) == start + pageCnt * PAGE_SIZE
    ensures pool.View() == Pool(start + BitmapPages(pageCnt) * PAGE_SIZE,
                                seq(pageCnt - BitmapPages(pageCnt), _ => false))
  {
    hide BitmapPages, FitsInBuf, RequiredBufSize, Wrap;
    RegionFits(start, pageCnt);
    var bmPages := BitmapPages(pageCnt);
    var count := Wrap(pageCnt - bmPages);
    if !FitsInBuf(count, bmPages * PAGE_SIZE) {
      return null;
    }
    var bm := new Bitmap(count, words);
    bm.ConfigAll(false);
    pool := new MemPool(bm, Wrap(start + bmPages * PAGE_SIZE), frames);
  }

  /** The region mm_init asks mem_pool_init for, after leaving the low pages out with a size_t
      subtraction, is the rest of memory and can hold its bitmap exactly when memory has more pages
      than those. */
  lemma LowPagesLeftOut(pageNum: nat)
    requires pageNum < TWO32
    ensures Wrap(pageNum - LOW_PAGES) + LOW_PAGES == pageNum && LayoutOk(Wrap(pageNum - LOW_PAGES))
            <==> LOW_PAGES < pageNum
  {
    WrapIs(pageNum - LOW_PAGES);
    hide Wrap, LayoutOk;
    PoolLayout(Wrap(pageNum - LOW_PAGES));
  }

  /** mm_init leaves the pages below 1 MB out. Of memory that ends below 1 GB every page can come
      back to the pool; with exactly 1 GB the end of the pool wraps to 0. */
  method MmInit(pageNum: nat, words: array<bv32>, frames: array<byte>) returns (pool: MemPool?)
    requires LOW_PAGES < pageNum <= MAX_PAGES
    requires words.Length == BitmapPages(pageNum - LOW_PAGES) * (PAGE_SIZE / 4) - 1
    requires frames.Length == (pageNum - LOW_PAGES - BitmapPages(pageNum - LOW_PAGES)) * PAGE_SIZE
    requires frames as object != words
    modifies words
    ensures pool != null && fresh(pool) && fresh(pool.bm) && pool.bm.bits == words && pool.frames == frames
    ensures pool.Valid() && WellPlaced(pool.View())
    ensures KERNEL_BASE <= pool.base
    ensures |pool.View().used| == pageNum - LOW_PAGES - BitmapPages(pageNum - LOW_PAGES)
    ensures forall i :: 0 <= i < |pool.View().used| ==> !pool.View().used[i]
    ensures PoolEnd(pool.View()) == KERNEL_BASE + pageNum * PAGE_SIZE
    ensures PoolEnd(pool.View()) < TWO32 <==> pageNum < MAX_PAGES
  {
    pool := MemPoolInit(KERNEL_BASE + LOW_PAGES * PAGE_SIZE, pageNum - LOW_PAGES, words, frames);
  }
}
