/** The kernel page tables (kernel/init.c, kernel/pte.h, kernel/vaddr.h) and their meaning under
    the two-level walk of the IA-32 Software Developer's Manual, volume 3A, section 3.7.6. */
module Paging {
  import opened Words
  import opened Bitmap
  import opened StringOps
  import opened PagePool
  import opened PoolRuns

  const PTE_P := 1
  const PTE_W := 2
  const ENTRIES := 1024

  // ------------------------------------------------------ addresses, entries

  function Ptov(paddr: nat): nat { Wrap(paddr + KERNEL_BASE) }

  function Vtop(vaddr: nat): nat { Wrap(vaddr - KERNEL_BASE) }

  function VirtToPdIdx(vaddr: nat): nat { vaddr / 0x40_0000 }

  function VirtToPtIdx(vaddr: nat): nat { vaddr / PAGE_SIZE % ENTRIES }

  /** The mask 0xfffff000 rounds down to a page; the other mask keeps the low 12 bits. */
  function MkPde(paddr: nat, flags: nat): nat { paddr / PAGE_SIZE * PAGE_SIZE + flags % PAGE_SIZE }

  function MkPte(paddr: nat, flags: nat): nat { MkPde(paddr, flags) }

  // ------------------------------------------------------------------- words

  /** The little-endian 32-bit word at off. */
  function Word(m: seq<byte>, off: nat): (r: nat)
    requires off + 4 <= |m|
    ensures r < TWO32
  {
    m[off] as int + 0x100 * m[off + 1] as int + 0x1_0000 * m[off + 2] as int + 0x100_0000 * m[off + 3] as int
  }

  function Store(m: seq<byte>, off: nat, v: nat): (r: seq<byte>)
    requires off + 4 <= |m| && v < TWO32
    ensures |r| == |m|
  {
    m[off := v % 0x100][off + 1 := v / 0x100 % 0x100][off + 2 := v / 0x1_0000 % 0x100][off + 3 := v / 0x100_0000]
  }

  lemma Recompose(v: nat)
    requires v < TWO32
    ensures v % 0x100 + 0x100 * (v / 0x100 % 0x100) + 0x1_0000 * (v / 0x1_0000 % 0x100)
            + 0x100_0000 * (v / 0x100_0000) == v
  {
    assert v / 0x100 / 0x100 == v / 0x1_0000;
    assert v / 0x1_0000 / 0x100 == v / 0x100_0000;
  }

  lemma Apart4(x: nat, y: nat)
    requires x % 4 == 0 && y % 4 == 0 && x != y
    ensures x + 4 <= y || y + 4 <= x
  {
  }

  lemma StoreLaw(m: seq<byte>, off: nat, v: nat, at: nat)
    requires off + 4 <= |m| && v < TWO32 && at + 4 <= |m| && off % 4 == 0 && at % 4 == 0
    ensures Word(Store(m, off, v), at) == if at == off then v else Word(m, at)
  {
    if at == off {
      Recompose(v);
    } else {
      Apart4(off, at);
      var r := Store(m, off, v);
      assert r[at] == m[at] && r[at + 1] == m[at + 1] && r[at + 2] == m[at + 2] && r[at + 3] == m[at + 3];
    }
  }

  method StoreWord(mem: array<byte>, off: nat, v: nat)
    requires off + 4 <= mem.Length && v < TWO32
    modifies mem
    ensures mem[..] == Store(old(mem[..]), off, v)
  {
    mem[off] := v % 0x100;
    mem[off + 1] := v / 0x100 % 0x100;
    mem[off + 2] := v / 0x1_0000 % 0x100;
    mem[off + 3] := v / 0x100_0000;
  }

  // -------------------------------------------------------------------- walk

  datatype Translation = NotPresent | OutsideMemory | Mapped(paddr: nat, writable: bool)

  /** Translating va with the tables in the physical memory [low, low + |m|). */
  function Walk(m: seq<byte>, low: nat, cr3: nat, va: nat): Translation {
    var d := cr3 / PAGE_SIZE * PAGE_SIZE + 4 * (va / 0x40_0000) - low;
    if d < 0 || d + 4 > |m| then OutsideMemory else
    var pde := Word(m, d);
    if pde % 2 == 0 then NotPresent else
    var t := pde / PAGE_SIZE * PAGE_SIZE + 4 * (va / PAGE_SIZE % ENTRIES) - low;
    if t < 0 || t + 4 > |m| then OutsideMemory else
    var pte := Word(m, t);
    if pte % 2 == 0 then NotPresent else
    Mapped(pte / PAGE_SIZE * PAGE_SIZE + va % PAGE_SIZE, pde / 2 % 2 == 1 && pte / 2 % 2 == 1)
  }

  // ------------------------------------------------------------------ tables

  /** The kernel text [start, end) as the linker symbols give it. */
  datatype Text = Text(start: nat, end: nat)

  /** Is the kernel page of physical page i left writable? */
  predicate Writable(text: Text, i: nat) {
    !(text.start <= KERNEL_BASE + i * PAGE_SIZE < text.end)
  }

  /** The entry the loop writes for physical page i. */
  function Entry(text: Text, i: nat): nat {
    MkPte(i * PAGE_SIZE, if Writable(text, i) then PTE_P + PTE_W else PTE_P)
  }

  /** Offsets of the directory and of the tables built so far, each a page of its own. */
  ghost predicate Pages(size: nat, pd: nat, tables: seq<nat>) {
    && pd % PAGE_SIZE == 0 && pd + PAGE_SIZE <= size
    && (forall j :: 0 <= j < |tables| ==>
          tables[j] % PAGE_SIZE == 0 && tables[j] + PAGE_SIZE <= size && tables[j] != pd)
    && (forall j, k :: 0 <= j < k < |tables| ==> tables[j] != tables[k])
  }

  /** The directory after the tables were entered from KERNEL_BASE on. */
  ghost predicate Directory(m: seq<byte>, low: nat, pd: nat, tables: seq<nat>)
    requires Pages(|m|, pd, tables)
  {
    forall k :: 0 <= k < ENTRIES ==>
      Word(m, pd + 4 * k) == if 0 <= k - 768 < |tables| then MkPde(low + tables[k - 768], PTE_P + PTE_W) else 0
  }

  /** Table j after the first n pages were mapped. */
  ghost predicate Table(m: seq<byte>, t: nat, j: nat, n: nat, text: Text)
    requires t + PAGE_SIZE <= |m|
  {
    forall k :: 0 <= k < ENTRIES ==>
      Word(m, t + 4 * k) == if ENTRIES * j + k < n then Entry(text, ENTRIES * j + k) else 0
  }

  ghost predicate Built(m: seq<byte>, low: nat, pd: nat, tables: seq<nat>, n: nat, text: Text) {
    && Pages(|m|, pd, tables)
    && n <= ENTRIES * |tables|
    && Directory(m, low, pd, tables)
    && forall j :: 0 <= j < |tables| ==> Table(m, tables[j], j, n, text)
  }

  /** The three parts of an address. */
  lemma SplitAddress(va: nat)
    requires va < TWO32
    ensures VirtToPdIdx(va) < ENTRIES && VirtToPtIdx(va) < ENTRIES
    ensures va == (VirtToPdIdx(va) * ENTRIES + VirtToPtIdx(va)) * PAGE_SIZE + va % PAGE_SIZE
  {
    assert va / PAGE_SIZE / ENTRIES == va / 0x40_0000;
  }

  lemma EntryPage(page: nat, flags: nat)
    requires flags < 4
    ensures MkPde(page * PAGE_SIZE, flags) == page * PAGE_SIZE + flags
    ensures MkPde(page * PAGE_SIZE, flags) / PAGE_SIZE == page
  {
  }

  lemma TwoBits(q: nat, a: nat, b: nat)
    requires a < 2 && b < 2
    ensures (4 * q + 2 * a + b) % 2 == b && (4 * q + 2 * a + b) / 2 == 2 * q + a
    ensures (4 * q + 2 * a + b) / 2 % 2 == a
  {
  }

  lemma LowBits(page: nat, flags: nat)
    requires flags < 4
    ensures (page * PAGE_SIZE + flags) % 2 == flags % 2
    ensures (page * PAGE_SIZE + flags) / 2 % 2 == flags / 2
  {
    TwoBits(page * 1024, flags / 2, flags % 2);
    assert page * PAGE_SIZE + flags == 4 * (page * 1024) + 2 * (flags / 2) + flags % 2;
  }

  /** An entry keeps its page address and its two flag bits apart. */
  lemma EntryParts(page: nat, flags: nat)
    requires flags < 4
    ensures MkPde(page * PAGE_SIZE, flags) / PAGE_SIZE == page
    ensures MkPde(page * PAGE_SIZE, flags) % 2 == flags % 2
    ensures MkPde(page * PAGE_SIZE, flags) / 2 % 2 == flags / 2
  {
    hide MkPde;
    EntryPage(page, flags);
    LowBits(page, flags);
  }

  /** The entry the walk finds in the directory. */
  lemma DirectoryEntry(m: seq<byte>, low: nat, pd: nat, tables: seq<nat>, k: nat)
    requires Pages(|m|, pd, tables) && Directory(m, low, pd, tables) && low % PAGE_SIZE == 0 && k < ENTRIES
    ensures var pde := Word(m, pd + 4 * k);
            if 0 <= k - 768 < |tables|
            then pde % 2 == 1 && pde / 2 % 2 == 1 && pde / PAGE_SIZE * PAGE_SIZE == low + tables[k - 768]
            else pde == 0
  {
    hide Word, MkPde;
    if 0 <= k - 768 < |tables| {
      var page := (low + tables[k - 768]) / PAGE_SIZE;
      assert low + tables[k - 768] == page * PAGE_SIZE;
      EntryParts(page, PTE_P + PTE_W);
    }
  }

  /** The entry the walk finds in table j. */
  lemma TableEntry(m: seq<byte>, t: nat, j: nat, n: nat, text: Text, k: nat)
    requires t + PAGE_SIZE <= |m| && Table(m, t, j, n, text) && k < ENTRIES
    ensures var pte, i := Word(m, t + 4 * k), ENTRIES * j + k;
            if i < n
            then pte % 2 == 1 && (pte / 2 % 2 == 1 <==> Writable(text, i)) && pte / PAGE_SIZE == i
            else pte == 0
  {
    hide Word, Writable, MkPde;
    var i := ENTRIES * j + k;
    EntryParts(i, if Writable(text, i) then PTE_P + PTE_W else PTE_P);
  }

  /** The page of a kernel address is left writable exactly if it does not begin in the text. */
  lemma WritableIs(text: Text, va: nat)
    requires va >= KERNEL_BASE
    ensures Writable(text, (va - KERNEL_BASE) / PAGE_SIZE) <==> !(text.start <= va / PAGE_SIZE * PAGE_SIZE < text.end)
  {
    assert KERNEL_BASE + (va - KERNEL_BASE) / PAGE_SIZE * PAGE_SIZE == va / PAGE_SIZE * PAGE_SIZE;
  }

  /** What the tables mean: the first n pages of memory are mapped at KERNEL_BASE, read-only where a page
      begins in the text and writable otherwise, and nothing else is present. */
  lemma BuiltMeans(m: seq<byte>, low: nat, pd: nat, tables: seq<nat>, n: nat, text: Text, va: nat)
    requires Built(m, low, pd, tables, n, text) && n <= MAX_PAGES && va < TWO32 && low % PAGE_SIZE == 0
    ensures Walk(m, low, low + pd, va) ==
            if KERNEL_BASE <= va < KERNEL_BASE + n * PAGE_SIZE
            then Mapped(va - KERNEL_BASE, !(text.start <= va / PAGE_SIZE * PAGE_SIZE < text.end))
            else NotPresent
  {
    hide Word, Writable, Directory, Table;
    var k, e := VirtToPdIdx(va), VirtToPtIdx(va);
    SplitAddress(va);
    DirectoryEntry(m, low, pd, tables, k);
    assert (low + pd) / PAGE_SIZE * PAGE_SIZE == low + pd;
    if 0 <= k - 768 < |tables| {
      TableEntry(m, tables[k - 768], k - 768, n, text, e);
      var i := ENTRIES * (k - 768) + e;
      assert va - KERNEL_BASE == i * PAGE_SIZE + va % PAGE_SIZE;
      assert (va - KERNEL_BASE) / PAGE_SIZE == i;
      WritableIs(text, va);
    }
  }

  lemma TablesMean(m: seq<byte>, low: nat, pd: nat, tables: seq<nat>, n: nat, text: Text)
    requires Built(m, low, pd, tables, n, text) && n <= MAX_PAGES && low % PAGE_SIZE == 0
    ensures forall va: nat :: va < TWO32 ==>
              Walk(m, low, low + pd, va) ==
              if KERNEL_BASE <= va < KERNEL_BASE + n * PAGE_SIZE
              then Mapped(va - KERNEL_BASE, !(text.start <= va / PAGE_SIZE * PAGE_SIZE < text.end))
              else NotPresent
  {
    hide *;
    forall va: nat | va < TWO32
      ensures Walk(m, low, low + pd, va) ==
              if KERNEL_BASE <= va < KERNEL_BASE + n * PAGE_SIZE
              then Mapped(va - KERNEL_BASE, !(text.start <= va / PAGE_SIZE * PAGE_SIZE < text.end))
              else NotPresent
    {
      BuiltMeans(m, low, pd, tables, n, text, va);
    }
  }

  // ------------------------------------------------------------ construction

  lemma SlotAddress(page: nat, k: nat, page': nat, k': nat)
    requires page % PAGE_SIZE == 0 && k < ENTRIES && page' % PAGE_SIZE == 0 && k' < ENTRIES
    ensures (page + 4 * k) % 4 == 0 && (page' + 4 * k') % 4 == 0
    ensures page + 4 * k == page' + 4 * k' <==> page == page' && k == k'
  {
  }

  /** Writing entry k of one page changes that entry alone among all entries of all pages. */
  lemma SlotLaw(m: seq<byte>, page: nat, k: nat, v: nat, page': nat, k': nat)
    requires page % PAGE_SIZE == 0 && page + PAGE_SIZE <= |m| && k < ENTRIES && v < TWO32
    requires page' % PAGE_SIZE == 0 && page' + PAGE_SIZE <= |m| && k' < ENTRIES
    ensures Word(Store(m, page + 4 * k, v), page' + 4 * k') ==
            if page' == page && k' == k then v else Word(m, page' + 4 * k')
  {
    SlotAddress(page, k, page', k');
    hide Word, Store;
    StoreLaw(m, page + 4 * k, v, page' + 4 * k');
  }

  /** z is m with the page at t zeroed. */
  ghost predicate Zeroed(m: seq<byte>, z: seq<byte>, t: nat) {
    |z| == |m| && forall i :: 0 <= i < |m| ==> z[i] == if t <= i < t + PAGE_SIZE then 0 else m[i]
  }

  lemma ZeroedWord(m: seq<byte>, z: seq<byte>, t: nat, page: nat, k: nat)
    requires Zeroed(m, z, t) && t % PAGE_SIZE == 0 && page % PAGE_SIZE == 0
    requires page + PAGE_SIZE <= |m| && k < ENTRIES
    ensures Word(z, page + 4 * k) == if page == t then 0 else Word(m, page + 4 * k)
  {
    assert page < t ==> page + PAGE_SIZE <= t;
    assert t < page ==> t + PAGE_SIZE <= page;
  }

  /** Zeroing another page keeps what is built and makes a table without entries. */
  lemma ZeroedKeeps(m: seq<byte>, z: seq<byte>, low: nat, pd: nat, tables: seq<nat>, t: nat, text: Text)
    requires Built(m, low, pd, tables, ENTRIES * |tables|, text) && Zeroed(m, z, t)
    requires t % PAGE_SIZE == 0 && t + PAGE_SIZE <= |m| && t != pd && t !in tables
    ensures Built(z, low, pd, tables, ENTRIES * |tables|, text)
    ensures Table(z, t, |tables|, ENTRIES * |tables|, text)
  {
    assert |z| == |m|;
    hide Word, MkPde, Zeroed, Entry;
    forall k | 0 <= k < ENTRIES ensures Word(z, pd + 4 * k) == Word(m, pd + 4 * k) && Word(z, t + 4 * k) == 0 {
      ZeroedWord(m, z, t, pd, k);
      ZeroedWord(m, z, t, t, k);
    }
    forall j | 0 <= j < |tables| ensures Table(z, tables[j], j, ENTRIES * |tables|, text) {
      assert Table(m, tables[j], j, ENTRIES * |tables|, text);
      forall k | 0 <= k < ENTRIES ensures Word(z, tables[j] + 4 * k) == Word(m, tables[j] + 4 * k) {
        ZeroedWord(m, z, t, tables[j], k);
      }
    }
  }

  /** Writing to one page keeps the tables in others. */
  lemma TableKept(m: seq<byte>, pd: nat, at: nat, v: nat, t: nat, j: nat, n: nat, text: Text)
    requires pd % PAGE_SIZE == 0 && pd + PAGE_SIZE <= |m| && at < ENTRIES && v < TWO32
    requires t % PAGE_SIZE == 0 && t + PAGE_SIZE <= |m| && t != pd && Table(m, t, j, n, text)
    ensures Table(Store(m, pd + 4 * at, v), t, j, n, text)
  {
    hide Word, Entry, Store;
    forall k | 0 <= k < ENTRIES ensures Word(Store(m, pd + 4 * at, v), t + 4 * k) == Word(m, t + 4 * k) {
      SlotLaw(m, pd, at, v, t, k);
    }
  }

  /** Entering a table without entries into the directory. */
  lemma TableEntered(m: seq<byte>, low: nat, pd: nat, tables: seq<nat>, t: nat, text: Text)
    requires Built(m, low, pd, tables, ENTRIES * |tables|, text) && |tables| < 256
    requires Pages(|m|, pd, tables + [t]) && MkPde(low + t, PTE_P + PTE_W) < TWO32
    requires Table(m, (tables + [t])[|tables|], |tables|, ENTRIES * |tables|, text)
    ensures var r := Store(m, pd + 4 * (768 + |tables|), MkPde(low + t, PTE_P + PTE_W));
            Built(r, low, pd, tables + [t], ENTRIES * |tables|, text)
  {
    hide Word, Store, MkPde, Table;
    var at, v := 768 + |tables|, MkPde(low + t, PTE_P + PTE_W);
    var r, all := Store(m, pd + 4 * at, v), tables + [t];
    forall k | 0 <= k < ENTRIES
      ensures Word(r, pd + 4 * k) == if 0 <= k - 768 < |all| then MkPde(low + all[k - 768], PTE_P + PTE_W) else 0
    {
      SlotLaw(m, pd, at, v, pd, k);
    }
    forall j | 0 <= j < |all| ensures Table(r, all[j], j, ENTRIES * |tables|, text) {
      assert j < |tables| ==> all[j] == tables[j];
      TableKept(m, pd, at, v, all[j], j, ENTRIES * |tables|, text);
    }
  }

  /** What writing the next entry into the last table does. */
  lemma EntryWritten(m: seq<byte>, low: nat, pd: nat, tables: seq<nat>, n: nat, text: Text)
    requires Built(m, low, pd, tables, n, text) && Entry(text, n) < TWO32
    requires |tables| > 0 && n / ENTRIES == |tables| - 1
    ensures var r := Store(m, tables[|tables| - 1] + 4 * (n % ENTRIES), Entry(text, n));
            Built(r, low, pd, tables, n + 1, text)
  {
    hide Word, Store, MkPde, Writable, Entry;
    var last, e, v := tables[|tables| - 1], n % ENTRIES, Entry(text, n);
    var r := Store(m, last + 4 * e, v);
    forall k | 0 <= k < ENTRIES ensures Word(r, pd + 4 * k) == Word(m, pd + 4 * k) {
      SlotLaw(m, last, e, v, pd, k);
    }
    forall j | 0 <= j < |tables| ensures Table(r, tables[j], j, n + 1, text) {
      assert Table(m, tables[j], j, n, text);
      forall k | 0 <= k < ENTRIES
        ensures Word(r, tables[j] + 4 * k) == if ENTRIES * j + k < n + 1 then Entry(text, ENTRIES * j + k) else 0
      {
        SlotLaw(m, last, e, v, tables[j], k);
        assert n == ENTRIES * (|tables| - 1) + e;
      }
    }
  }

  lemma {:induction false} SomeBitClear(s: seq<bool>)
    requires SetBits(s) < |s|
    ensures exists i :: 0 <= i < |s| && !s[i]
  {
    if s[|s| - 1] {
      SomeBitClear(s[..|s| - 1]);
    }
  }

  lemma OnePageNumber(p: Pool) returns (i: nat)
    requires WellPlaced(p) && SetBits(p.used) < |p.used|
    ensures i < |p.used| && !p.used[i] && Get(p, 1).1 == p.base + i * PAGE_SIZE
    ensures Get(p, 1).0 == p.(used := Get(p, 1).0.used) && |Get(p, 1).0.used| == |p.used|
    ensures forall k :: 0 <= k < |p.used| ==> Get(p, 1).0.used[k] == (p.used[k] || k == i)
  {
    SomeBitClear(p.used);
    var k :| 0 <= k < |p.used| && !p.used[k];
    assert IsRun(p.used, |p.used|, k, 1, false);
    GetSpec(p, 1);
    hide Get;
    i := (Get(p, 1).1 - p.base) / PAGE_SIZE;
  }

  /** While not every bit is set a single page can be had. */
  lemma OnePageAvailable(p: Pool) returns (i: nat)
    requires WellPlaced(p) && SetBits(p.used) < |p.used|
    ensures i < |p.used| && !p.used[i]
    ensures Get(p, 1) == (Pool(p.base, p.used[i := true]), p.base + i * PAGE_SIZE)
    ensures SetBits(p.used[i := true]) == SetBits(p.used) + 1
  {
    i := OnePageNumber(p);
    hide Get, SetBits;
    assert Get(p, 1).0.used == p.used[i := true];
    SetBitsUpdate(p.used, i, true);
  }

  /** One page from mm_kget_page(PF_ZERO | PF_ATOMIC); i is its number in the pool. */
  method ZeroPage(pool: MemPool) returns (page: nat, ghost i: nat)
    requires pool.Valid() && WellPlaced(pool.View()) && SetBits(pool.View().used) < |pool.View().used|
    modifies pool.bm.bits, pool.frames
    ensures pool.Valid() && WellPlaced(pool.View())
    ensures i < |pool.View().used| && page == pool.base + i * PAGE_SIZE
    ensures !old(pool.View()).used[i] && pool.View().used == old(pool.View()).used[i := true]
    ensures SetBits(pool.View().used) == SetBits(old(pool.View()).used) + 1
    ensures Zeroed(old(pool.frames[..]), pool.frames[..], i * PAGE_SIZE)
  {
    ghost var p := pool.View();
    i := OnePageAvailable(p);
    hide Get, SetBits;
    var flags := {PF_ZERO, PF_ATOMIC};
    page := pool.GetPage(flags);
    assert Zeroed(old(pool.frames[..]), pool.frames[..], i * PAGE_SIZE);
  }

  /** The number of page tables for n pages. */
  function TableCount(n: nat): nat { (n + ENTRIES - 1) / ENTRIES }

  /** The pages at pd and tables are set in the bitmap and were clear before; no bit was cleared. */
  ghost predicate Fresh(before: seq<bool>, now: seq<bool>, pd: nat, tables: seq<nat>) {
    && |now| == |before| && Pages(|now| * PAGE_SIZE, pd, tables)
    && now[pd / PAGE_SIZE] && !before[pd / PAGE_SIZE]
    && (forall j :: 0 <= j < |tables| ==> now[tables[j] / PAGE_SIZE] && !before[tables[j] / PAGE_SIZE])
    && (forall i :: 0 <= i < |before| && before[i] ==> now[i])
    && SetBits(now) == SetBits(before) + 1 + |tables|
  }

  lemma FreshMore(before: seq<bool>, now: seq<bool>, pd: nat, tables: seq<nat>, i: nat)
    requires Fresh(before, now, pd, tables) && i < |now| && !now[i]
    ensures Fresh(before, now[i := true], pd, tables + [i * PAGE_SIZE])
  {
    SetBitsUpdate(now, i, true);
    hide SetBits;
    var all := tables + [i * PAGE_SIZE];
    assert forall j :: 0 <= j < |tables| ==> all[j] == tables[j];
    assert i * PAGE_SIZE / PAGE_SIZE == i;
  }

  /** A page that was free is none of the pages in use here. */
  lemma FreshPageApart(before: seq<bool>, now: seq<bool>, pd: nat, tables: seq<nat>, i: nat)
    requires Fresh(before, now, pd, tables) && i < |now| && !now[i]
    ensures i * PAGE_SIZE != pd && i * PAGE_SIZE !in tables
    ensures Pages(|now| * PAGE_SIZE, pd, tables + [i * PAGE_SIZE])
  {
    assert i * PAGE_SIZE / PAGE_SIZE == i;
  }

  /** Taking page i zeroed and entering it into the directory as the next table. */
  lemma TableAdded(m: seq<byte>, z: seq<byte>, low: nat, pd: nat, tables: seq<nat>, text: Text,
                   before: seq<bool>, now: seq<bool>, i: nat)
    requires Built(m, low, pd, tables, ENTRIES * |tables|, text) && |tables| < 256
    requires Fresh(before, now, pd, tables) && i < |now| && !now[i] && Zeroed(m, z, i * PAGE_SIZE)
    requires |m| == |now| * PAGE_SIZE && MkPde(low + i * PAGE_SIZE, PTE_P + PTE_W) < TWO32
    ensures var r := Store(z, pd + 4 * (768 + |tables|), MkPde(low + i * PAGE_SIZE, PTE_P + PTE_W));
            Built(r, low, pd, tables + [i * PAGE_SIZE], ENTRIES * |tables|, text)
    ensures Fresh(before, now[i := true], pd, tables + [i * PAGE_SIZE])
  {
    hide MkPde, Store, Directory, Table, Entry, SetBits;
    FreshPageApart(before, now, pd, tables, i);
    FreshMore(before, now, pd, tables, i);
    hide Fresh;
    ZeroedKeeps(m, z, low, pd, tables, i * PAGE_SIZE, text);
    TableEntered(z, low, pd, tables, i * PAGE_SIZE, text);
  }

  /** Index arithmetic for physical page i seen at KERNEL_BASE. */
  lemma PageAddress(i: nat)
    requires i < MAX_PAGES
    ensures Ptov(i * PAGE_SIZE) == KERNEL_BASE + i * PAGE_SIZE
    ensures Vtop(KERNEL_BASE + i * PAGE_SIZE) == i * PAGE_SIZE
    ensures VirtToPdIdx(KERNEL_BASE + i * PAGE_SIZE) == 768 + i / ENTRIES < ENTRIES
    ensures VirtToPtIdx(KERNEL_BASE + i * PAGE_SIZE) == i % ENTRIES
  {
    WrapIs(i * PAGE_SIZE + KERNEL_BASE);
    WrapIs(i * PAGE_SIZE);
    hide Wrap;
  }

  lemma PoolPagePhysical(p: Pool, i: nat)
    requires WellPlaced(p) && KERNEL_BASE <= p.base && i < |p.used|
    ensures Vtop(p.base + i * PAGE_SIZE) == p.base - KERNEL_BASE + i * PAGE_SIZE
    ensures MkPde(Vtop(p.base + i * PAGE_SIZE), PTE_P + PTE_W) < TWO32
  {
    WrapIs(p.base + i * PAGE_SIZE - KERNEL_BASE);
    hide Wrap;
  }

  /** What the loop keeps: n pages are mapped by the pages taken, and pt is the last table. */
  ghost predicate Mapping(pool: MemPool, pd: nat, pt: nat, before: seq<bool>, tables: seq<nat>, n: nat, text: Text)
    reads pool, pool.bm, pool.bm.bits, pool.frames
  {
    && pool.Valid() && WellPlaced(pool.View()) && KERNEL_BASE <= pool.base && pool.base <= pd
    && Built(pool.frames[..], pool.base - KERNEL_BASE, pd - pool.base, tables, n, text)
    && Fresh(before, pool.View().used, pd - pool.base, tables)
    && (tables != [] ==> pt == pool.base + tables[|tables| - 1])
  }

  lemma BuiltPd(m: seq<byte>, low: nat, pd: nat, tables: seq<nat>, n: nat, text: Text)
    requires Built(m, low, pd, tables, n, text)
    ensures pd % PAGE_SIZE == 0 && pd + PAGE_SIZE <= |m|
  {
  }

  /** The directory entry the loop tests is empty exactly when page n starts a new table. */
  lemma DirectoryTest(m: seq<byte>, low: nat, pd: nat, tables: seq<nat>, n: nat, text: Text)
    requires Built(m, low, pd, tables, n, text) && n < MAX_PAGES && |tables| == TableCount(n) && low % PAGE_SIZE == 0
    ensures pd + 4 * (768 + n / ENTRIES) + 4 <= |m|
    ensures Word(m, pd + 4 * (768 + n / ENTRIES)) == 0 <==> n == ENTRIES * |tables|
    ensures n != ENTRIES * |tables| ==> n / ENTRIES == |tables| - 1
  {
    hide Word;
    DirectoryEntry(m, low, pd, tables, 768 + n / ENTRIES);
  }

  /** The branch of the loop that takes a page for a new table. */
  method AddTable(pool: MemPool, pd: nat, ghost oldPt: nat, pdIdx: nat,
                  ghost before: seq<bool>, ghost tables: seq<nat>, ghost text: Text)
    returns (pt: nat, ghost off: nat)
    requires Mapping(pool, pd, oldPt, before, tables, ENTRIES * |tables|, text)
    requires |tables| < 256 && pdIdx == 768 + |tables| && SetBits(pool.View().used) < |pool.View().used|
    modifies pool.bm.bits, pool.frames
    ensures Mapping(pool, pd, pt, before, tables + [off], ENTRIES * |tables|, text)
  {
    hide SetBits, Built, Fresh, Zeroed, MkPde, Vtop, Store, Word;
    ghost var m, p := pool.frames[..], pool.View();
    ghost var i: nat;
    pt, i := ZeroPage(pool);
    off := i * PAGE_SIZE;
    PoolPagePhysical(p, i);
    assert pd - pool.base + PAGE_SIZE <= |m| by {
      BuiltPd(m, pool.base - KERNEL_BASE, pd - pool.base, tables, ENTRIES * |tables|, text);
    }
    TableAdded(m, pool.frames[..], pool.base - KERNEL_BASE, pd - pool.base, tables, text, before, p.used, i);
    StoreWord(pool.frames, pd - pool.base + 4 * pdIdx, MkPde(Vtop(pt), PTE_P + PTE_W));
  }

  /** The write at the end of the loop body. */
  method WriteEntry(pool: MemPool, ghost pd: nat, pt: nat, i: nat, vaddr: nat, text: Text,
                    ghost before: seq<bool>, ghost tables: seq<nat>)
    requires Mapping(pool, pd, pt, before, tables, i, text) && i < MAX_PAGES && vaddr == KERNEL_BASE + i * PAGE_SIZE
    requires |tables| > 0 && i / ENTRIES == |tables| - 1
    modifies pool.frames
    ensures Mapping(pool, pd, pt, before, tables, i + 1, text)
    ensures pool.View() == old(pool.View())
  {
    hide SetBits, Fresh, Store, Word, Vtop, MkPte, VirtToPtIdx, Directory, Table;
    PageAddress(i);
    var flags := PTE_P + PTE_W;
    if text.start <= vaddr < text.end {
      flags := PTE_P;
    }
    assert MkPte(Vtop(vaddr), flags) == Entry(text, i) < TWO32 by { EntryIs(text, i, flags); }
    EntryWritten(pool.frames[..], pool.base - KERNEL_BASE, pd - pool.base, tables, i, text);
    StoreWord(pool.frames, pt - pool.base + 4 * VirtToPtIdx(vaddr), MkPte(Vtop(vaddr), flags));
  }

  lemma EntryIs(text: Text, i: nat, flags: nat)
    requires i < MAX_PAGES && flags == if Writable(text, i) then PTE_P + PTE_W else PTE_P
    ensures MkPte(i * PAGE_SIZE, flags) == Entry(text, i) < TWO32
  {
  }

  /** The directory right after it was taken. */
  lemma DirectoryZeroed(m: seq<byte>, z: seq<byte>, low: nat, before: seq<bool>, i: nat, text: Text)
    requires |m| == |before| * PAGE_SIZE && i < |before| && !before[i] && Zeroed(m, z, i * PAGE_SIZE)
    ensures Built(z, low, i * PAGE_SIZE, [], 0, text)
    ensures Fresh(before, before[i := true], i * PAGE_SIZE, [])
  {
    SetBitsUpdate(before, i, true);
    assert i * PAGE_SIZE / PAGE_SIZE == i;
    hide SetBits, Word;
    forall k | 0 <= k < ENTRIES ensures Word(z, i * PAGE_SIZE + 4 * k) == 0 {
      ZeroedWord(m, z, i * PAGE_SIZE, i * PAGE_SIZE, k);
    }
  }

  lemma FreshCount(before: seq<bool>, now: seq<bool>, pd: nat, tables: seq<nat>)
    requires Fresh(before, now, pd, tables)
    ensures SetBits(now) == SetBits(before) + 1 + |tables| && |now| == |before|
  {
  }

  /** Right after mm_init the pool has enough pages for the tables exactly from 259 pages of memory on. */
  lemma BootPagesSuffice(n: nat)
    requires LOW_PAGES < n <= MAX_PAGES
    ensures 1 + TableCount(n) <= n - LOW_PAGES - BitmapPages(n - LOW_PAGES) <==> n >= 259
  {
    BitmapPagesSuffice(n - LOW_PAGES);
    hide BitmapPages;
  }

  /** kernel_pg_dir_init: the result is the value loaded into CR3. The tables take one page and one
      for every 1024 pages begun, all of them free before, although pt remembers only the last. */
  method KernelPgDirInit(pool: MemPool, initRamPages: nat, text: Text) returns (cr3: nat)
    requires pool.Valid() && WellPlaced(pool.View()) && KERNEL_BASE <= pool.base
    requires initRamPages <= MAX_PAGES
    requires SetBits(pool.View().used) + 1 + TableCount(initRamPages) <= |pool.View().used|
    modifies pool.bm.bits, pool.frames
    ensures pool.Valid() && WellPlaced(pool.View())
    ensures forall va: nat :: va < TWO32 ==>
              Walk(pool.frames[..], pool.base - KERNEL_BASE, cr3, va) ==
              if KERNEL_BASE <= va < KERNEL_BASE + initRamPages * PAGE_SIZE
              then Mapped(va - KERNEL_BASE, !(text.start <= va / PAGE_SIZE * PAGE_SIZE < text.end))
              else NotPresent
    ensures exists pd: nat, tables ::
              && cr3 == pool.base - KERNEL_BASE + pd && |tables| == TableCount(initRamPages)
              && Fresh(old(pool.View()).used, pool.View().used, pd, tables)
  {
    hide SetBits, Built, Fresh, Store, Word, Ptov, VirtToPdIdx, Walk;
    ghost var before := pool.View().used;
    ghost var low := pool.base - KERNEL_BASE;
    ghost var n: nat, tables: seq<nat>;
    var pd;
    pd, n := ZeroPage(pool);
    tables := [];
    DirectoryZeroed(old(pool.frames[..]), pool.frames[..], low, before, n, text);
    var pt := 0;
    for i := 0 to initRamPages
      invariant Mapping(pool, pd, pt, before, tables, i, text)
      invariant pool.View().base + PAGE_SIZE * |pool.View().used| <= TWO32
      invariant |tables| == TableCount(i)
    {
      PageAddress(i);
      var vaddr := Ptov(i * PAGE_SIZE);
      var pdIdx := VirtToPdIdx(vaddr);
      DirectoryTest(pool.frames[..], low, pd - pool.base, tables, i, text);
      FreshCount(before, pool.View().used, pd - pool.base, tables);
      if Word(pool.frames[..], pd - pool.base + 4 * pdIdx) == 0 {
        ghost var off: nat;
        pt, off := AddTable(pool, pd, pt, pdIdx, before, tables, text);
        tables := tables + [off];
      }
      WriteEntry(pool, pd, pt, i, vaddr, text, before, tables);
    }
    PoolPagePhysical(pool.View(), n);
    cr3 := Vtop(pd);
    TablesMean(pool.frames[..], low, pd - pool.base, tables, initRamPages, text);
  }

  lemma {:induction false} SetBitsNone(s: seq<bool>)
    requires forall i :: 0 <= i < |s| ==> !s[i]
    ensures SetBits(s) == 0
  {
    if s == [] {
    } else {
      SetBitsNone(s[..|s| - 1]);
    }
  }

  /** The memory part of main: mm_init and then kernel_pg_dir_init, on every memory of 259 pages to 1 GB,
      where the pages that mm_init leaves suffice. */
  method InitMemory(initRamPages: nat, text: Text, words: array<bv32>, frames: array<byte>)
    returns (pool: MemPool?, cr3: nat)
    requires 259 <= initRamPages <= MAX_PAGES
    requires words.Length == BitmapPages(initRamPages - LOW_PAGES) * (PAGE_SIZE / 4) - 1
    requires frames.Length == (initRamPages - LOW_PAGES - BitmapPages(initRamPages - LOW_PAGES)) * PAGE_SIZE
    requires frames as object != words
    modifies words, frames
    ensures pool != null && pool.Valid() && WellPlaced(pool.View()) && pool.frames == frames
    ensures KERNEL_BASE <= pool.base
    ensures forall va: nat :: va < TWO32 ==>
              Walk(frames[..], pool.base - KERNEL_BASE, cr3, va) ==
              if KERNEL_BASE <= va < KERNEL_BASE + initRamPages * PAGE_SIZE
              then Mapped(va - KERNEL_BASE, !(text.start <= va / PAGE_SIZE * PAGE_SIZE < text.end))
              else NotPresent
    ensures SetBits(pool.View().used) == 1 + TableCount(initRamPages)
    ensures exists before, pd: nat, tables ::
              && (forall i :: 0 <= i < |before| ==> !before[i])
              && cr3 == pool.base - KERNEL_BASE + pd && |tables| == TableCount(initRamPages)
              && Fresh(before, pool.View().used, pd, tables)
  {
    hide SetBits, Walk, Fresh, BitmapPages;
    pool := MmInit(initRamPages, words, frames);
    SetBitsNone(pool.View().used);
    BootPagesSuffice(initRamPages);
    ghost var before := pool.View().used;
    cr3 := KernelPgDirInit(pool, initRamPages, text);
    ghost var pd: nat, tables :|
      && cr3 == pool.base - KERNEL_BASE + pd && |tables| == TableCount(initRamPages)
      && Fresh(before, pool.View().used, pd, tables);
    FreshCount(before, pool.View().used, pd, tables);
  }
}
