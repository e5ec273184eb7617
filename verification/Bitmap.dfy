/** Packed bitmaps (lib/kernel/bitmap.c) over 32-bit words, with size_t wrapping at 2^32. */
module Bitmap {
  import opened Words

  const WORD := 32
  const BITMAP_ERR := 0xffff_ffff

  // -------------------------------------------------------------------- words

  function Mask(k: nat): bv32
    requires k < WORD
  {
    (1 as bv32) << k
  }

  predicate Test(w: bv32, k: nat)
    requires k < WORD
  {
    w & Mask(k) != 0
  }

  function Write(w: bv32, k: nat, v: bool): bv32
    requires k < WORD
  {
    if v then w | Mask(k) else w & !Mask(k)
  }

  function Ones(v: bool): bv32 { if v then 0xffff_ffff else 0 }

  lemma MasksApart(j: nat, k: nat)
    requires j < WORD && k < WORD && j != k
    ensures Mask(k) & Mask(j) == 0
  {
    MaskNumber(j);
    MaskNumber(k);
    hide Mask;
    BitsApart(j as bv32, k as bv32);
  }

  lemma MaskNumber(k: nat)
    requires k < WORD
    ensures (k as bv32) < 32 && Mask(k) == (1 as bv32) << (k as bv32) && (k as bv32) as nat == k
  {
  }

  lemma BitsApart(j: bv32, k: bv32)
    requires j < 32 && k < 32 && j != k
    ensures ((1 as bv32) << k) & ((1 as bv32) << j) == 0
  {
  }

  lemma OrApart(w: bv32, m: bv32, n: bv32)
    requires m & n == 0
    ensures (w | m) & n == w & n
  {
  }

  lemma AndNotApart(w: bv32, m: bv32, n: bv32)
    requires m & n == 0
    ensures (w & !m) & n == w & n
  {
  }

  lemma SetOther(w: bv32, j: nat, k: nat)
    requires j < WORD && k < WORD && j != k
    ensures (w | Mask(k)) & Mask(j) == w & Mask(j)
  {
    MasksApart(j, k);
    hide *;
    OrApart(w, Mask(k), Mask(j));
  }

  lemma ClearOther(w: bv32, j: nat, k: nat)
    requires j < WORD && k < WORD && j != k
    ensures (w & !Mask(k)) & Mask(j) == w & Mask(j)
  {
    MasksApart(j, k);
    hide *;
    AndNotApart(w, Mask(k), Mask(j));
  }

  lemma SameTest(x: bv32, y: bv32, j: nat)
    requires j < WORD && x & Mask(j) == y & Mask(j)
    ensures Test(x, j) == Test(y, j)
  {
    hide Mask;
  }

  lemma WriteOther(w: bv32, j: nat, k: nat, v: bool)
    requires j < WORD && k < WORD && j != k
    ensures Test(Write(w, k, v), j) == Test(w, j)
  {
    hide Mask, Test;
    if v {
      SetOther(w, j, k);
      SameTest(w | Mask(k), w, j);
    } else {
      ClearOther(w, j, k);
      SameTest(w & !Mask(k), w, j);
    }
  }

  lemma SetSame(w: bv32, k: nat)
    requires k < WORD
    ensures Test(Write(w, k, true), k)
  {
  }

  lemma ClearSame(w: bv32, k: nat)
    requires k < WORD
    ensures !Test(Write(w, k, false), k)
  {
  }

  /** |= and &= ~ with the mask of bit k change bit k and no other. */
  lemma WordUpdate(w: bv32, j: nat, k: nat, v: bool)
    requires j < WORD && k < WORD
    ensures Test(Write(w, k, v), j) == if j == k then v else Test(w, j)
  {
    hide *;
    if j != k {
      WriteOther(w, j, k, v);
    } else if v {
      SetSame(w, k);
    } else {
      ClearSame(w, k);
    }
  }

  lemma ComplementOfSet(w: bv32, k: nat)
    requires k < WORD && w & Mask(k) != 0
    ensures !w & Mask(k) == 0
  {
  }

  lemma ComplementOfClear(w: bv32, k: nat)
    requires k < WORD && w & Mask(k) == 0
    ensures !w & Mask(k) != 0
  {
  }

  /** The two tests of bitmap_test_bit agree. */
  lemma ComplementTest(w: bv32, k: nat)
    requires k < WORD
    ensures !w & Mask(k) != 0 <==> !Test(w, k)
  {
    hide Mask;
    if Test(w, k) { ComplementOfSet(w, k); } else { ComplementOfClear(w, k); }
  }

  lemma TestOnes(v: bool, k: nat)
    requires k < WORD
    ensures Test(Ones(v), k) == v
  {
  }

  predicate BitAt(words: seq<bv32>, i: nat)
    requires i < WORD * |words|
  {
    Test(words[i / WORD], i % WORD)
  }

  /** The bits the words hold, padding included. */
  ghost function Bits(words: seq<bv32>): (s: seq<bool>)
    ensures |s| == WORD * |words|
  {
    seq(WORD * |words|, (i: int) requires 0 <= i < WORD * |words| => BitAt(words, i))
  }

  /** s with [a, b) set to v. */
  function Fill(s: seq<bool>, a: nat, b: nat, v: bool): (r: seq<bool>)
    requires b <= |s|
    ensures |r| == |s|
    ensures forall i :: 0 <= i < |s| ==> r[i] == if a <= i < b then v else s[i]
  {
    seq(|s|, (i: int) requires 0 <= i < |s| => if a <= i < b then v else s[i])
  }

  lemma {:induction false} FillOne(s: seq<bool>, a: nat, b: nat, v: bool)
    requires a <= b < |s|
    ensures Fill(s, a, b, v)[b := v] == Fill(s, a, b + 1, v)
  {
  }

  lemma BitsUpdate(words: seq<bv32>, i: nat, v: bool)
    requires i < WORD * |words|
    ensures Bits(words[i / WORD := Write(words[i / WORD], i % WORD, v)]) == Bits(words)[i := v]
  {
    hide Write, Test;
    var k := i / WORD;
    var w := words[k := Write(words[k], i % WORD, v)];
    forall j | 0 <= j < WORD * |words|
      ensures BitAt(w, j) == Bits(words)[i := v][j]
    {
      if j / WORD == k {
        WordUpdate(words[k], j % WORD, i % WORD, v);
        assert j == i <==> j % WORD == i % WORD;
      }
    }
  }

  lemma BitsWord(words: seq<bv32>, k: nat, v: bool)
    requires k < |words|
    ensures Bits(words[k := Ones(v)]) == Fill(Bits(words), WORD * k, WORD * (k + 1), v)
  {
    hide Test, Ones;
    var w := words[k := Ones(v)];
    forall j | 0 <= j < WORD * |words|
      ensures BitAt(w, j) == Fill(Bits(words), WORD * k, WORD * (k + 1), v)[j]
    {
      if j / WORD == k { TestOnes(v, j % WORD); }
    }
  }

  // --------------------------------------------------------- the group search

  /** Bits [a, a + n) lie below limit and equal v. */
  ghost predicate IsRun(s: seq<bool>, limit: nat, a: nat, n: nat, v: bool)
    requires limit <= |s|
  {
    a + n <= limit && forall i :: a <= i < a + n ==> s[i] == v
  }

  /** What the search promises: the first run of n bits equal to v at or after `from`. */
  ghost predicate IsFirstRun(s: seq<bool>, limit: nat, from: nat, n: nat, v: bool, r: nat)
    requires limit <= |s|
  {
    if r == BITMAP_ERR then n == 0 || forall a :: a >= from ==> !IsRun(s, limit, a, n, v)
    else n > 0 && r >= from && IsRun(s, limit, r, n, v) && forall a :: from <= a < r ==> !IsRun(s, limit, a, n, v)
  }

  /** The promise determines the result. */
  lemma FirstRunUnique(s: seq<bool>, limit: nat, from: nat, n: nat, v: bool, r: nat, r': nat)
    requires limit <= |s| && limit < TWO32
    requires IsFirstRun(s, limit, from, n, v, r) && IsFirstRun(s, limit, from, n, v, r')
    ensures r == r'
  {
  }

  /** A mismatch at position m rules out every start from `start` up to m. */
  lemma MismatchSkips(s: seq<bool>, limit: nat, start: nat, m: nat, n: nat, v: bool)
    requires limit <= |s| && start <= m < limit && s[m] != v
    requires m < start + n || start + n > limit
    ensures forall a :: start <= a <= m ==> !IsRun(s, limit, a, n, v)
  {
  }

  /** The search stops at the first run, or when no start is left that could begin one. */
  lemma SearchEnds(s: seq<bool>, limit: nat, from: nat, start: nat, n: nat, v: bool)
    requires limit <= |s| && limit < TWO32 && from <= start
    requires n > 0 ==> forall a :: from <= a < start ==> !IsRun(s, limit, a, n, v)
    ensures start + n > limit || n == 0 ==> IsFirstRun(s, limit, from, n, v, BITMAP_ERR)
    ensures n > 0 && start + n <= limit && (forall i :: start <= i < start + n ==> s[i] == v) ==>
              IsFirstRun(s, limit, from, n, v, start)
  {
  }

  /** DIV_ROUND_UP(bit_count, BITS_PER_UINT8) */
  function RequiredBufSize(bitCount: nat): nat {
    Wrap(bitCount + 7) / 8
  }

  /** bitmap_create_in_buf: does the buffer pass the size test? */
  predicate FitsInBuf(bitCount: nat, bufSize: nat) {
    Wrap(bufSize - 4) >= RequiredBufSize(bitCount)
  }

  class Bitmap {
    var bitCount: nat
    const bits: array<bv32>

    constructor (bitCount: nat, bits: array<bv32>)
      ensures this.bitCount == bitCount && this.bits == bits
    {
      this.bitCount, this.bits := bitCount, bits;
    }

    ghost predicate Valid()
      reads this
    {
      bitCount <= WORD * bits.Length && bitCount < TWO32
    }

    ghost function View(): (s: seq<bool>)
      reads this, bits
      ensures |s| == WORD * bits.Length
    {
      Bits(bits[..])
    }

    /** bitmap_test_bit */
    function TestBit(idx: nat, val: bool): (r: bool)
      requires idx < WORD * bits.Length
      reads this, bits
      ensures r == (View()[idx] == val)
    {
      ComplementTest(bits[idx / WORD], idx % WORD);
      if val then bits[idx / WORD] & Mask(idx % WORD) != 0
      else !bits[idx / WORD] & Mask(idx % WORD) != 0
    }

    /** bitmap_config_bit: out of range is ignored. */
    method ConfigBit(idx: nat, val: bool)
      requires Valid() && idx < TWO32
      modifies bits
      ensures View() == if idx < bitCount then old(View())[idx := val] else old(View())
    {
      if idx >= bitCount {
        return;
      }
      ghost var words := bits[..];
      BitsUpdate(words, idx, val);
      var k := idx / WORD;
      bits[k] := Write(bits[k], idx % WORD, val);
      assert bits[..] == words[k := bits[k]];
    }

    /** bitmap_config_all: whole words, then the bits left over; the padding stays. */
    method ConfigAll(val: bool)
      requires Valid()
      modifies bits
      ensures View() == Fill(old(View()), 0, bitCount, val)
    {
      var v := Ones(val);
      var bound, res := bitCount / WORD, bitCount % WORD;
      assert View() == Fill(View(), 0, 0, val);
      for i := 0 to bound
        invariant View() == Fill(old(View()), 0, WORD * i, val)
      {
        ghost var words := bits[..];
        BitsWord(words, i, val);
        bits[i] := v;
        assert bits[..] == words[i := v];
        assert View() == Fill(old(View()), 0, WORD * (i + 1), val);
      }
      for i := 0 to res
        invariant View() == Fill(old(View()), 0, WORD * bound + i, val)
      {
        ConfigBit(bound * WORD + i, val);
        FillOne(old(View()), 0, WORD * bound + i, val);
      }
    }

    /** bitmap_set_multi_bits and bitmap_reset_multi_bits, which differ only in val: a range that
        leaves the map, also one whose end wraps round, changes nothing. */
    method ConfigMulti(idxStart: nat, count: nat, val: bool)
      requires Valid() && idxStart < TWO32 && count < TWO32
      modifies bits
      ensures View() == if idxStart + count <= bitCount then Fill(old(View()), idxStart, idxStart + count, val)
                        else old(View())
    {
      var last := Wrap(idxStart + count);
      if last > bitCount {
        return;
      }
      var i := idxStart;
      if idxStart <= |View()| { assert View() == Fill(View(), idxStart, idxStart, val); }
      while i < last
        invariant idxStart <= i && (i <= last || i == idxStart)
        invariant last == idxStart + count || last <= idxStart
        invariant View() == if i <= last then Fill(old(View()), idxStart, i, val) else old(View())
      {
        FillOne(old(View()), idxStart, i, val);
        ConfigBit(i, val);
        i := i + 1;
      }
    }

    /** bitmap_find_first_bits_group: for all 32-bit arguments the first run of `count` bits
        equal to val at or after idxStart, although a mismatch moves the search past itself
        instead of to the next start, and although idxStart + count may wrap. */
    method FindFirstBitsGroup(idxStart: nat, count: nat, val: bool) returns (idx: nat)
      requires Valid() && idxStart < TWO32 && count < TWO32
      ensures IsFirstRun(View(), bitCount, idxStart, count, val, idx)
    {
      hide Wrap, IsRun, IsFirstRun;
      WrapIs(idxStart + count);
      var cur, last := idxStart, Wrap(idxStart + count);
      ghost var start, v := idxStart, View();
      while last <= bitCount && cur < bitCount
        invariant idxStart <= start <= cur < TWO32
        invariant last == if start + count < TWO32 then start + count else start + count - TWO32
        invariant forall i :: start <= i < cur ==> i < bitCount && v[i] == val
        invariant count > 0 ==> forall a :: idxStart <= a < start ==> !IsRun(v, bitCount, a, count, val)
        invariant 0 < count && start + count <= bitCount ==> cur < start + count
        decreases bitCount - cur
      {
        if TestBit(cur, val) {
          cur := cur + 1;
          if cur == last {
            WrapIs(cur - count);
            SearchEnds(v, bitCount, idxStart, start, count, val);
            return Wrap(cur - count);
          }
        } else {
          if count > 0 { MismatchSkips(v, bitCount, start, cur, count, val); }
          cur := cur + 1;
          WrapIs(cur + count);
          last := Wrap(cur + count);
          start := cur;
        }
      }
      SearchEnds(v, bitCount, idxStart, start, count, val);
      return BITMAP_ERR;
    }
  }
}
