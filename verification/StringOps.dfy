/** The byte loops of lib/string.c. A pointer is an index into one byte array, or null. */
module StringOps {

  type byte = x: int | 0 <= x < 256

  datatype Ptr = Null | At(off: nat)

  /** The bytes after copying n of them from s to d one at a time, lowest first. */
  function ForwardCopy(m: seq<byte>, d: nat, s: nat, n: nat): (r: seq<byte>)
    requires d + n <= |m| && s + n <= |m|
    ensures |r| == |m|
    decreases n
  {
    if n == 0 then m else ForwardCopy(m[d := m[s]], d + 1, s + 1, n - 1)
  }

  /** What a move of n bytes from s to d promises. */
  ghost predicate IsMove(m: seq<byte>, r: seq<byte>, d: nat, s: nat, n: nat)
    requires d + n <= |m| && s + n <= |m|
  {
    |r| == |m| && forall k :: 0 <= k < |m| ==> r[k] == if d <= k < d + n then m[s + k - d] else m[k]
  }

  lemma {:induction false} CopyOneMore(m: seq<byte>, d: nat, s: nat, n: nat)
    requires d + n < |m| && s + n < |m|
    ensures ForwardCopy(m, d, s, n + 1) == ForwardCopy(m, d, s, n)[d + n := ForwardCopy(m, d, s, n)[s + n]]
    decreases n
  {
    if n == 0 {
    } else {
      CopyOneMore(m[d := m[s]], d + 1, s + 1, n - 1);
    }
  }

  /** i reduced into one period of length p. */
  function Phase(i: nat, p: nat): (r: nat)
    requires p > 0
    ensures r < p && r <= i
  {
    if i < p then i else Phase(i - p, p)
  }

  /** Every byte after the copy: with the destination inside the source range the copy repeats the
      first d - s source bytes; otherwise it is the byte the source held at the start. */
  lemma {:induction false} ForwardCopyLaw(m: seq<byte>, d: nat, s: nat, n: nat, k: nat)
    requires d + n <= |m| && s + n <= |m| && k < |m|
    ensures ForwardCopy(m, d, s, n)[k] == if !(d <= k < d + n) then m[k]
                                          else if s < d then m[s + Phase(k - d, d - s)]
                                          else m[s + (k - d)]
  {
    if n == 0 {
    } else {
      CopyOneMore(m, d, s, n - 1);
      ForwardCopyLaw(m, d, s, n - 1, if k == d + n - 1 then s + n - 1 else k);
    }
  }

  lemma ForwardCopyMoves(m: seq<byte>, d: nat, s: nat, n: nat)
    requires d + n <= |m| && s + n <= |m|
    requires d <= s || s + n <= d
    ensures IsMove(m, ForwardCopy(m, d, s, n), d, s, n)
  {
    forall k | 0 <= k < |m|
      ensures ForwardCopy(m, d, s, n)[k] == if d <= k < d + n then m[s + k - d] else m[k]
    {
      ForwardCopyLaw(m, d, s, n, k);
    }
  }

  /** Copying forwards moves every possible contents correctly exactly when the destination does
      not start inside the source range. */
  lemma ForwardCopyIsMove(d: nat, s: nat, n: nat, len: nat)
    requires d + n <= len && s + n <= len
    ensures (forall m: seq<byte> :: |m| == len ==> IsMove(m, ForwardCopy(m, d, s, n), d, s, n))
            <==> d <= s || s + n <= d
  {
    if d <= s || s + n <= d {
      forall m: seq<byte> | |m| == len ensures IsMove(m, ForwardCopy(m, d, s, n), d, s, n) {
        ForwardCopyMoves(m, d, s, n);
      }
    } else {
      var m: seq<byte> := seq(len, i => if i == d then 1 else 0);
      var k := d + (d - s);
      ForwardCopyLaw(m, d, s, n, k);
      assert ForwardCopy(m, d, s, n)[k] == m[s] == 0 && m[s + k - d] == 1;
      assert |m| == len && !IsMove(m, ForwardCopy(m, d, s, n), d, s, n);
    }
  }

  method Memcpy(mem: array<byte>, dest: Ptr, src: Ptr, size: nat) returns (r: Ptr)
    requires dest.At? && src.At? ==> dest.off + size <= mem.Length && src.off + size <= mem.Length
    modifies mem
    ensures dest == Null || src == Null || size == 0 ==> r == Null && mem[..] == old(mem[..])
    ensures dest.At? && src.At? && size > 0 ==>
              r == dest && mem[..] == ForwardCopy(old(mem[..]), dest.off, src.off, size)
  {
    if dest == Null || src == Null || size == 0 {
      return Null;
    }
    var d, s, left := dest.off, src.off, size;
    while left > 0
      invariant d + left == dest.off + size && s + left == src.off + size
      invariant ForwardCopy(mem[..], d, s, left) == ForwardCopy(old(mem[..]), dest.off, src.off, size)
    {
      ghost var was := mem[..];
      mem[d] := mem[s];
      assert mem[..] == was[d := was[s]];
      d, s, left := d + 1, s + 1, left - 1;
    }
    return dest;
  }

  /** memmove is memcpy, so it moves only towards lower addresses or between disjoint ranges. */
  method Memmove(mem: array<byte>, dest: Ptr, src: Ptr, size: nat) returns (r: Ptr)
    requires dest.At? && src.At? ==> dest.off + size <= mem.Length && src.off + size <= mem.Length
    modifies mem
    ensures dest == Null || src == Null || size == 0 ==> r == Null && mem[..] == old(mem[..])
    ensures dest.At? && src.At? && size > 0 ==>
              r == dest && mem[..] == ForwardCopy(old(mem[..]), dest.off, src.off, size)
    ensures dest.At? && src.At? && (dest.off <= src.off || src.off + size <= dest.off) ==>
              IsMove(old(mem[..]), mem[..], dest.off, src.off, size)
  {
    if dest.At? && src.At? && (dest.off <= src.off || src.off + size <= dest.off) {
      ForwardCopyMoves(mem[..], dest.off, src.off, size);
    }
    r := Memcpy(mem, dest, src, size);
  }

  /** memset: the low byte of val, size times. */
  method Memset(mem: array<byte>, dest: Ptr, val: int, size: nat) returns (r: Ptr)
    requires dest.At? ==> dest.off + size <= mem.Length
    modifies mem
    ensures r == dest
    ensures forall k :: 0 <= k < mem.Length ==>
              mem[k] == if dest.At? && dest.off <= k < dest.off + size then val % 256 else old(mem[k])
  {
    if dest == Null {
      return Null;
    }
    var d, left := dest.off, size;
    while left > 0
      invariant d + left == dest.off + size
      invariant forall k :: 0 <= k < mem.Length ==>
                  mem[k] == if dest.off <= k < d then val % 256 else old(mem[k])
    {
      mem[d] := val % 256;
      d, left := d + 1, left - 1;
    }
    return dest;
  }
}
