/** 32-bit arithmetic and other definitions shared by the modules. */
module Words {

  datatype Option<T> = None | Some(value: T)

  const TWO32 := 0x1_0000_0000
  const INT32_MAX := 0x7fff_ffff
  const PAGE_SIZE := 4096

  /** The value of a size_t or uint32_t expression. */
  function Wrap(x: int): (r: nat)
    ensures r < TWO32
  {
    x % TWO32
  }

  /** The value a 32-bit signed variable holds when `x` is stored into it. */
  function ToInt32(x: int): int {
    (x + 0x8000_0000) % 0x1_0000_0000 - 0x8000_0000
  }

  predicate InInt32(x: int) { -INT32_MAX - 1 <= x <= INT32_MAX }

  lemma Int32Is(x: int)
    requires InInt32(x)
    ensures ToInt32(x) == x
  {
  }

  lemma WrapIs(x: int)
    ensures 0 <= x < TWO32 ==> Wrap(x) == x
    ensures TWO32 <= x < 2 * TWO32 ==> Wrap(x) == x - TWO32
    ensures -TWO32 <= x < 0 ==> Wrap(x) == x + TWO32
  {
  }
}
