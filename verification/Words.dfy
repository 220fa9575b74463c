/** Machine integers: the ranges that matter, and what storing a value in 32 bits leaves of it. */
module Words {

  const TWO32 := 0x1_0000_0000
  const TWO64 := 0x1_0000_0000_0000_0000
  const INT_MAX := 0x7fff_ffff

  /** A value stored in an unsigned 32-bit integer. */
  function ToUint32(v: int): (r: nat)
    ensures r < TWO32
  {
    v % TWO32
  }

  /** A value stored in a signed 32-bit integer. */
  function ToInt32(v: int): (r: int)
    ensures -INT_MAX - 1 <= r <= INT_MAX
  {
    var low := v % TWO32;
    if low <= INT_MAX then low else low - TWO32
  }

  /** Integer division in C, which truncates towards zero. */
  function Quotient(a: int, b: nat): int
    requires b > 0
  {
    if a >= 0 then a / b else -(-a / b)
  }

  /** A value that passes through an int is the same unsigned integer afterwards. */
  lemma CutTwice(v: int)
    ensures ToUint32(ToInt32(v)) == ToUint32(v)
  {}
}
