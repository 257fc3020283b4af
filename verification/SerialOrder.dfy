/** Comparison of 32-bit packet indices that wrap around. */
module SerialOrder {
  import opened Bytes

  datatype Ordering = Less | Equal | Greater

  function WrappingSub(a: int, b: int): nat { (a - b) % U32_MODULUS }

  function WrappingAdd(a: int, b: int): nat { (a + b) % U32_MODULUS }

  function WrappingCmp(lhs: nat, rhs: nat): Ordering {
    var diff := WrappingSub(lhs, rhs);
    if diff == 0 then Equal
    else if diff < (U32_MODULUS - 1) / 2 then Greater
    else Less
  }

  function Compare(a: int, b: int): Ordering {
    if a < b then Less else if a == b then Equal else Greater
  }

  /**
   * On true frame numbers less than 2^32 apart, comparing their wrapped indices gives the order of the numbers
   * exactly when they are at most 2^31-2 apart upwards and 2^31+1 downwards.
   */
  lemma AgreesWithIntegers(a: nat, b: nat)
    requires -U32_MODULUS < a - b < U32_MODULUS
    ensures WrappingCmp(a % U32_MODULUS, b % U32_MODULUS) == Compare(a, b)
       <==> -0x8000_0001 <= a - b <= 0x7FFF_FFFE
  {
    SubOfWrapped(a, b);
  }

  lemma SubOfWrapped(a: nat, b: nat)
    ensures WrappingSub(a % U32_MODULUS, b % U32_MODULUS) == (a - b) % U32_MODULUS
  {
  }

  function Opposite(o: Ordering): Ordering {
    match o case Less => Greater case Equal => Equal case Greater => Less
  }

  /** The order is not antisymmetric: two indices about half the range apart are each `Less` than the other. */
  lemma AntisymmetricExactly(a: nat, b: nat)
    requires a < U32_MODULUS && b < U32_MODULUS
    ensures WrappingCmp(b, a) == Opposite(WrappingCmp(a, b))
       <==> !(0x7FFF_FFFF <= WrappingSub(a, b) <= 0x8000_0001)
  {
    assert a != b ==> WrappingSub(a, b) + WrappingSub(b, a) == U32_MODULUS;
  }
}
