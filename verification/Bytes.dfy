/** Bytes, big-endian integers and the 32-bit modulus shared by the stream modules. */
module Bytes {
  type Byte = b: int | 0 <= b < 256

  const U16_MODULUS := 0x1_0000
  const U32_MODULUS := 0x1_0000_0000

  datatype Option<+T> = None | Some(value: T)

  /** Concatenation of a sequence of sequences. */
  function Flatten<T>(parts: seq<seq<T>>): seq<T> {
    if parts == [] then [] else parts[0] + Flatten(parts[1..])
  }

  lemma {:induction false} FlattenAppend<T>(parts: seq<seq<T>>, more: seq<seq<T>>)
    ensures Flatten(parts + more) == Flatten(parts) + Flatten(more)
  {
    if parts == [] {
      assert parts + more == more;
    } else {
      FlattenAppend(parts[1..], more);
      assert (parts + more)[1..] == parts[1..] + more;
      Associative(parts[0], Flatten(parts[1..]), Flatten(more));
    }
  }

  lemma Associative<T>(a: seq<T>, b: seq<T>, c: seq<T>)
    ensures (a + b) + c == a + (b + c)
  {
  }

  function FromBe16(s: seq<Byte>): nat
    requires |s| == 2
  {
    var hi: int := s[0];
    256 * hi + s[1]
  }

  function FromBe32(s: seq<Byte>): nat
    requires |s| == 4
  {
    var (b0: int, b1: int, b2: int) := (s[0], s[1], s[2]);
    0x100_0000 * b0 + 0x1_0000 * b1 + 0x100 * b2 + s[3]
  }

  /** The `as u32` cast of an unsigned integer. */
  function AsU32(x: nat): (r: nat)
    ensures r < U32_MODULUS
    ensures x < U32_MODULUS ==> r == x
  {
    x % U32_MODULUS
  }

  function ToBe16(x: nat): (s: seq<Byte>)
    requires x < U16_MODULUS
    ensures |s| == 2
    ensures FromBe16(s) == x
  {
    [x / 256, x % 256]
  }

  function ToBe32(x: nat): (s: seq<Byte>)
    requires x < U32_MODULUS
    ensures |s| == 4
    ensures FromBe32(s) == x
  {
    [x / 0x100_0000, x / 0x1_0000 % 256, x / 0x100 % 256, x % 256]
  }
}
