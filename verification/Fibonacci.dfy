/** Synthetic video payloads: the Fibonacci sequence modulo 256, written a period at a time. */
module Fibonacci {
  import opened Bytes

  const PERIOD := 384

  function Fib(n: nat): nat {
    if n < 2 then n else Fib(n - 1) + Fib(n - 2)
  }

  function FibByte(n: nat): Byte { Fib(n) % 256 }

  lemma FibStart()
    ensures Fib(0) == 0 && Fib(1) == 1 && Fib(2) == 1 && Fib(3) == 2 && Fib(4) == 3
  {
  }

  lemma {:induction false} FibSum(m: nat, n: nat)
    ensures Fib(m + n + 1) == Fib(m) * Fib(n) + Fib(m + 1) * Fib(n + 1)
    decreases n
  {
    hide Fib;
    FibStart();
    var a, b := Fib(m), Fib(m + 1);
    if n == 1 {
      FibStep(m);
    } else if n >= 2 {
      FibSum(m, n - 1);
      FibSum(m, n - 2);
      FibStep(n - 2);
      FibStep(n - 1);
      FibStep(m + n - 1);
      Distribute(a, b, Fib(n), Fib(n - 1), Fib(n - 2));
    }
  }

  lemma Distribute(a: int, b: int, r: int, p: int, q: int)
    ensures a * (p + q) + b * (r + p) == (a * p + b * r) + (a * q + b * p)
  {
  }

  /** The pair of consecutive bytes at `n`. */
  ghost predicate PairAt(n: nat, a: nat, b: nat) { Congruent(Fib(n), a) && Congruent(Fib(n + 1), b) }

  /** Equal modulo 256. */
  ghost predicate Congruent(x: int, a: int) { (x - a) % 256 == 0 }

  lemma ProductMod(x: int, y: int, a: int, b: int)
    requires Congruent(x, a) && Congruent(y, b)
    ensures Congruent(x * y, a * b)
  {
    var p, q := (x - a) / 256, (y - b) / 256;
    assert x == 256 * p + a && y == 256 * q + b;
    assert x * y - a * b == 256 * (p * (256 * q + b) + a * q);
    Multiple(x * y - a * b, p * (256 * q + b) + a * q);
  }

  lemma SumMod(x: int, y: int, a: int, b: int)
    requires Congruent(x, a) && Congruent(y, b)
    ensures Congruent(x + y, a + b) && Congruent(2 * y - x, 2 * b - a)
  {
    var p, q := (x - a) / 256, (y - b) / 256;
    assert x - a == 256 * p && y - b == 256 * q;
    Multiple(x + y - (a + b), p + q);
    Multiple(2 * y - x - (2 * b - a), 2 * q - p);
  }

  lemma Multiple(d: int, k: int)
    requires d == 256 * k
    ensures d % 256 == 0
  {
  }

  lemma {:induction false} DoubleIndex(n: nat)
    requires 0 < n
    ensures Fib(2 * n) == Fib(n) * (2 * Fib(n + 1) - Fib(n))
    ensures Fib(2 * n + 1) == Fib(n) * Fib(n) + Fib(n + 1) * Fib(n + 1)
  {
    hide Fib;
    var x, y, w := Fib(n), Fib(n + 1), Fib(n - 1);
    FibSum(n, n);
    FibSum(n - 1, n);
    FibStep(n - 1);
    assert n - 1 + n + 1 == 2 * n && n + n + 1 == 2 * n + 1;
    Rearrange(x, y, w);
  }

  lemma Rearrange(x: int, y: int, w: int)
    requires y == x + w
    ensures w * x + x * y == x * (2 * y - x)
  {
  }

  /** From the pair at `n` to the pair at `2n`. */
  lemma Doubling(n: nat, a: nat, b: nat)
    requires 0 < n && PairAt(n, a, b)
    ensures Congruent(Fib(2 * n), a * (2 * b - a)) && Congruent(Fib(2 * n + 1), a * a + b * b)
  {
    var x, y := Fib(n), Fib(n + 1);
    DoubleIndex(n);
    hide Fib, Congruent;
    SumMod(x, y, a, b);
    ProductMod(x, 2 * y - x, a, 2 * b - a);
    ProductMod(x, x, a, a);
    ProductMod(y, y, b, b);
    SumMod(x * x, y * y, a * a, b * b);
  }

  lemma FibStep(n: nat)
    ensures Fib(n + 2) == Fib(n + 1) + Fib(n)
  {
  }

  /** 384 is a period: the pair (0, 1) comes back, found by doubling 3 seven times. */
  lemma PairReturns()
    ensures PairAt(PERIOD, 0, 1)
  {
    FibStart();
    hide Fib;
    DoublesTo(3, 2, 3, 8, 13);
    DoublesTo(6, 8, 13, 144, 233);
    DoublesTo(12, 144, 233, 32, 17);
    DoublesTo(24, 32, 17, 64, 33);
    DoublesTo(48, 64, 33, 128, 65);
    DoublesTo(96, 128, 65, 0, 129);
    DoublesTo(192, 0, 129, 0, 1);
  }

  lemma DoublesTo(n: nat, a: nat, b: nat, a': nat, b': nat)
    requires 0 < n && PairAt(n, a, b)
    requires (a * (2 * b - a) - a') % 256 == 0 && (a * a + b * b - b') % 256 == 0
    ensures PairAt(2 * n, a', b')
  {
    Doubling(n, a, b);
    hide Fib;
    Chained(Fib(2 * n), a * (2 * b - a), a');
    Chained(Fib(2 * n + 1), a * a + b * b, b');
  }

  lemma Chained(x: int, y: int, z: int)
    requires Congruent(x, y) && (y - z) % 256 == 0
    ensures Congruent(x, z)
  {
  }

  lemma {:induction false} Periodic(n: nat)
    ensures Congruent(Fib(n + PERIOD), Fib(n)) && Congruent(Fib(n + 1 + PERIOD), Fib(n + 1))
  {
    hide Fib, Congruent;
    if n == 0 {
      PairReturns();
      FibStart();
    } else {
      Periodic(n - 1);
      FibStep(n - 1);
      FibStep(n - 1 + PERIOD);
      SumMod(Fib(n + PERIOD), Fib(n - 1 + PERIOD), Fib(n), Fib(n - 1));
      assert n - 1 + PERIOD + 2 == n + 1 + PERIOD && n - 1 + 1 + PERIOD == n + PERIOD;
    }
  }

  /** The bytes repeat every 384. */
  lemma PeriodicBytes(n: nat)
    ensures FibByte(n + PERIOD) == FibByte(n)
  {
    Periodic(n);
    hide Fib;
  }

  lemma {:induction false} PeriodicMany(n: nat, k: nat)
    ensures FibByte(n + k * PERIOD) == FibByte(n)
    decreases k
  {
    if k > 0 {
      hide Fib, FibByte;
      PeriodicMany(n, k - 1);
      PeriodicBytes(n + (k - 1) * PERIOD);
      assert n + (k - 1) * PERIOD + PERIOD == n + k * PERIOD;
    }
  }

  lemma ByteStep(n: nat)
    ensures FibByte(n + 2) as int == (FibByte(n + 1) as int + FibByte(n) as int) % 256
  {
    FibStep(n);
    hide Fib;
    AddMod(Fib(n + 1), Fib(n));
  }

  lemma AddMod(x: nat, y: nat)
    ensures (x + y) % 256 == (x % 256 + y % 256) % 256
  {
  }

  /** The original fill: one wrapping addition per byte. */
  method FillBytewise(size: nat) returns (v: array<Byte>)
    ensures v.Length == size
    ensures forall i :: 0 <= i < size ==> v[i] == FibByte(i)
  {
    v := new Byte[size](_ => 0);
    if size == 0 {
      return;
    }
    if size > 1 {
      v[1] := 1;
    }
    FibStart();
    var i := 2;
    while i < size
      invariant 2 <= i
      invariant forall j :: 0 <= j < size && j < i ==> v[j] == FibByte(j)
    {
      hide Fib, FibByte;
      ByteStep(i - 2);
      var x: int, y: int := v[i - 1], v[i - 2];
      v[i] := (x + y) % 256;
      i := i + 1;
    }
  }

  /** One period of the sequence. */
  method MakeTable() returns (t: seq<Byte>)
    ensures |t| == PERIOD && forall i :: 0 <= i < PERIOD ==> t[i] == FibByte(i)
  {
    t := [];
    FibStart();
    var a: Byte, b: Byte := 0, 1;
    for i := 0 to PERIOD
      invariant |t| == i && a == FibByte(i) && b == FibByte(i + 1)
      invariant forall j :: 0 <= j < i ==> t[j] == FibByte(j)
    {
      hide Fib, FibByte;
      t := t + [a];
      ByteStep(i);
      var sum: int := a as int + b as int;
      a, b := b, sum % 256;
    }
  }

  /** The fast fill, a period at a time, gives the very bytes of the bytewise recurrence, for every length. */
  method FillPayload(size: nat) returns (buffer: seq<Byte>)
    ensures |buffer| == size
    ensures forall i :: 0 <= i < size ==> buffer[i] == FibByte(i)
  {
    hide FibByte;
    var table := MakeTable();
    buffer := [];
    ghost var rounds := 0;
    while |buffer| < size
      invariant |buffer| <= size
      invariant |buffer| == rounds * PERIOD || |buffer| == size
      invariant forall i :: 0 <= i < |buffer| ==> buffer[i] == FibByte(i)
      decreases size - |buffer|
    {
      var take := if size - |buffer| < PERIOD then size - |buffer| else PERIOD;
      ghost var start := |buffer|;
      buffer := buffer + table[..take];
      forall i | start <= i < |buffer|
        ensures buffer[i] == FibByte(i)
      {
        PeriodicMany(i - start, rounds);
      }
      rounds := rounds + 1;
    }
  }
}
