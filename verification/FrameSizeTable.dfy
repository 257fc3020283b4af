/**
 * The frame-size table: measured frame sizes per bitrate column, interpolated for bitrates in between, with a
 * cache of the last pair of columns used. The cache is meant to be invisible; `AgreementExactly` says for which
 * requests it is.
 */
module FrameSizes {
  import opened Arithmetic
  import opened Bytes

  /** Column `columns[i]` (Mbps) holds the frame sizes `sizes[i]`, read from `startOffset` on, round and round. */
  datatype Table = Table(columns: seq<nat>, sizes: seq<seq<nat>>, startOffset: nat)

  /** The pair of columns last interpolated between. */
  datatype Bracket = Bracket(lo: nat, hi: nat)

  const FIRST_BRACKET := Bracket(0, 1)

  /** Strictly increasing 32-bit bitrates. */
  ghost predicate Header(columns: seq<nat>) {
    && (forall i, j :: 0 <= i < j < |columns| ==> columns[i] < columns[j])
    && (forall i :: 0 <= i < |columns| ==> columns[i] < U32_MODULUS)
  }

  ghost predicate WellFormed(t: Table) {
    && Header(t.columns)
    && |t.sizes| == |t.columns|
    && (forall i :: 0 <= i < |t.sizes| ==> t.sizes[i] != [])
    && (forall i, j :: 0 <= i < |t.sizes| && 0 <= j < |t.sizes[i]| ==> t.sizes[i][j] < U32_MODULUS)
  }

  /** A float cast to an unsigned 32-bit integer: truncated, and saturated at both ends. */
  function ToU32(x: real): nat {
    if x < 0.0 then 0 else if x.Floor < U32_MODULUS then x.Floor else U32_MODULUS - 1
  }

  /** Rounded half away from zero, then cast. */
  function Rounded(x: real): nat { ToU32(x + 0.5) }

  function Entry(t: Table, column: nat, frame: nat): nat
    requires WellFormed(t) && column < |t.columns|
  {
    t.sizes[column][(frame + t.startOffset) % |t.sizes[column]|]
  }

  function Fraction(m0: nat, m1: nat, want: real): real
    requires m0 != m1
  {
    (want - m0 as real) / (m1 as real - m0 as real)
  }

  function Times(x: real, y: real): real { x * y }

  /** The straight line through two points at `want`; through one point twice it is not a number, cast to 0. */
  function OnLine(m0: nat, m1: nat, v0: nat, v1: nat, want: real): nat {
    if m0 == m1 then 0
    else Rounded(v0 as real + Times(Fraction(m0, m1, want), v1 as real - v0 as real))
  }

  function Line(t: Table, b: Bracket, want: real, frame: nat): nat
    requires WellFormed(t) && b.lo < |t.columns| && b.hi < |t.columns|
  {
    OnLine(t.columns[b.lo], t.columns[b.hi], Entry(t, b.lo, frame), Entry(t, b.hi, frame), want)
  }

  /** The first column at or above `x`. */
  ghost function Upper(columns: seq<nat>, x: real): (i: nat)
    ensures i <= |columns| && (forall j :: 0 <= j < i ==> columns[j] as real < x)
    ensures i < |columns| ==> columns[i] as real >= x
  {
    if columns == [] || columns[0] as real >= x then 0 else 1 + Upper(columns[1..], x)
  }

  lemma {:induction false} UpperIs(columns: seq<nat>, x: real, i: nat)
    requires i <= |columns| && (forall j :: 0 <= j < i ==> columns[j] as real < x)
    requires i < |columns| ==> columns[i] as real >= x
    ensures Upper(columns, x) == i
  {
    if i > 0 {
      assert columns[0] as real < x;
      UpperIs(columns[1..], x, i - 1);
    }
  }

  ghost function Position(columns: seq<nat>, m: nat): (i: nat)
    requires m in columns
    ensures i < |columns| && columns[i] == m
  {
    var i :| 0 <= i < |columns| && columns[i] == m;
    i
  }

  /** The requests that interpolate: strictly inside the table and not rounding to a column. */
  ghost predicate Inside(columns: seq<nat>, want: real) {
    && columns != [] && Rounded(want) !in columns
    && columns[0] as real < want < columns[|columns| - 1] as real
  }

  /** What the table promises, with no cache: the line between the two neighbouring columns. */
  ghost function Uncached(t: Table, want: real, frame: nat): nat
    requires WellFormed(t)
  {
    var n := |t.columns|;
    if Rounded(want) in t.columns then Entry(t, Position(t.columns, Rounded(want)), frame)
    else if n == 0 then 0
    else if want <= t.columns[0] as real then Entry(t, 0, frame)
    else if want >= t.columns[n - 1] as real then Entry(t, n - 1, frame)
    else var i := Upper(t.columns, want); Line(t, Bracket(i - 1, i), want, frame)
  }

  ghost predicate Hits(columns: seq<nat>, want: real, cache: Bracket) {
    cache.lo < |columns| && cache.hi < |columns|
    && columns[cache.lo] as real <= want <= columns[cache.hi] as real
  }

  /** The fallback searches for the truncated request. */
  ghost function Fallback(columns: seq<nat>, want: real): Bracket {
    var hi := Upper(columns, want.Floor as real);
    Bracket(if hi == 0 then 0 else hi - 1, hi)
  }

  ghost function NextCache(columns: seq<nat>, want: real, cache: Bracket): Bracket {
    if Inside(columns, want) && !Hits(columns, want, cache) then Fallback(columns, want) else cache
  }

  ghost function Cached(t: Table, want: real, frame: nat, cache: Bracket): nat
    requires WellFormed(t)
  {
    if Inside(t.columns, want) then
      NextCacheInRange(t.columns, want, cache);
      Line(t, NextCache(t.columns, want, cache), want, frame)
    else
      Uncached(t, want, frame)
  }

  lemma NextCacheInRange(columns: seq<nat>, want: real, cache: Bracket)
    requires Header(columns) && Inside(columns, want)
    ensures var b := NextCache(columns, want, cache); b.lo < |columns| && b.hi < |columns|
  {
    assert want.Floor as real <= want;
  }

  /** The cache after a sender's requests, oldest first. */
  ghost function CacheAfter(columns: seq<nat>, history: seq<real>): Bracket {
    if history == [] then FIRST_BRACKET
    else NextCache(columns, history[|history| - 1], CacheAfter(columns, history[..|history| - 1]))
  }

  ghost predicate Adjacent(b: Bracket) { b.hi == b.lo + 1 || b == Bracket(0, 0) }

  lemma {:induction false} StaysAdjacent(columns: seq<nat>, history: seq<real>)
    ensures Adjacent(CacheAfter(columns, history))
  {
    if history != [] {
      StaysAdjacent(columns, history[..|history| - 1]);
    }
  }

  /** A hit is on the two neighbours of the request. */
  lemma HitIsNeighbours(columns: seq<nat>, want: real, cache: Bracket)
    requires Header(columns) && Inside(columns, want) && Adjacent(cache) && Hits(columns, want, cache)
    ensures cache.hi == Upper(columns, want) == cache.lo + 1
  {
    NotAColumn(columns, want);
    var i := Upper(columns, want);
    assert columns[0] as real < want;
    assert i <= cache.hi;
    assert i > cache.lo;
  }

  /** A request that is itself a column rounds to it. */
  lemma NotAColumn(columns: seq<nat>, want: real)
    requires Header(columns) && Inside(columns, want)
    ensures forall i :: 0 <= i < |columns| ==> columns[i] as real != want
  {
    forall i | 0 <= i < |columns|
      ensures columns[i] as real != want
    {
      assert Rounded(columns[i] as real) == columns[i];
    }
  }

  /** The fallback finds the neighbours when the truncated request is no column. */
  lemma FallbackIsNeighbours(columns: seq<nat>, want: real)
    requires Header(columns) && Inside(columns, want) && want.Floor !in columns
    ensures Fallback(columns, want) == Bracket(Upper(columns, want) - 1, Upper(columns, want))
  {
    var i := Upper(columns, want);
    assert want.Floor as real <= want;
    forall j | 0 <= j < i
      ensures columns[j] as real < want.Floor as real
    {
      assert columns[j] as real < want && columns[j] != want.Floor;
    }
    UpperIs(columns, want.Floor as real, i);
  }

  /** From the second column on there is no gap to interpolate in. */
  ghost predicate Consecutive(columns: seq<nat>) {
    forall i :: 1 <= i < |columns| - 1 ==> columns[i + 1] == columns[i] + 1
  }

  /** What a caller can check: the request does not interpolate, or does not truncate to a column, or only the
      first gap can ever be interpolated in. */
  ghost predicate Safe(columns: seq<nat>, want: real) {
    !Inside(columns, want) || want.Floor !in columns || Consecutive(columns)
  }

  lemma {:induction false} NoLaterGap(columns: seq<nat>, i: nat)
    requires Header(columns) && Consecutive(columns) && 1 <= i < |columns|
    ensures columns[i] == columns[1] + (i - 1)
  {
    if i > 1 {
      NoLaterGap(columns, i - 1);
    }
  }

  lemma OnlyFirstGap(columns: seq<nat>, want: real)
    requires Header(columns) && Consecutive(columns) && Inside(columns, want)
    ensures |columns| > 1 && want < columns[1] as real
  {
    var last := |columns| - 1;
    if want >= columns[1] as real {
      var i := Rounded(want) - columns[1] + 1;
      NoLaterGap(columns, last);
      NoLaterGap(columns, i);
    }
  }

  lemma {:induction false} StaysFirst(columns: seq<nat>, history: seq<real>)
    requires Header(columns) && Consecutive(columns)
    ensures CacheAfter(columns, history) == FIRST_BRACKET
  {
    if history != [] {
      StaysFirst(columns, history[..|history| - 1]);
      var want := history[|history| - 1];
      if Inside(columns, want) {
        OnlyFirstGap(columns, want);
      }
    }
  }

  lemma SafeBracket(columns: seq<nat>, want: real, history: seq<real>)
    requires Header(columns) && Safe(columns, want) && Inside(columns, want)
    ensures var i := Upper(columns, want);
      0 < i < |columns| && NextCache(columns, want, CacheAfter(columns, history)) == Bracket(i - 1, i)
  {
    var cache := CacheAfter(columns, history);
    StaysAdjacent(columns, history);
    if Consecutive(columns) {
      StaysFirst(columns, history);
      OnlyFirstGap(columns, want);
    }
    if Hits(columns, want, cache) {
      HitIsNeighbours(columns, want, cache);
    } else {
      FallbackIsNeighbours(columns, want);
    }
  }

  /** A safe request gets the uncached answer after every history. */
  lemma SafeAgrees(t: Table, want: real, frame: nat, history: seq<real>)
    requires WellFormed(t) && Safe(t.columns, want)
    ensures Cached(t, want, frame, CacheAfter(t.columns, history)) == Uncached(t, want, frame)
  {
    if Inside(t.columns, want) {
      SafeBracket(t.columns, want, history);
      hide Line, Upper, CacheAfter, NextCache, Safe, Rounded;
    }
  }

  ghost predicate AlwaysAgrees(columns: seq<nat>, want: real) {
    forall t: Table, frame: nat, history: seq<real> | t.columns == columns && WellFormed(t) ::
      Cached(t, want, frame, CacheAfter(columns, history)) == Uncached(t, want, frame)
  }

  /** An unsafe request lies in the upper half of a step above a column. */
  lemma UnsafeShape(columns: seq<nat>, want: real) returns (k: nat)
    requires Header(columns) && !Safe(columns, want)
    ensures k < |columns| - 1 && columns[k] == want.Floor && want >= columns[k] as real + 0.5
    ensures Upper(columns, want) == k + 1 && Upper(columns, want.Floor as real) == k
  {
    k := Position(columns, want.Floor);
    assert k < |columns| - 1;
    assert Rounded(want) == want.Floor || Rounded(want) == want.Floor + 1;
    assert columns[k + 1] as real >= want;
  }

  /** An unsafe request can be answered wrongly: past the first column by extrapolating, at the first with nothing. */
  lemma UnsafeFails(columns: seq<nat>, want: real)
    requires Header(columns) && !Safe(columns, want)
    ensures !AlwaysAgrees(columns, want)
  {
    var k := UnsafeShape(columns, want);
    if k == 0 {
      FirstColumnFails(columns, want);
    } else {
      LaterColumnFails(columns, want, k);
    }
  }

  lemma LaterColumnFails(columns: seq<nat>, want: real, k: nat)
    requires Header(columns) && Inside(columns, want) && 0 < k < |columns| - 1
    requires columns[k] == want.Floor && want >= columns[k] as real + 0.5
    requires Upper(columns, want) == k + 1 && Upper(columns, want.Floor as real) == k
    ensures !AlwaysAgrees(columns, want)
  {
    var step := columns[k] - columns[k - 1];
    var t := Table(columns, seq(|columns|, i => [if i < k then 0 else step]), 0);
    var cache := CacheAfter(columns, []);
    assert NextCache(columns, want, cache) == Bracket(k - 1, k);
    var wrong, right := Cached(t, want, 0, cache), Uncached(t, want, 0);
    assert wrong == OnLine(columns[k - 1], columns[k], 0, step, want);
    assert right == OnLine(columns[k], columns[k + 1], step, step, want);
    hide Inside, Upper, Cached, Uncached, NextCache, CacheAfter;
    Steep(columns[k - 1], columns[k], want);
    Flat(columns[k], columns[k + 1], step, want);
  }

  lemma Slope(m0: nat, m1: nat, want: real)
    requires m0 < m1
    ensures Times(Fraction(m0, m1, want), m1 as real - m0 as real) == want - m0 as real
  {
  }

  lemma Steep(m0: nat, m1: nat, want: real)
    requires m0 < m1 < U32_MODULUS - 1 && want >= m1 as real + 0.5
    ensures OnLine(m0, m1, 0, m1 - m0, want) > m1 - m0
  {
    hide Fraction, Times;
    assert (m1 - m0) as real - 0.0 == m1 as real - m0 as real;
    Slope(m0, m1, want);
    assert OnLine(m0, m1, 0, m1 - m0, want) == Rounded(want - m0 as real);
  }

  lemma Flat(m0: nat, m1: nat, v: nat, want: real)
    requires m0 < m1 && v < U32_MODULUS
    ensures OnLine(m0, m1, v, v, want) == v
  {
    hide Fraction;
    assert Times(Fraction(m0, m1, want), 0.0) == 0.0;
  }

  lemma FirstColumnFails(columns: seq<nat>, want: real)
    requires Header(columns) && !Safe(columns, want)
    requires Upper(columns, want) == 1 && Upper(columns, want.Floor as real) == 0
    ensures !AlwaysAgrees(columns, want)
  {
    var history := Detour(columns, want);
    var cache := CacheAfter(columns, history);
    hide CacheAfter, Rounded, Hits, Fallback, OnLine, Consecutive;
    var t := Table(columns, seq(|columns|, _ => [1]), 0);
    var wrong, right := Cached(t, want, 0, cache), Uncached(t, want, 0);
    assert wrong == OnLine(columns[0], columns[0], 1, 1, want);
    assert right == OnLine(columns[0], columns[1], 1, 1, want);
    hide Inside, Upper, Cached, Uncached, NextCache;
    Flat(columns[0], columns[1], 1, want);
  }

  /** A request in a later gap takes the cache away from the first. */
  lemma Detour(columns: seq<nat>, want: real) returns (history: seq<real>)
    requires Header(columns) && !Safe(columns, want) && Upper(columns, want) == 1
          && Upper(columns, want.Floor as real) == 0
    ensures NextCache(columns, want, CacheAfter(columns, history)) == Bracket(0, 0)
  {
    var i :| 1 <= i < |columns| - 1 && columns[i + 1] != columns[i] + 1;
    GapIsInside(columns, i);
    history := [columns[i] as real + 1.0];
    assert history[..0] == [] && CacheAfter(columns, []) == FIRST_BRACKET;
  }

  lemma GapIsInside(columns: seq<nat>, i: nat)
    requires Header(columns) && 1 <= i < |columns| - 1 && columns[i + 1] > columns[i] + 1
    ensures var detour := columns[i] as real + 1.0;
      Inside(columns, detour) && !Hits(columns, detour, FIRST_BRACKET) && Fallback(columns, detour) == Bracket(i, i + 1)
  {
    var detour := columns[i] as real + 1.0;
    assert detour.Floor == columns[i] + 1 && Rounded(detour) == columns[i] + 1;
    forall j | 0 <= j < |columns|
      ensures columns[j] != columns[i] + 1
    {
      assert j <= i || j >= i + 1;
    }
    var k := Upper(columns, detour);
    assert k == i + 1;
  }

  /** The cache is invisible for exactly the safe requests: whatever the sizes, the frame and the earlier requests. */
  lemma AgreementExactly(columns: seq<nat>, want: real)
    requires Header(columns)
    ensures AlwaysAgrees(columns, want) <==> Safe(columns, want)
  {
    if Safe(columns, want) {
      forall t: Table, frame: nat, history: seq<real> | t.columns == columns && WellFormed(t)
        ensures Cached(t, want, frame, CacheAfter(columns, history)) == Uncached(t, want, frame)
      {
        SafeAgrees(t, want, frame, history);
      }
    } else {
      UnsafeFails(columns, want);
    }
  }

  /** A safe interpolated answer lies between the entries of the two neighbouring columns. */
  lemma BetweenNeighbours(t: Table, want: real, frame: nat, history: seq<real>)
    requires WellFormed(t) && Safe(t.columns, want) && Inside(t.columns, want)
    ensures var i := Upper(t.columns, want);
      && 0 < i < |t.columns| && t.columns[i - 1] as real < want < t.columns[i] as real
      && var r, v0, v1 := Cached(t, want, frame, CacheAfter(t.columns, history)), Entry(t, i - 1, frame),
                          Entry(t, i, frame);
      (v0 <= r <= v1 || v1 <= r <= v0)
  {
    SafeBracket(t.columns, want, history);
    NotAColumn(t.columns, want);
    var i := Upper(t.columns, want);
    var v0, v1 := Entry(t, i - 1, frame), Entry(t, i, frame);
    hide OnLine, CacheAfter, NextCache, Safe, Rounded, Upper;
    Between(want, t.columns[i - 1], t.columns[i], v0, v1);
  }

  lemma Between(want: real, m0: nat, m1: nat, v0: nat, v1: nat)
    requires m0 as real < want < m1 as real && v0 < U32_MODULUS && v1 < U32_MODULUS
    ensures var r := OnLine(m0, m1, v0, v1, want); v0 <= r <= v1 || v1 <= r <= v0
  {
    hide Fraction, Times, Rounded;
    var f, d := Fraction(m0, m1, want), v1 as real - v0 as real;
    Slope(m0, m1, want);
    Proper(f, m1 as real - m0 as real, want - m0 as real);
    Scaled(f, d);
    RoundsBetween(v0, v1, v0 as real + Times(f, d));
  }

  lemma Proper(f: real, w: real, x: real)
    requires Times(f, w) == x && 0.0 < x < w
    ensures 0.0 < f < 1.0
  {
    assert f <= 0.0 ==> f * w <= 0.0;
    assert f >= 1.0 ==> f * w >= w;
  }

  lemma Scaled(f: real, d: real)
    requires 0.0 < f < 1.0
    ensures if d >= 0.0 then 0.0 <= Times(f, d) <= d else d <= Times(f, d) <= 0.0
  {
    var size := if d >= 0.0 then d else -d;
    NonNegative(f, size);
    NonNegative(1.0 - f, size);
  }

  lemma RoundsBetween(v0: nat, v1: nat, x: real)
    requires v0 < U32_MODULUS && v1 < U32_MODULUS
    requires v0 as real <= x <= v1 as real || v1 as real <= x <= v0 as real
    ensures v0 <= Rounded(x) <= v1 || v1 <= Rounded(x) <= v0
  {
  }

  // ---------------------------------------------------------------------------------------------------------------
  // What the answers are, whatever the cache
  // ---------------------------------------------------------------------------------------------------------------

  /** At most half a unit off a column, or beyond an end of the table, the column's own size for the frame is given. */
  lemma ColumnsAnswer(t: Table, want: real, frame: nat, cache: Bracket, i: nat)
    requires WellFormed(t) && i < |t.columns|
    requires || t.columns[i] as real - 0.5 <= want < t.columns[i] as real + 0.5
             || (i == 0 && want <= t.columns[0] as real)
             || (i == |t.columns| - 1 && want >= t.columns[i] as real)
    ensures Cached(t, want, frame, cache) == t.sizes[i][(frame + t.startOffset) % |t.sizes[i]|]
  {
    if t.columns[i] as real - 0.5 <= want < t.columns[i] as real + 0.5 {
      assert Rounded(want) == t.columns[i];
    } else if Rounded(want) in t.columns {
      var p := Position(t.columns, Rounded(want));
      NearEnd(t.columns, want, i, p);
    }
  }

  lemma NearEnd(columns: seq<nat>, want: real, i: nat, p: nat)
    requires Header(columns) && i < |columns| && p < |columns| && columns[p] == Rounded(want)
    requires (i == 0 && want <= columns[0] as real) || (i == |columns| - 1 && want >= columns[i] as real)
    ensures p == i
  {
    if i == 0 && want <= columns[0] as real {
      assert Rounded(want) <= columns[0];
    } else {
      assert Rounded(want) >= columns[i];
    }
  }

  lemma EmptyTableAnswersNothing(t: Table, want: real, frame: nat, cache: Bracket)
    requires WellFormed(t) && t.columns == []
    ensures Cached(t, want, frame, cache) == 0
  {
  }

  /** Consecutive frames walk through the whole column, from the offset on and round again. */
  lemma FramesWalkRound(t: Table, i: nat, cache: Bracket, k: nat)
    requires WellFormed(t) && i < |t.columns|
    ensures var n, want := |t.sizes[i]|, t.columns[i] as real;
      && (k + t.startOffset < n ==> Cached(t, want, k, cache) == t.sizes[i][k + t.startOffset])
      && Cached(t, want, k + n, cache) == Cached(t, want, k, cache)
      && (Cached(t, want, k + 1, cache) == var at := (k + t.startOffset) % n;
                                           t.sizes[i][if at + 1 < n then at + 1 else 0])
  {
    var n, want := |t.sizes[i]|, t.columns[i] as real;
    ColumnsAnswer(t, want, k, cache, i);
    ColumnsAnswer(t, want, k + 1, cache, i);
    ColumnsAnswer(t, want, k + n, cache, i);
    hide Cached, WellFormed;
    StepRound(k + t.startOffset, n);
  }

  lemma StepRound(x: nat, n: nat)
    requires 0 < n
    ensures (x + n) % n == x % n && (x + 1) % n == if x % n + 1 < n then x % n + 1 else 0
    ensures x < n ==> x % n == x
  {
    var q, r := x / n, x % n;
    assert x == q * n + r;
    if r + 1 < n {
      RemainderIs(x + 1, n, q, r + 1);
    } else {
      assert (q + 1) * n == q * n + n;
      RemainderIs(x + 1, n, q + 1, 0);
    }
    assert (q + 1) * n == q * n + n;
    RemainderIs(x + n, n, q + 1, r);
    if x < n {
      RemainderIs(x, n, 0, x);
    }
  }

  lemma RemainderIs(x: nat, n: nat, q: nat, r: nat)
    requires x == q * n + r && r < n
    ensures x % n == r
  {
    var p, s := x / n, x % n;
    assert x == p * n + s;
    if p < q {
      LessTimes(p + 1, q, n);
    } else if q < p {
      LessTimes(q + 1, p, n);
    }
  }

  /** A safe interpolated answer is the integer nearest to the line through the two neighbouring columns. */
  lemma InterpolatesExactly(t: Table, want: real, frame: nat, history: seq<real>)
    requires WellFormed(t) && Safe(t.columns, want) && Inside(t.columns, want)
    ensures var i := Upper(t.columns, want);
      && 0 < i < |t.columns|
      && var r, v0, v1 := Cached(t, want, frame, CacheAfter(t.columns, history)), Entry(t, i - 1, frame),
                          Entry(t, i, frame);
         NearTheLine(t.columns[i - 1], t.columns[i], v0, v1, want, r)
  {
    SafeBracket(t.columns, want, history);
    NotAColumn(t.columns, want);
    var i := Upper(t.columns, want);
    var v0, v1 := Entry(t, i - 1, frame), Entry(t, i, frame);
    hide OnLine, CacheAfter, NextCache, Safe, Rounded, Upper;
    NearestToLine(want, t.columns[i - 1], t.columns[i], v0, v1);
  }

  /** `r` is at most half a unit off the line through (m0, v0) and (m1, v1) at `want`; written without a quotient. */
  predicate NearTheLine(m0: nat, m1: nat, v0: nat, v1: nat, want: real, r: nat) {
    var w := (m1 - m0) as real;
    -w < 2.0 * ((r - v0) as real * w - (want - m0 as real) * (v1 - v0) as real) <= w
  }

  lemma NearestToLine(want: real, m0: nat, m1: nat, v0: nat, v1: nat)
    requires m0 as real < want < m1 as real && v0 < U32_MODULUS && v1 < U32_MODULUS
    ensures NearTheLine(m0, m1, v0, v1, want, OnLine(m0, m1, v0, v1, want))
  {
    var f, d, w := Fraction(m0, m1, want), v1 as real - v0 as real, m1 as real - m0 as real;
    var x, r := v0 as real + Times(f, d), OnLine(m0, m1, v0, v1, want);
    Between(want, m0, m1, v0, v1);
    Slope(m0, m1, want);
    assert r == Rounded(x);
    hide Fraction, Times, OnLine;
    Proper(f, w, want - m0 as real);
    Scaled(f, d);
    assert -0.5 < r as real - x <= 0.5;
    Multiplied(r as real - v0 as real, Times(f, d), f, d, w, want - m0 as real);
  }

  lemma Multiplied(y: real, z: real, f: real, d: real, w: real, x: real)
    requires z == Times(f, d) && Times(f, w) == x && w > 0.0 && -0.5 < y - z <= 0.5
    ensures -w < 2.0 * (y * w - x * d) <= w
  {
    var g := y - z;
    ScaledBound(g, w);
    assert f * d * w == f * w * d;
    assert g * w == y * w - z * w;
    assert y * w - x * d == g * w;
  }

  lemma ScaledBound(g: real, w: real)
    requires w > 0.0 && -0.5 < g <= 0.5
    ensures -w < 2.0 * (g * w) <= w
  {
    var a, b := 0.5 - g, g + 0.5;
    assert a * w >= 0.0 && b * w > 0.0;
  }

  class BracketCache {
    var lo: nat
    var hi: nat

    ghost function View(): Bracket
      reads this
    {
      Bracket(lo, hi)
    }

    constructor ()
      ensures View() == FIRST_BRACKET
    {
      lo, hi := 0, 1;
    }
  }

  method BinarySearch(columns: seq<nat>, x: nat) returns (i: nat)
    requires Header(columns)
    ensures i == Upper(columns, x as real)
  {
    var lo, hi := 0, |columns|;
    while lo < hi
      invariant 0 <= lo <= hi <= |columns|
      invariant forall j :: 0 <= j < lo ==> columns[j] < x
      invariant forall j :: hi <= j < |columns| ==> columns[j] >= x
    {
      var mid := (lo + hi) / 2;
      if columns[mid] < x {
        lo := mid + 1;
      } else {
        hi := mid;
      }
    }
    i := lo;
    UpperIs(columns, x as real, i);
  }

  class FrameSizeTable {
    const table: Table
    const colIndex: map<nat, nat>

    ghost predicate Valid() {
      && WellFormed(table)
      && (forall m :: m in colIndex <==> m in table.columns)
      && (forall m :: m in colIndex ==> colIndex[m] < |table.columns| && table.columns[colIndex[m]] == m)
    }

    constructor (table: Table)
      requires WellFormed(table)
      ensures Valid() && this.table == table
    {
      this.table := table;
      colIndex := map i | 0 <= i < |table.columns| :: table.columns[i] := i;
    }

    method BytesInterpCached(want: real, frame: nat, cache: BracketCache) returns (bytes: nat)
      requires Valid()
      modifies cache
      ensures cache.View() == NextCache(table.columns, want, old(cache.View()))
      ensures bytes == Cached(table, want, frame, old(cache.View()))
    {
      var n := |table.columns|;
      hide Line, Rounded, Upper, Fallback, Hits;
      if Rounded(want) in colIndex {
        bytes := Entry(table, colIndex[Rounded(want)], frame);
        return;
      }
      if n == 0 {
        return 0;
      }
      if want <= table.columns[0] as real {
        bytes := Entry(table, 0, frame);
        return;
      }
      if want >= table.columns[n - 1] as real {
        bytes := Entry(table, n - 1, frame);
        return;
      }
      bytes := Interpolate(want, frame, cache);
    }

    method Interpolate(want: real, frame: nat, cache: BracketCache) returns (bytes: nat)
      requires Valid() && Inside(table.columns, want)
      modifies cache
      ensures cache.View() == NextCache(table.columns, want, old(cache.View()))
      ensures bytes == Cached(table, want, frame, old(cache.View()))
    {
      var columns := table.columns;
      NextCacheInRange(columns, want, cache.View());
      hide Line, Rounded, Upper, Uncached;
      if cache.lo < |columns| && cache.hi < |columns|
        && columns[cache.lo] as real <= want <= columns[cache.hi] as real {
        bytes := Line(table, Bracket(cache.lo, cache.hi), want, frame);
        return;
      }
      var hi := BinarySearch(columns, want.Floor);
      cache.lo, cache.hi := if hi == 0 then 0 else hi - 1, hi;
      bytes := Line(table, Bracket(cache.lo, hi), want, frame);
    }
  }
}
