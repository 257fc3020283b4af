/** Incremental parsing of a low-overhead AV1 stream into open bitstream units (OBUs). */
module ObuParser {
  import opened Bytes

  // Fields of the OBU header byte (AV1 bitstream specification, section 5.3.2).
  predicate HasSizeField(header: Byte) { header / 2 % 2 == 1 }
  predicate HasExtension(header: Byte) { header / 4 % 2 == 1 }
  function ObuType(header: Byte): nat { header / 8 % 16 }

  const SEQUENCE_HEADER := 1
  // The code reads up to nine bytes; section 4.10.5 of the AV1 Bitstream Specification allows eight.
  const MAX_LEB_BYTES := 9

  function Pow128(k: nat): nat { if k == 0 then 1 else 128 * Pow128(k - 1) }

  /** What the `k`-th byte of a leb128 number adds to it. */
  function LebTerm(byte: Byte, k: nat): nat { byte % 128 * Pow128(k) }

  /** Continues reading a leb128 number at `offset` of which `k` bytes, worth `acc`, have been read. */
  function ReadLeb(b: seq<Byte>, offset: nat, k: nat, acc: nat): (r: Option<(nat, nat)>)
    requires k < MAX_LEB_BYTES
    ensures r.Some? ==> k < r.value.1 <= MAX_LEB_BYTES && offset + r.value.1 <= |b|
    decreases MAX_LEB_BYTES - k
  {
    if offset + k >= |b| then None else
    var byte := b[offset + k];
    var value := acc + LebTerm(byte, k);
    if byte < 128 then Some((value, k + 1))
    else if k + 1 > 8 then None
    else ReadLeb(b, offset, k + 1, value)
  }

  datatype Parsed = Incomplete | NoSizeField | Unit(size: nat)

  /** What stands at the front of a buffer. */
  function Front(b: seq<Byte>): (p: Parsed)
    ensures p.Unit? ==> 0 < p.size <= |b|
  {
    if b == [] then Incomplete
    else if !HasSizeField(b[0]) then NoSizeField
    else
      var offset := if HasExtension(b[0]) then 2 else 1;
      if |b| < offset then Incomplete
      else match ReadLeb(b, offset, 0, 0)
        case None => Incomplete
        case Some((payload, n)) => if |b| < offset + n + payload then Incomplete else Unit(offset + n + payload)
  }

  /** The units that can be taken off a buffer, what is left in it, and what was left before it was possibly cleared. */
  function Units(b: seq<Byte>): seq<seq<Byte>> {
    match Front(b) case Unit(n) => [b[..n]] + Units(b[n..]) case _ => []
  }

  function Tail(b: seq<Byte>): seq<Byte> {
    match Front(b) case Unit(n) => Tail(b[n..]) case _ => b
  }

  function Rest(b: seq<Byte>): seq<Byte> {
    match Front(b) case Unit(n) => Rest(b[n..]) case Incomplete => b case NoSizeField => []
  }

  /** Parsing never meets a unit without a size field. */
  predicate Clean(b: seq<Byte>) {
    match Front(b) case Unit(n) => Clean(b[n..]) case Incomplete => true case NoSizeField => false
  }

  datatype ObuUnit = ObuUnit(obuType: nat, data: seq<Byte>, isSequenceHeader: bool)

  /** The last sequence header among some units, or the one known before. */
  function LastHeader(units: seq<seq<Byte>>, known: Option<seq<Byte>>): Option<seq<Byte>> {
    if units == [] then known else
    LastHeader(units[1..], if units[0] != [] && ObuType(units[0][0]) == SEQUENCE_HEADER then Some(units[0]) else known)
  }

  class Av1Parser {
    var buffer: seq<Byte>
    var sequenceHeader: Option<seq<Byte>>

    constructor ()
      ensures buffer == [] && sequenceHeader == None
    {
      buffer, sequenceHeader := [], None;
    }

    /** More data never disturbs the units that are already complete. */
    method AddData(data: seq<Byte>)
      modifies this`buffer
      ensures buffer == old(buffer) + data && Units(old(buffer)) <= Units(buffer)
    {
      UnitsGrow(buffer, data);
      buffer := buffer + data;
    }

    method ParseLeb128(offset: nat) returns (r: Option<(nat, nat)>)
      ensures r == ReadLeb(buffer, offset, 0, 0)
    {
      var value: nat, bytesRead: nat, weight: nat := 0, 0, 1;
      while true
        invariant bytesRead < MAX_LEB_BYTES && weight == Pow128(bytesRead)
        invariant ReadLeb(buffer, offset, 0, 0) == ReadLeb(buffer, offset, bytesRead, value)
        decreases MAX_LEB_BYTES - bytesRead
      {
        if offset + bytesRead >= |buffer| {
          return None;
        }
        hide LebTerm;
        var byte := buffer[offset + bytesRead];
        // the bits of the next group lie above those of `value`, so the bitwise or is a sum
        var term: nat := byte as int % 128 * weight;
        TermIs(byte, bytesRead, weight);
        value := value + term;
        bytesRead := bytesRead + 1;
        weight := 128 * weight;
        if byte < 128 {
          return Some((value, bytesRead));
        }
        if bytesRead > 8 {
          return None;
        }
      }
    }

    method NextObu() returns (r: Option<ObuUnit>)
      modifies this
      ensures match Front(old(buffer))
              case Incomplete => r == None && buffer == old(buffer) && sequenceHeader == old(sequenceHeader)
              case NoSizeField => r == None && buffer == [] && sequenceHeader == old(sequenceHeader)
              case Unit(n) =>
                var data := old(buffer)[..n];
                && r == Some(ObuUnit(ObuType(data[0]), data, ObuType(data[0]) == SEQUENCE_HEADER))
                && buffer == old(buffer)[n..]
                && sequenceHeader == LastHeader([data], old(sequenceHeader))
    {
      if buffer == [] {
        return None;
      }
      var header := buffer[0];
      var obuType := ObuType(header);
      if !HasSizeField(header) {
        buffer := [];
        return None;
      }
      var offset := 1;
      if HasExtension(header) {
        offset := offset + 1;
        if |buffer| < offset {
          return None;
        }
      }
      var leb := ParseLeb128(offset);
      if leb.None? {
        return None;
      }
      var (payloadSize, lebBytes) := leb.value;
      var totalSize := offset + lebBytes + payloadSize;
      if |buffer| < totalSize {
        return None;
      }
      var data := buffer[..totalSize];
      buffer := buffer[totalSize..];
      if obuType == SEQUENCE_HEADER {
        sequenceHeader := Some(data);
      }
      r := Some(ObuUnit(obuType, data, obuType == SEQUENCE_HEADER));
    }

    /** Takes every complete unit off the buffer. */
    method GetFrames() returns (frames: seq<seq<Byte>>)
      modifies this
      ensures frames == Units(old(buffer)) && buffer == Rest(old(buffer))
      ensures sequenceHeader == LastHeader(frames, old(sequenceHeader))
    {
      frames := [];
      while true
        invariant Units(old(buffer)) == frames + Units(buffer)
        invariant Rest(old(buffer)) == Rest(buffer)
        invariant sequenceHeader == LastHeader(frames, old(sequenceHeader))
        decreases |buffer|
      {
        ghost var before := buffer;
        var obu := NextObu();
        if obu.None? {
          assert frames + [] == frames;
          return;
        }
        Associative(frames, [obu.value.data], Units(buffer));
        LastHeaderAppend(frames, obu.value.data, old(sequenceHeader));
        frames := frames + [obu.value.data];
      }
    }
  }

  lemma TermIs(byte: Byte, k: nat, weight: nat)
    requires weight == Pow128(k)
    ensures byte as int % 128 * weight == LebTerm(byte, k)
  {
  }

  lemma {:induction false} LastHeaderAppend(units: seq<seq<Byte>>, u: seq<Byte>, known: Option<seq<Byte>>)
    ensures LastHeader(units + [u], known) == LastHeader([u], LastHeader(units, known))
  {
    if units == [] {
      assert units + [u] == [u];
    } else {
      assert (units + [u])[1..] == units[1..] + [u];
      var known' := if units[0] != [] && ObuType(units[0][0]) == SEQUENCE_HEADER then Some(units[0]) else known;
      LastHeaderAppend(units[1..], u, known');
    }
  }

  // ---------------------------------------------------------------------------------------------------------------
  // Chunks
  // ---------------------------------------------------------------------------------------------------------------

  lemma {:induction false} ReadLebStable(a: seq<Byte>, b: seq<Byte>, offset: nat, k: nat, acc: nat)
    requires k < MAX_LEB_BYTES && ReadLeb(a, offset, k, acc).Some?
    ensures ReadLeb(a + b, offset, k, acc) == ReadLeb(a, offset, k, acc)
    decreases MAX_LEB_BYTES - k
  {
    assert (a + b)[offset + k] == a[offset + k];
    if a[offset + k] >= 128 {
      ReadLebStable(a, b, offset, k + 1, acc + LebTerm(a[offset + k], k));
    }
  }

  /** A verdict other than "incomplete" does not change when more data comes in. */
  lemma FrontStable(a: seq<Byte>, b: seq<Byte>)
    requires !Front(a).Incomplete?
    ensures Front(a + b) == Front(a)
  {
    assert (a + b)[0] == a[0];
    if HasSizeField(a[0]) {
      ReadLebStable(a, b, if HasExtension(a[0]) then 2 else 1, 0, 0);
    }
  }

  /**
   * Parsing a first chunk and then the leftover with the second chunk is parsing both at once, if the first is clean.
   */
  lemma {:induction false} SplitClean(a: seq<Byte>, b: seq<Byte>)
    requires Clean(a)
    ensures Units(a + b) == Units(a) + Units(Rest(a) + b)
    ensures Rest(a + b) == Rest(Rest(a) + b) && Clean(a + b) == Clean(Rest(a) + b)
    decreases |a|
  {
    hide Front;
    if Front(a).Unit? {
      var n := Front(a).size;
      FrontStable(a, b);
      SplitClean(a[n..], b);
      assert (a + b)[n..] == a[n..] + b && (a + b)[..n] == a[..n];
      Associative([a[..n]], Units(a[n..]), Units(Rest(a) + b));
    } else {
      assert [] + Units(a + b) == Units(a + b);
    }
  }

  lemma {:induction false} SplitUnclean(a: seq<Byte>, b: seq<Byte>)
    requires !Clean(a)
    ensures Units(a + b) == Units(a) && Rest(a + b) == [] && Rest(a) == []
    decreases |a|
  {
    hide Front;
    FrontStable(a, b);
    if Front(a).Unit? {
      var n := Front(a).size;
      SplitUnclean(a[n..], b);
      assert (a + b)[n..] == a[n..] + b && (a + b)[..n] == a[..n];
    }
  }

  /** More data never disturbs the units that are already complete. */
  lemma UnitsGrow(a: seq<Byte>, b: seq<Byte>)
    ensures Units(a) <= Units(a + b)
  {
    if Clean(a) {
      SplitClean(a, b);
    } else {
      SplitUnclean(a, b);
    }
    hide Units, Rest, Clean;
  }

  /**
   * When one cut of the input matters: parsing in two chunks gives the units and the leftover of parsing at once
   * exactly if no unit without a size field was met before the cut, or nothing that looks like a unit follows it.
   */
  lemma CutIsHarmlessExactly(a: seq<Byte>, b: seq<Byte>)
    ensures Units(a) + Units(Rest(a) + b) == Units(a + b) && Rest(Rest(a) + b) == Rest(a + b)
       <==> Clean(a) || b == [] || !HasSizeField(b[0])
  {
    if Clean(a) {
      SplitClean(a, b);
    } else {
      SplitUnclean(a, b);
      assert [] + b == b;
      assert Units(b) == [] ==> Units(a) + Units(b) == Units(a);
      assert |Units(a) + Units(b)| == |Units(a)| + |Units(b)|;
    }
  }

  /** Feeding chunks one after the other, taking all complete units after each. */
  function Feed(buffer: seq<Byte>, chunks: seq<seq<Byte>>): (seq<seq<Byte>>, seq<Byte>)
    decreases |chunks|
  {
    if chunks == [] then ([], buffer) else
    var b := buffer + chunks[0];
    var (units, rest) := Feed(Rest(b), chunks[1..]);
    (Units(b) + units, rest)
  }

  lemma {:induction false} RestIsQuiet(b: seq<Byte>)
    ensures Units(Rest(b)) == [] && Rest(Rest(b)) == Rest(b)
    decreases |b|
  {
    if Front(b).Unit? {
      RestIsQuiet(b[Front(b).size..]);
    }
  }

  lemma {:induction false} FeedIsParse(buffer: seq<Byte>, chunks: seq<seq<Byte>>)
    requires Units(buffer) == [] && Rest(buffer) == buffer && Clean(buffer + Flatten(chunks))
    ensures Feed(buffer, chunks) == (Units(buffer + Flatten(chunks)), Rest(buffer + Flatten(chunks)))
    decreases |chunks|
  {
    if chunks == [] {
      assert buffer + Flatten(chunks) == buffer;
    } else {
      var b, later := buffer + chunks[0], Flatten(chunks[1..]);
      Associative(buffer, chunks[0], later);
      CleanPrefix(b, later);
      SplitClean(b, later);
      RestIsQuiet(b);
      FeedIsParse(Rest(b), chunks[1..]);
    }
  }

  lemma {:induction false} CleanPrefix(a: seq<Byte>, b: seq<Byte>)
    requires Clean(a + b)
    ensures Clean(a)
    decreases |a|
  {
    hide Front;
    if !Front(a).Incomplete? {
      FrontStable(a, b);
      if Front(a).Unit? {
        var n := Front(a).size;
        assert (a + b)[n..] == a[n..] + b;
        CleanPrefix(a[n..], b);
      }
    }
  }

  /**
   * Chunk independence: for a stream whose units have size fields, however it is cut, the units from successive
   * calls are those of one call, and nothing is lost: units and leftover together are the stream.
   */
  lemma ChunksDoNotMatter(chunks: seq<seq<Byte>>)
    requires Clean(Flatten(chunks))
    ensures var (units, rest) := Feed([], chunks);
            && units == Units(Flatten(chunks)) && rest == Rest(Flatten(chunks))
            && Flatten(units) + rest == Flatten(chunks)
  {
    assert [] + Flatten(chunks) == Flatten(chunks);
    FeedIsParse([], chunks);
    Lossless(Flatten(chunks));
  }

  lemma {:induction false} Lossless(b: seq<Byte>)
    ensures Flatten(Units(b)) + Tail(b) == b
    ensures Clean(b) ==> Rest(b) == Tail(b)
    decreases |b|
  {
    hide Front;
    if Front(b).Unit? {
      var n := Front(b).size;
      Lossless(b[n..]);
      var u := Units(b[n..]);
      assert ([b[..n]] + u)[1..] == u;
      assert Flatten(Units(b)) == b[..n] + Flatten(u);
      Associative(b[..n], Flatten(u), Tail(b[n..]));
      assert b == b[..n] + b[n..];
    } else {
      assert Flatten(Units(b)) == [];
    }
  }

  // ---------------------------------------------------------------------------------------------------------------
  // Encoding
  // ---------------------------------------------------------------------------------------------------------------

  type Kind = k: int | 0 <= k < 16

  /** The fields of a unit; the parser looks at neither the forbidden nor the reserved bit. */
  datatype Obu = Obu(obuType: Kind, extension: Option<Byte>, forbidden: bool, reserved: bool, payload: seq<Byte>) {
    predicate Valid() { |payload| < Pow128(MAX_LEB_BYTES) }
  }

  function Bit(flag: bool, weight: nat): nat { if flag then weight else 0 }

  /** The header byte as section 5.3.2 of the AV1 Bitstream Specification lays it out, highest bit first. */
  function HeaderByte(o: Obu, hasSize: bool): Byte {
    Bit(o.forbidden, 128) + 8 * o.obuType + Bit(o.extension.Some?, 4) + Bit(hasSize, 2) + Bit(o.reserved, 1)
  }

  /** The parser reads from the header byte exactly what was put there. */
  lemma HeaderFields(o: Obu, hasSize: bool)
    ensures var h := HeaderByte(o, hasSize);
      ObuType(h) == o.obuType && (HasExtension(h) <==> o.extension.Some?) && (HasSizeField(h) <==> hasSize)
  {
    var f, e, s, r := Bit(o.forbidden, 1), Bit(o.extension.Some?, 1), Bit(hasSize, 1), Bit(o.reserved, 1);
    assert HeaderByte(o, hasSize) == 128 * f + 8 * o.obuType + 4 * e + 2 * s + r;
    Digits(f, o.obuType, e, s, r);
  }

  lemma Digits(f: nat, t: nat, e: nat, s: nat, r: nat)
    requires f < 2 && t < 16 && e < 2 && s < 2 && r < 2
    ensures var h := 128 * f + 8 * t + 4 * e + 2 * s + r; h / 8 % 16 == t && h / 4 % 2 == e && h / 2 % 2 == s
  {
    var h := 128 * f + 8 * t + 4 * e + 2 * s + r;
    assert h / 8 == 16 * f + t && h / 4 == 2 * (16 * f + t) + e && h / 2 == 2 * (2 * (16 * f + t) + e) + s;
  }

  function EncodeLeb(v: nat): (s: seq<Byte>)
    ensures |s| > 0
  {
    if v < 128 then [v] else [128 + v % 128] + EncodeLeb(v / 128)
  }

  function HeaderBytes(o: Obu, hasSize: bool): seq<Byte> {
    [HeaderByte(o, hasSize)] + if o.extension.Some? then [o.extension.value] else []
  }

  function Encode(o: Obu): seq<Byte> { HeaderBytes(o, true) + EncodeLeb(|o.payload|) + o.payload }

  /** A unit that leaves its size to its container. */
  function EncodeUnsized(o: Obu): seq<Byte> { HeaderBytes(o, false) + o.payload }

  function EncodeAll(obus: seq<Obu>): seq<seq<Byte>> {
    if obus == [] then [] else [Encode(obus[0])] + EncodeAll(obus[1..])
  }

  lemma {:induction false} EncodeLebFits(v: nat, n: nat)
    requires 0 < n && v < Pow128(n)
    ensures |EncodeLeb(v)| <= n
    decreases n
  {
    if v >= 128 {
      assert Pow128(1) == 128 * Pow128(0) == 128;
      assert v / 128 < Pow128(n - 1);
      EncodeLebFits(v / 128, n - 1);
    }
  }

  lemma {:induction false} ReadEncoded(pre: seq<Byte>, v: nat, post: seq<Byte>, k: nat, acc: nat)
    requires k <= |pre| && k + |EncodeLeb(v)| <= MAX_LEB_BYTES
    ensures ReadLeb(pre + EncodeLeb(v) + post, |pre| - k, k, acc) == Some((acc + v * Pow128(k), k + |EncodeLeb(v)|))
    decreases v
  {
    hide Pow128, ReadLeb, EncodeLeb, LebTerm;
    EncodeLebSteps(v);
    var b := pre + EncodeLeb(v) + post;
    var byte := EncodeLeb(v)[0];
    assert b[|pre|] == byte;
    ReadLebSteps(b, |pre| - k, k, acc);
    var value := acc + LebTerm(byte, k);
    if v >= 128 {
      ReadEncoded(pre + [byte], v / 128, post, k + 1, value);
      assert pre + [byte] + EncodeLeb(v / 128) + post == b;
      PowStep(k);
      LebSum(v, Pow128(k), acc);
    }
    LebTermIs(byte, v, k);
  }

  lemma EncodeLebSteps(v: nat)
    ensures EncodeLeb(v) == if v < 128 then [v] else [v % 128 + 128] + EncodeLeb(v / 128)
  {
  }

  lemma ReadLebSteps(b: seq<Byte>, offset: nat, k: nat, acc: nat)
    requires k < MAX_LEB_BYTES && offset + k < |b|
    ensures ReadLeb(b, offset, k, acc) ==
      var value := acc + LebTerm(b[offset + k], k);
      if b[offset + k] < 128 then Some((value, k + 1)) else if k + 1 > 8 then None else ReadLeb(b, offset, k + 1, value)
  {
  }

  lemma LebTermIs(byte: Byte, v: nat, k: nat)
    requires byte % 128 == v % 128
    ensures LebTerm(byte, k) == v % 128 * Pow128(k)
  {
  }

  lemma PowStep(k: nat)
    ensures Pow128(k + 1) == 128 * Pow128(k)
  {
  }

  lemma LebSum(v: nat, w: nat, acc: nat)
    ensures acc + v % 128 * w + v / 128 * (128 * w) == acc + v * w
  {
    var q, r := v / 128, v % 128;
    assert v * w == (128 * q + r) * w == 128 * q * w + r * w;
    assert q * (128 * w) == 128 * q * w;
  }

  /** An encoded unit, whatever follows it, is taken off whole. */
  lemma FrontOfEncoded(o: Obu, post: seq<Byte>)
    requires o.Valid()
    ensures Front(Encode(o) + post) == Unit(|Encode(o)|)
  {
    HeaderFields(o, true);
    hide ReadLeb, EncodeLeb, Pow128, HeaderByte, HasSizeField, HasExtension;
    var b := Encode(o) + post;
    var pre, leb := HeaderBytes(o, true), EncodeLeb(|o.payload|);
    assert b == pre + leb + (o.payload + post);
    assert b[0] == HeaderByte(o, true);
    ReadSize(pre, |o.payload|, o.payload + post);
  }

  lemma ReadSize(pre: seq<Byte>, v: nat, post: seq<Byte>)
    requires v < Pow128(MAX_LEB_BYTES)
    ensures ReadLeb(pre + EncodeLeb(v) + post, |pre|, 0, 0) == Some((v, |EncodeLeb(v)|))
  {
    EncodeLebFits(v, MAX_LEB_BYTES);
    ReadEncoded(pre, v, post, 0, 0);
    hide ReadLeb, EncodeLeb;
    assert v * Pow128(0) == v;
  }

  /** Round trip: any list of units, encoded and parsed, comes back, with whatever followed it still to be parsed. */
  lemma {:induction false} EncodedComesBack(obus: seq<Obu>, post: seq<Byte>)
    requires forall o :: o in obus ==> o.Valid()
    ensures Units(Flatten(EncodeAll(obus)) + post) == EncodeAll(obus) + Units(post)
    ensures Rest(Flatten(EncodeAll(obus)) + post) == Rest(post)
    ensures Clean(Flatten(EncodeAll(obus)) + post) == Clean(post)
  {
    hide Front, Encode;
    if obus == [] {
      assert Flatten(EncodeAll(obus)) + post == post;
    } else {
      var first, later := Encode(obus[0]), EncodeAll(obus[1..]);
      assert ([first] + later)[1..] == later;
      assert Flatten(EncodeAll(obus)) == first + Flatten(later);
      var tail := Flatten(later) + post;
      Associative(first, Flatten(later), post);
      FrontOfEncoded(obus[0], tail);
      assert (first + tail)[..|first|] == first && (first + tail)[|first|..] == tail;
      EncodedComesBack(obus[1..], post);
      Associative([first], later, Units(post));
    }
  }

  lemma {:induction false} EncodeAllAppend(a: seq<Obu>, b: seq<Obu>)
    ensures EncodeAll(a + b) == EncodeAll(a) + EncodeAll(b)
  {
    hide Encode;
    if a == [] {
      assert a + b == b;
    } else {
      EncodeAllAppend(a[1..], b);
      assert (a + b)[1..] == a[1..] + b;
    }
  }

  /** Among encoded units the sequence header remembered is the last one of that type ... */
  lemma {:induction false} RemembersLastHeader(obus: seq<Obu>, k: nat, known: Option<seq<Byte>>)
    requires k < |obus| && obus[k].obuType == 1 && forall j :: k < j < |obus| ==> obus[j].obuType != 1
    ensures LastHeader(EncodeAll(obus), known) == Some(Encode(obus[k]))
    decreases |obus|
  {
    hide Encode, EncodeAll, LastHeader;
    var init, last := obus[..|obus| - 1], obus[|obus| - 1];
    assert obus == init + [last];
    NextHeader(init, last, known);
    if k < |init| {
      RemembersLastHeader(init, k, known);
    }
  }

  /** ... or the one known before. */
  lemma {:induction false} RemembersKnownHeader(obus: seq<Obu>, known: Option<seq<Byte>>)
    requires forall j :: 0 <= j < |obus| ==> obus[j].obuType != 1
    ensures LastHeader(EncodeAll(obus), known) == known
  {
    if obus != [] {
      hide Encode, EncodeAll, LastHeader;
      var init, last := obus[..|obus| - 1], obus[|obus| - 1];
      assert obus == init + [last];
      NextHeader(init, last, known);
      RemembersKnownHeader(init, known);
    }
  }

  lemma NextHeader(init: seq<Obu>, last: Obu, known: Option<seq<Byte>>)
    ensures LastHeader(EncodeAll(init + [last]), known)
         == if last.obuType == 1 then Some(Encode(last)) else LastHeader(EncodeAll(init), known)
  {
    EncodeAllAppend(init, [last]);
    assert EncodeAll([last]) == [Encode(last)];
    HeaderFields(last, true);
    assert Encode(last)[0] == HeaderByte(last, true);
    hide Encode, HeaderByte, ObuType, EncodeAll;
    LastHeaderAppend(EncodeAll(init), Encode(last), known);
  }

  /** An unsized unit, whatever follows it, has the buffer cleared. */
  lemma UnsizedClears(o: Obu, post: seq<Byte>)
    ensures Front(EncodeUnsized(o) + post) == NoSizeField && Rest(EncodeUnsized(o) + post) == []
  {
    HeaderFields(o, false);
    assert (EncodeUnsized(o) + post)[0] == HeaderByte(o, false);
  }

  /** The fields of a unit, read back from its bytes. */
  function Decode(unit: seq<Byte>): Option<(nat, Option<Byte>, seq<Byte>)> {
    if Front(unit) != Unit(|unit|) then None else
    var offset := if HasExtension(unit[0]) then 2 else 1;
    var n := ReadLeb(unit, offset, 0, 0).value.1;
    Some((ObuType(unit[0]), if HasExtension(unit[0]) then Some(unit[1]) else None, unit[offset + n..]))
  }

  lemma DecodeEncoded(o: Obu)
    requires o.Valid()
    ensures Decode(Encode(o)) == Some((o.obuType, o.extension, o.payload))
  {
    var b := Encode(o);
    var pre, leb := HeaderBytes(o, true), EncodeLeb(|o.payload|);
    HeaderFields(o, true);
    hide ReadLeb, EncodeLeb, Pow128, Front, HeaderByte, HasExtension, ObuType;
    FrontOfEncoded(o, []);
    assert b + [] == b;
    ReadSize(pre, |o.payload|, o.payload);
    assert b[0] == HeaderByte(o, true);
    assert b[|pre| + |leb|..] == o.payload;
  }

  /** The parser itself: an encoded unit comes out whole, with its type, and what follows stays in the buffer. */
  method ParseEncoded(o: Obu, post: seq<Byte>) returns (unit: Option<ObuUnit>, rest: seq<Byte>)
    requires o.Valid()
    ensures unit == Some(ObuUnit(o.obuType, Encode(o), o.obuType == 1)) && rest == post
  {
    HeaderFields(o, true);
    FrontOfEncoded(o, post);
    var parser := new Av1Parser();
    hide Front, HeaderByte, ObuType, EncodeLeb;
    var data := Encode(o) + post;
    assert [] + data == data && data[..|Encode(o)|] == Encode(o) && data[|Encode(o)|..] == post;
    parser.AddData(data);
    unit := parser.NextObu();
    rest := parser.buffer;
  }

  // ---------------------------------------------------------------------------------------------------------------
  // A size field that never ends
  // ---------------------------------------------------------------------------------------------------------------

  ghost predicate Endless(b: seq<Byte>, offset: nat) {
    offset + MAX_LEB_BYTES <= |b| && forall k :: offset <= k < offset + MAX_LEB_BYTES ==> b[k] >= 128
  }

  lemma {:induction false} EndlessIsNone(b: seq<Byte>, offset: nat, k: nat, acc: nat)
    requires Endless(b, offset) && k < MAX_LEB_BYTES
    ensures ReadLeb(b, offset, k, acc) == None
    decreases MAX_LEB_BYTES - k
  {
    if k + 1 < MAX_LEB_BYTES {
      EndlessIsNone(b, offset, k + 1, acc + LebTerm(b[offset + k], k));
    }
  }

  /** Short of nine continuation bytes, one more byte can end the number. */
  lemma {:induction false} OneByteEnds(b: seq<Byte>, offset: nat, k: nat, acc: nat)
    requires k < MAX_LEB_BYTES && offset + k <= |b| && !Endless(b, offset)
    requires forall i :: offset <= i < offset + k ==> b[i] >= 128
    ensures ReadLeb(b + [0], offset, k, acc).Some?
    decreases MAX_LEB_BYTES - k
  {
    hide LebTerm, ReadLeb;
    ReadLebSteps(b + [0], offset, k, acc);
    if offset + k < |b| && b[offset + k] >= 128 {
      OneByteEnds(b, offset, k + 1, acc + LebTerm(b[offset + k], k));
    }
  }

  function Zeros(n: nat): (z: seq<Byte>)
    ensures |z| == n
  {
    seq(n, _ => 0)
  }

  /** A buffer that is not stalled can be completed. */
  lemma Completion(b: seq<Byte>) returns (more: seq<Byte>)
    requires !Stalled(b)
    ensures !Front(b + more).Incomplete?
  {
    if b == [] {
      more := [0];
    } else if !HasSizeField(b[0]) {
      more := [];
      assert b + more == b;
    } else {
      var offset := if HasExtension(b[0]) then 2 else 1;
      var pad := if |b| < offset then [0] else [];
      var b1 := b + pad;
      assert !Endless(b1, offset) by {
        if pad == [] { assert b1 == b; }
      }
      OneByteEnds(b1, offset, 0, 0);
      var (payload, n) := ReadLeb(b1 + [0], offset, 0, 0).value;
      ReadLebStable(b1 + [0], Zeros(payload), offset, 0, 0);
      more := pad + [0] + Zeros(payload);
      assert b + more == b1 + [0] + Zeros(payload);
      assert (b + more)[0] == b[0];
      hide ReadLeb, Endless;
    }
  }

  /** A size field with nine continuation bytes stands at the front. */
  ghost predicate Stalled(b: seq<Byte>) {
    b != [] && HasSizeField(b[0]) && Endless(b, if HasExtension(b[0]) then 2 else 1)
  }

  /** No input ever brings a buffer on exactly if nine continuation bytes stand at its front. */
  lemma StallsExactly(b: seq<Byte>)
    ensures (forall more :: Front(b + more).Incomplete?) <==> Stalled(b)
  {
    if Stalled(b) {
      forall more
        ensures Front(b + more).Incomplete?
      {
        EndlessStalls(b, more);
      }
    } else {
      var more := Completion(b);
    }
  }

  /** Nine continuation bytes stall the parser for good: no unit comes out again, whatever is added. */
  lemma EndlessStalls(b: seq<Byte>, more: seq<Byte>)
    requires Stalled(b)
    ensures Front(b + more).Incomplete? && Units(b + more) == [] && Rest(b + more) == b + more
  {
    var offset := if HasExtension(b[0]) then 2 else 1;
    assert (b + more)[0] == b[0];
    assert Endless(b + more, offset);
    EndlessIsNone(b + more, offset, 0, 0);
  }
}
