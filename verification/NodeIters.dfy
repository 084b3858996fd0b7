/** The resumable iterator over the prefixes of one node that lie below a span. */
module NodeIters {
  import opened Wrappers
  import opened Bits
  import opened Af
  import opened Stride
  import opened NodeIds

  /** The prefix bit of a span is set. */
  predicate Has(stride: nat, arr: Bitmap, bits: nat, len: nat)
    requires IsStride(stride) && Fits(PfxWidth(stride), arr)
  {
    Pos(bits, len) < PfxWidth(stride) && AllBits(PfxWidth(stride), arr)[Pos(bits, len)]
  }

  /** What is left: the set spans from x up to lo + count at this length, then all below them at longer lengths. */
  ghost function Rest(stride: nat, arr: Bitmap, lo: nat, count: nat, len: nat, x: nat): seq<BitSpan>
    requires IsStride(stride) && Fits(PfxWidth(stride), arr)
    decreases if len <= stride then stride + 1 - len else 0, lo + count - x
  {
    if len > stride then []
    else if x >= lo + count then Rest(stride, arr, 2 * lo, 2 * count, len + 1, 2 * lo)
    else (if Has(stride, arr, x, len) then [BitSpan(x, len)] else []) + Rest(stride, arr, lo, count, len, x + 1)
  }

  /** v doubled k times. */
  function Times2(v: nat, k: nat): nat
    decreases k
  {
    if k == 0 then v else Times2(2 * v, k - 1)
  }

  ghost predicate InRest(lo: nat, count: nat, len: nat, x: nat, span: BitSpan) {
    if span.len == len then x <= span.bits < lo + count
    else span.len > len && Times2(lo, span.len - len) <= span.bits < Times2(lo + count, span.len - len)
  }

  lemma DoubledFirst(v: nat, k: nat)
    requires k > 0
    ensures Times2(v, k) == Times2(2 * v, k - 1)
    ensures k == 1 ==> Times2(v, k) == 2 * v
  {
    assert Times2(2 * v, 0) == 2 * v;
  }

  lemma InRestStep(lo: nat, count: nat, len: nat, x: nat, span: BitSpan)
    requires x >= lo + count
    ensures InRest(lo, count, len, x, span) <==> InRest(2 * lo, 2 * count, len + 1, 2 * lo, span)
  {
    if span.len > len {
      DoubledFirst(lo, span.len - len);
      DoubledFirst(lo + count, span.len - len);
    }
  }

  lemma InRestNext(lo: nat, count: nat, len: nat, x: nat, span: BitSpan)
    requires x < lo + count
    ensures InRest(lo, count, len, x, span) <==> span == BitSpan(x, len) || InRest(lo, count, len, x + 1, span)
  {
  }

  lemma {:induction false} RestMeets(stride: nat, arr: Bitmap, lo: nat, count: nat, len: nat, x: nat, span: BitSpan)
    requires IsStride(stride) && Fits(PfxWidth(stride), arr) && lo <= x
    ensures span in Rest(stride, arr, lo, count, len, x) <==>
      span.len <= stride && InRest(lo, count, len, x, span) && Has(stride, arr, span.bits, span.len)
    decreases if len <= stride then stride + 1 - len else 0, lo + count - x
  {
    hide Has, Fits, PfxWidth, InRest;
    TooShort(lo, count, len, x, span);
    if len <= stride {
      if x >= lo + count {
        InRestStep(lo, count, len, x, span);
        RestMeets(stride, arr, 2 * lo, 2 * count, len + 1, 2 * lo, span);
      } else {
        InRestNext(lo, count, len, x, span);
        RestMeets(stride, arr, lo, count, len, x + 1, span);
      }
    }
  }

  lemma TooShort(lo: nat, count: nat, len: nat, x: nat, span: BitSpan)
    ensures InRest(lo, count, len, x, span) ==> span.len >= len
  {
  }

  /** Shorter spans come first, then smaller ones. */
  predicate Earlier(a: BitSpan, b: BitSpan) {
    a.len < b.len || (a.len == b.len && a.bits < b.bits)
  }

  lemma {:induction false} RestInOrder(stride: nat, arr: Bitmap, lo: nat, count: nat, len: nat, x: nat)
    requires IsStride(stride) && Fits(PfxWidth(stride), arr) && lo <= x
    ensures forall i, j :: 0 <= i < j < |Rest(stride, arr, lo, count, len, x)| ==>
      Earlier(Rest(stride, arr, lo, count, len, x)[i], Rest(stride, arr, lo, count, len, x)[j])
    decreases if len <= stride then stride + 1 - len else 0, lo + count - x
  {
    hide Has, Fits, PfxWidth;
    if len <= stride {
      if x >= lo + count {
        RestInOrder(stride, arr, 2 * lo, 2 * count, len + 1, 2 * lo);
      } else {
        RestInOrder(stride, arr, lo, count, len, x + 1);
        var rest := Rest(stride, arr, lo, count, len, x + 1);
        forall j | 0 <= j < |rest|
          ensures Earlier(BitSpan(x, len), rest[j])
        {
          RestMeets(stride, arr, lo, count, len, x + 1, rest[j]);
        }
      }
    }
  }

  lemma {:induction false} Times2Shr(b: nat, d: nat, y: nat)
    ensures Times2(b, d) <= y < Times2(b + 1, d) <==> Shr(y, d) == b
    decreases d
  {
    if d > 0 {
      Times2Last(b, d);
      Times2Last(b + 1, d);
      Times2Shr(b, d - 1, y / 2);
    }
  }

  lemma {:induction false} Times2Last(v: nat, d: nat)
    requires d > 0
    ensures Times2(v, d) == 2 * Times2(v, d - 1)
    decreases d
  {
    if d > 1 { Times2Last(2 * v, d - 1); }
  }

  lemma {:induction false} ShrBound(y: nat, d: nat, len: nat)
    requires Shr(y, d) < Pow2(len)
    ensures y < Pow2(len + d)
    decreases d
  {
    if d > 0 { ShrBound(y / 2, d - 1, len); }
  }

  /** The spans in the range of a start span are those whose bits extend its bits. */
  lemma RangeIsExtension(b: nat, len: nat, span: BitSpan)
    requires b < Pow2(len) && span.len >= len
    ensures InRest(b, 1, len, b, span) <==>
      span.bits < Pow2(span.len) && ToBits(b, len) <= ToBits(span.bits, span.len)
  {
    hide InRest, Pow2, Val, Shr;
    var d := span.len - len;
    InRestShr(b, len, span);
    if Shr(span.bits, d) == b {
      ShrBound(span.bits, d, len);
      ShrBits(span.bits, d, span.len);
    }
    if span.bits < Pow2(span.len) && ToBits(b, len) <= ToBits(span.bits, span.len) {
      ShrBits(span.bits, d, span.len);
      ValToBits(b, len);
      assert ToBits(span.bits, span.len)[..len] == ToBits(b, len);
    }
  }

  lemma InRestShr(b: nat, len: nat, span: BitSpan)
    requires span.len >= len
    ensures InRest(b, 1, len, b, span) <==> Shr(span.bits, span.len - len) == b
  {
    Times2Shr(b, span.len - len, span.bits);
  }

  /** Setting a bit that is set changes nothing. */
  lemma BitTest(stride: nat, arr: Bitmap, bits: nat, len: nat)
    requires IsStride(stride) && Fits(PfxWidth(stride), arr) && len <= stride && bits < Pow2(len)
    ensures BitOr(GetBitPos(stride, bits, len), arr) == arr <==> Has(stride, arr, bits, len)
  {
    hide Pow2, BitOr, GetBitPos, AllBits, Fits;
    SetBit(stride, arr, bits, len);
    var arr' := BitOr(GetBitPos(stride, bits, len), arr);
    if Has(stride, arr, bits, len) {
      assert AllBits(PfxWidth(stride), arr') == AllBits(PfxWidth(stride), arr);
      BitsDetermine(PfxWidth(stride), arr', arr);
    }
  }

  class NodeMoreSpecificsPrefixIter {
    const bits: nat
    const basePrefix: PrefixId
    const stride: nat
    const pfxbitarr: Bitmap
    var startBitSpan: BitSpan
    var cursor: BitSpan
    var skipSelf: bool

    ghost predicate Valid()
      reads this
    {
      && IsStride(stride) && Fits(PfxWidth(stride), pfxbitarr) && !Has(stride, pfxbitarr, 0, 0)
      && basePrefix.net < Pow2(bits) && basePrefix.len + stride <= bits
      && startBitSpan.len <= stride && startBitSpan.len <= cursor.len <= stride + 1
      && InPlace(startBitSpan, cursor)
      && (skipSelf && cursor.len == startBitSpan.len ==> cursor.bits == startBitSpan.bits)
    }

    /** The spans still to come. */
    ghost function Remaining(): seq<BitSpan>
      requires Valid()
      reads this
    {
      var count := Pow2(cursor.len - startBitSpan.len);
      Rest(stride, pfxbitarr, startBitSpan.bits, count, cursor.len,
           if skipSelf && cursor.len == startBitSpan.len then cursor.bits + 1 else cursor.bits)
    }

    constructor (bits: nat, basePrefix: PrefixId, stride: nat, pfxbitarr: Bitmap, start: BitSpan, skipSelf: bool)
      requires IsStride(stride) && Fits(PfxWidth(stride), pfxbitarr) && !Has(stride, pfxbitarr, 0, 0)
      requires basePrefix.net < Pow2(bits) && basePrefix.len + stride <= bits
      requires start.len <= stride && start.bits < Pow2(start.len)
      ensures Valid() && this.bits == bits && this.basePrefix == basePrefix
      ensures this.stride == stride && this.pfxbitarr == pfxbitarr
      ensures Remaining() ==
        Rest(stride, pfxbitarr, start.bits, 1, start.len, if skipSelf then start.bits + 1 else start.bits)
    {
      this.bits, this.basePrefix, this.stride, this.pfxbitarr := bits, basePrefix, stride, pfxbitarr;
      startBitSpan, cursor, this.skipSelf := start, start, skipSelf;
    }

    /** Leaves the current length for the next one. */
    method NextLen()
      requires Valid() && !(skipSelf && cursor.len == startBitSpan.len) && cursor.len <= stride
      requires cursor.bits + 1 == startBitSpan.bits + Pow2(cursor.len - startBitSpan.len)
      modifies this
      ensures Valid() && !(skipSelf && cursor.len == startBitSpan.len)
      ensures skipSelf == old(skipSelf) && cursor.len == old(cursor.len) + 1
      ensures Remaining() ==
        old(Rest(stride, pfxbitarr, startBitSpan.bits, Pow2(cursor.len - startBitSpan.len), cursor.len,
        cursor.bits + 1))
    {
      hide Has, Fits, PfxWidth, Rest;
      RestOver(stride, pfxbitarr, startBitSpan.bits, Pow2(cursor.len - startBitSpan.len), cursor.len, cursor.bits + 1);
      startBitSpan := startBitSpan.(bits := 2 * startBitSpan.bits);
      cursor := BitSpan(startBitSpan.bits, cursor.len + 1);
    }

    /** Appends a span to the node's own bits. */
    method SpanPrefix(span: BitSpan) returns (p: PrefixId)
      requires Valid() && span.len <= stride && span.bits < Pow2(span.len)
      requires Has(stride, pfxbitarr, span.bits, span.len)
      ensures IsSpanPrefix(bits, basePrefix, span, p)
    {
      SpanFits(bits, basePrefix, span);
      p := AddNibble(bits, Cleaned(bits, basePrefix.net, basePrefix.len), span.bits, span.len);
    }

    /** The prefix of the span at the cursor, if its bit is set: setting it once more changes nothing. */
    method LookHere() returns (r: Option<PrefixId>)
      requires Valid() && cursor.len <= stride
      ensures r.Some? <==> Has(stride, pfxbitarr, cursor.bits, cursor.len)
      ensures r.Some? ==> IsSpanPrefix(bits, basePrefix, cursor, r.value)
    {
      hide Has, Fits, PfxWidth, BitOr, GetBitPos, IsSpanPrefix, Rest, Pow2;
      BitTest(stride, pfxbitarr, cursor.bits, cursor.len);
      if BitOr(GetBitPos(stride, cursor.bits, cursor.len), pfxbitarr) != pfxbitarr { return None; }
      var p := SpanPrefix(cursor);
      return Some(p);
    }

    /** Leaves out the start span, which is the only one of its length. */
    method SkipSelf()
      requires Valid() && skipSelf && cursor.len == startBitSpan.len <= stride
      modifies this
      ensures Valid() && !skipSelf && Remaining() == old(Remaining())
    {
      hide Has, Fits, PfxWidth, Rest;
      RestOver(stride, pfxbitarr, startBitSpan.bits, 1, cursor.len, cursor.bits + 1);
      startBitSpan := startBitSpan.(bits := 2 * startBitSpan.bits);
      cursor := BitSpan(startBitSpan.bits, cursor.len + 1);
      skipSelf := false;
    }

    /** The next prefix whose bit is set, by length and then by bits; None after the last one. */
    method Next() returns (r: Option<PrefixId>)
      requires Valid()
      modifies this
      ensures Valid()
      ensures r.None? ==> old(Remaining()) == [] && Remaining() == []
      ensures r.Some? ==> old(Remaining()) != [] && Remaining() == old(Remaining())[1..]
      ensures r.Some? ==> IsSpanPrefix(bits, basePrefix, old(Remaining())[0], r.value)
    {
      hide Has, Fits, PfxWidth, BitOr, GetBitPos, Zero, IsSpanPrefix, Rest, Pow2, IsStride;
      Widths(stride);
      if pfxbitarr == Zero(PfxWidth(stride)) {
        NothingSet(stride, pfxbitarr, startBitSpan.bits, Pow2(cursor.len - startBitSpan.len), cursor.len,
          if skipSelf && cursor.len == startBitSpan.len then cursor.bits + 1 else cursor.bits);
        return None;
      }
      SkipLen(startBitSpan, cursor);
      if skipSelf && Pow2(cursor.len - startBitSpan.len) == 1 {
        SkipSelf();
      }
      RestOver(stride, pfxbitarr, startBitSpan.bits, Pow2(cursor.len - startBitSpan.len), cursor.len, cursor.bits);
      if cursor.len > stride { return None; }
      r := None;
      while true
        invariant Valid() && r.None? && cursor.len <= stride && !(skipSelf && cursor.len == startBitSpan.len)
        invariant Remaining() == old(Remaining())
        decreases stride - cursor.len, startBitSpan.bits + Pow2(cursor.len - startBitSpan.len) - cursor.bits
      {
        RestHere(stride, pfxbitarr, startBitSpan.bits, Pow2(cursor.len - startBitSpan.len), cursor.len, cursor.bits);
        r := LookHere();
        var maxPosOffset := startBitSpan.bits + Pow2(cursor.len - startBitSpan.len) - 1;
        if maxPosOffset > cursor.bits {
          cursor := cursor.(bits := cursor.bits + 1);
        } else if cursor.len < stride {
          NextLen();
        } else {
          NextLen();
          RestOver(stride, pfxbitarr, startBitSpan.bits, Pow2(cursor.len - startBitSpan.len), cursor.len, cursor.bits);
          return;
        }
        if r.Some? { return; }
      }
    }
  }

  /** The prefix that a span of a node stands for. */
  ghost predicate IsSpanPrefix(bits: nat, base: PrefixId, span: BitSpan, p: PrefixId) {
    && base.net < Pow2(bits) && span.bits < Pow2(bits) && 0 < base.len + span.len <= bits && base.len <= bits
    && p == AddNibble(bits, Cleaned(bits, base.net, base.len), span.bits, span.len)
  }

  lemma SpanFits(bits: nat, base: PrefixId, span: BitSpan)
    requires base.net < Pow2(bits) && base.len + span.len <= bits && span.bits < Pow2(span.len)
    ensures span.bits < Pow2(bits)
    ensures Cleaned(bits, base.net, base.len).len == base.len
  {
    Pow2Mono(span.len, bits);
  }

  lemma SkipLen(start: BitSpan, cursor: BitSpan)
    requires start.len <= cursor.len
    ensures Pow2(cursor.len - start.len) == 1 <==> cursor.len == start.len
  {
    if cursor.len > start.len { Pow2Mono(1, cursor.len - start.len); }
  }

  lemma ZeroHasNone(stride: nat, arr: Bitmap, bits: nat, len: nat)
    requires IsStride(stride) && Fits(PfxWidth(stride), arr)
    requires IsWidth(PfxWidth(stride)) && arr == Zero(PfxWidth(stride))
    ensures !Has(stride, arr, bits, len)
  {
    ZeroIsEmpty(PfxWidth(stride));
  }

  lemma RestHere(stride: nat, arr: Bitmap, lo: nat, count: nat, len: nat, x: nat)
    requires IsStride(stride) && Fits(PfxWidth(stride), arr) && len <= stride && x < lo + count
    ensures Rest(stride, arr, lo, count, len, x)
      == (if Has(stride, arr, x, len) then [BitSpan(x, len)] else []) + Rest(stride, arr, lo, count, len, x + 1)
  {
  }

  lemma RestOver(stride: nat, arr: Bitmap, lo: nat, count: nat, len: nat, x: nat)
    requires IsStride(stride) && Fits(PfxWidth(stride), arr)
    ensures len > stride ==> Rest(stride, arr, lo, count, len, x) == []
    ensures len <= stride && x >= lo + count ==>
      Rest(stride, arr, lo, count, len, x) == Rest(stride, arr, 2 * lo, 2 * count, len + 1, 2 * lo)
  {
  }

  lemma {:induction false} NothingSet(stride: nat, arr: Bitmap, lo: nat, count: nat, len: nat, x: nat)
    requires IsStride(stride) && Fits(PfxWidth(stride), arr)
    requires IsWidth(PfxWidth(stride)) && arr == Zero(PfxWidth(stride))
    ensures Rest(stride, arr, lo, count, len, x) == []
    decreases if len <= stride then stride + 1 - len else 0, lo + count - x
  {
    hide Has, Fits, PfxWidth, Zero;
    if len <= stride {
      ZeroHasNone(stride, arr, x, len);
      if x >= lo + count {
        NothingSet(stride, arr, 2 * lo, 2 * count, len + 1, 2 * lo);
      } else {
        NothingSet(stride, arr, lo, count, len, x + 1);
      }
    }
  }

  /**
   * A fresh iterator has exactly the set spans below its start span to come, the start span itself
   * only if it is not skipped, and in strictly increasing order of length and bits.
   */
  lemma SpansBelow(stride: nat, arr: Bitmap, start: BitSpan, skipSelf: bool)
    requires IsStride(stride) && Fits(PfxWidth(stride), arr) && start.len <= stride && start.bits < Pow2(start.len)
    ensures var rest := Rest(stride, arr, start.bits, 1, start.len, if skipSelf then start.bits + 1 else start.bits);
      && (forall i, j :: 0 <= i < j < |rest| ==> Earlier(rest[i], rest[j]))
      && (forall span :: span in rest <==>
           && start.len <= span.len <= stride && span.bits < Pow2(span.len)
           && ToBits(start.bits, start.len) <= ToBits(span.bits, span.len)
           && (skipSelf ==> span != start)
           && Has(stride, arr, span.bits, span.len))
  {
    hide Rest, Has, Fits, PfxWidth, Pow2, ToBits;
    var x := if skipSelf then start.bits + 1 else start.bits;
    RestInOrder(stride, arr, start.bits, 1, start.len, x);
    forall span: BitSpan
      ensures span in Rest(stride, arr, start.bits, 1, start.len, x) <==>
           && start.len <= span.len <= stride && span.bits < Pow2(span.len)
           && ToBits(start.bits, start.len) <= ToBits(span.bits, span.len)
           && (skipSelf ==> span != start)
           && Has(stride, arr, span.bits, span.len)
    {
      RestMeets(stride, arr, start.bits, 1, start.len, x, span);
      if span.len >= start.len { RangeIsExtension(start.bits, start.len, span); }
    }
  }

  /** The bits of the prefix of a span are those of the node, followed by those of the span. */
  lemma SpanPrefixKey(bits: nat, base: PrefixId, span: BitSpan, p: PrefixId)
    requires IsSpanPrefix(bits, base, span, p) && span.bits < Pow2(span.len)
    ensures Canonical(bits, p) && p.len == base.len + span.len
    ensures Key(bits, p) == ToBits(base.net, bits)[..base.len] + ToBits(span.bits, span.len)
  {
    hide Pow2, ToBits, TruncateToLen;
    TruncateIsKeyPrefix(bits, base.net, base.len);
    AddNibbleBits(bits, Cleaned(bits, base.net, base.len), span.bits, span.len);
  }

  /** The start bits, doubled along with the length, and the cursor within the range they span. */
  ghost predicate InPlace(start: BitSpan, cursor: BitSpan) {
    && start.len <= cursor.len
    && start.bits <= cursor.bits < start.bits + Pow2(cursor.len - start.len) <= Pow2(cursor.len)
  }
}
