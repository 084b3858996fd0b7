/** The bitmaps of a tree bitmap node, for strides of 3 to 8 bits. */
module Stride {
  import opened Bits

  const WORD: nat := 128

  /** One machine word for strides 3 to 6, two or four 128-bit words (high word first) above. */
  datatype Bitmap =
    | Word(w: nat)
    | U256(w0: nat, w1: nat)
    | U512(w0: nat, w1: nat, w2: nat, w3: nat)

  predicate IsStride(s: nat) { 3 <= s <= 8 }

  /** The number of places in a prefix bitmap: 16, 32, 64, 128, 256, 512. */
  function PfxWidth(s: nat): nat {
    2 * Pow2(s)
  }

  /** The number of places in a pointer bitmap. */
  function PtrWidth(s: nat): nat {
    Pow2(s)
  }

  lemma Widths(s: nat)
    requires IsStride(s)
    ensures IsWidth(PfxWidth(s)) && IsWidth(PtrWidth(s))
    ensures s <= 6 ==> PfxWidth(s) <= 128
    ensures s <= 7 ==> PtrWidth(s) <= 128
    ensures s == 7 ==> PfxWidth(s) == 256 && PtrWidth(s) == 128
    ensures s == 8 ==> PfxWidth(s) == 512 && PtrWidth(s) == 256
  {
    assert Pow2(3) == 8 && Pow2(4) == 16 && Pow2(5) == 32 && Pow2(6) == 64 && Pow2(7) == 128 && Pow2(8) == 256;
  }

  predicate IsWidth(width: nat) { width <= 128 || width == 256 || width == 512 }

  /** A bitmap of the given width, in the representation the width calls for. */
  predicate Fits(width: nat, b: Bitmap) {
    if width <= 128 then b.Word? && b.w < Pow2(width)
    else if width == 256 then b.U256? && b.w0 < Pow2(WORD) && b.w1 < Pow2(WORD)
    else width == 512 && b.U512? && b.w0 < Pow2(WORD) && b.w1 < Pow2(WORD) && b.w2 < Pow2(WORD) && b.w3 < Pow2(WORD)
  }

  /** All the bits of a bitmap, in layout order. */
  function AllBits(width: nat, b: Bitmap): (s: seq<bool>)
    requires Fits(width, b)
    ensures |s| == width
  {
    if width <= 128 then ToBits(b.w, width)
    else if width == 256 then ToBits(b.w0, WORD) + ToBits(b.w1, WORD)
    else ToBits(b.w0, WORD) + ToBits(b.w1, WORD) + ToBits(b.w2, WORD) + ToBits(b.w3, WORD)
  }

  /** The place of a nibble in the layout: after all shorter ones, in numeric order. */
  function Pos(nibble: nat, len: nat): nat {
    Pow2(len) - 1 + nibble
  }

  lemma PosBounds(s: nat, nibble: nat, len: nat)
    requires IsStride(s) && len <= s && nibble < Pow2(len)
    ensures Pos(nibble, len) < PfxWidth(s) - 1
    ensures len < s ==> Pos(nibble, len) < PtrWidth(s) - 1
    ensures len == s ==> Pos(nibble, len) == PtrWidth(s) - 1 + nibble
  {
    Pow2Mono(len, s);
  }

  lemma PosInjective(nibble: nat, len: nat, nibble': nat, len': nat)
    requires nibble < Pow2(len) && nibble' < Pow2(len')
    requires Pos(nibble, len) == Pos(nibble', len')
    ensures nibble == nibble' && len == len'
  {
    if len < len' { Pow2Mono(len, len'); }
    if len' < len { Pow2Mono(len', len); }
  }

  // ----- The operations of the bitmaps ---------------------------------------

  function Zero(width: nat): (b: Bitmap)
    requires IsWidth(width)
    ensures Fits(width, b)
  {
    if width <= 128 then Word(0) else if width == 256 then U256(0, 0) else U512(0, 0, 0, 0)
  }

  function BitOr(a: Bitmap, b: Bitmap): Bitmap {
    match (a, b)
    case (U256(a0, a1), U256(b0, b1)) => U256(Or(a0, b0), Or(a1, b1))
    case (U512(a0, a1, a2, a3), U512(b0, b1, b2, b3)) => U512(Or(a0, b0), Or(a1, b1), Or(a2, b2), Or(a3, b3))
    case (Word(a), Word(b)) => Word(Or(a, b))
    case _ => a
  }

  function BitAnd(a: Bitmap, b: Bitmap): Bitmap {
    match (a, b)
    case (U256(a0, a1), U256(b0, b1)) => U256(And(a0, b0), And(a1, b1))
    case (U512(a0, a1, a2, a3), U512(b0, b1, b2, b3)) => U512(And(a0, b0), And(a1, b1), And(a2, b2), And(a3, b3))
    case (Word(a), Word(b)) => Word(And(a, b))
    case _ => a
  }

  /** The library's own ordering of bitmaps, which it uses only against zero. */
  predicate Greater(a: Bitmap, b: Bitmap) {
    match (a, b)
    case (U256(a0, a1), U256(b0, b1)) => if a0 > b0 then true else a1 > b1
    case (U512(a0, a1, a2, a3), U512(b0, b1, b2, b3)) =>
      if a0 > b0 then true else if a1 > b1 then true else if a2 > b2 then true else a3 > b3
    case (Word(a), Word(b)) => a > b
    case _ => false
  }

  /** 1 << n, in a bitmap of the given width. */
  function BitAt(width: nat, n: nat): Bitmap
    requires IsWidth(width) && n < width
  {
    if width <= 128 then Word(Pow2(n))
    else if width == 256 then
      if n < 128 then U256(0, Pow2(n)) else U256(Pow2(n - 128), 0)
    else
      if n < 128 then U512(0, 0, 0, Pow2(n))
      else if n < 256 then U512(0, 0, Pow2(n - 128), 0)
      else if n < 384 then U512(0, Pow2(n - 256), 0, 0)
      else U512(Pow2(n - 384), 0, 0, 0)
  }

  /** The population count of a bitmap shifted right by n. */
  function OnesAfterShift(width: nat, b: Bitmap, n: nat): nat
    requires Fits(width, b) && n < width
  {
    if width <= 128 then CountOnes(Shr(b.w, n))
    else if width == 256 then
      if n < 128 then CountOnes(b.w0) + CountOnes(Shr(b.w1, n)) else CountOnes(Shr(b.w0, n - 128))
    else
      if n < 128 then CountOnes(b.w0) + CountOnes(b.w1) + CountOnes(b.w2) + CountOnes(Shr(b.w3, n))
      else if n < 256 then CountOnes(b.w0) + CountOnes(b.w1) + CountOnes(Shr(b.w2, n - 128))
      else if n < 384 then CountOnes(b.w0) + CountOnes(Shr(b.w1, n - 256))
      else CountOnes(Shr(b.w0, n - 384))
  }

  function GetBitPos(s: nat, nibble: nat, len: nat): Bitmap
    requires IsStride(s) && len <= s && nibble < Pow2(len)
  {
    PosBounds(s, nibble, len);
    Widths(s);
    BitAt(PfxWidth(s), PfxWidth(s) - (Pow2(len) - 1) - nibble - 1)
  }

  function PfxOnes(s: nat, b: Bitmap, nibble: nat, len: nat): nat
    requires IsStride(s) && len <= s && nibble < Pow2(len) && Fits(PfxWidth(s), b)
  {
    PosBounds(s, nibble, len);
    OnesAfterShift(PfxWidth(s), b, PfxWidth(s) - (Pow2(len) - 1) - nibble - 1)
  }

  function GetPfxIndex(s: nat, b: Bitmap, nibble: nat, len: nat): nat
    requires IsStride(s) && len <= s && nibble < Pow2(len) && Fits(PfxWidth(s), b)
    requires PfxOnes(s, b, nibble, len) >= 1
  {
    PfxOnes(s, b, nibble, len) - 1
  }

  function PtrOnes(s: nat, b: Bitmap, nibble: nat): nat
    requires IsStride(s) && nibble < Pow2(s) && Fits(PtrWidth(s), b)
  {
    OnesAfterShift(PtrWidth(s), b, PtrWidth(s) - nibble - 1)
  }

  function GetPtrIndex(s: nat, b: Bitmap, nibble: nat): nat
    requires IsStride(s) && nibble < Pow2(s) && Fits(PtrWidth(s), b)
    requires PtrOnes(s, b, nibble) >= 1
  {
    PtrOnes(s, b, nibble) - 1
  }

  /** Widens a pointer bitmap to the width of a prefix bitmap. */
  function IntoStrideSize(s: nat, b: Bitmap): Bitmap
    requires IsStride(s) && Fits(PtrWidth(s), b)
  {
    Widths(s);
    if s <= 6 then
      Pow2Mono(PtrWidth(s), PfxWidth(s));
      Word(Shl(b.w, 1, PfxWidth(s)))
    else if s == 7 then U256(Shr(b.w, 127), Shl(b.w, 1, 128))
    else U512(0, Shr(b.w0, 127), Or(Shl(b.w0, 1, 128), Shr(b.w1, 127)), Shl(b.w1, 1, 128))
  }

  /** A word cast to a narrower type keeps its low bits. */
  function Truncate(w: nat, width: nat): (r: nat)
    ensures r < Pow2(width)
  {
    Val(ToBits(w, width))
  }

  /** Narrows a prefix-sized bitmap to its pointer half. */
  function IntoPtrSize(s: nat, b: Bitmap): Bitmap
    requires IsStride(s) && Fits(PfxWidth(s), b)
  {
    Widths(s);
    if s <= 6 then Word(Truncate(Shr(b.w, 1), PtrWidth(s)))
    else if s == 7 then Word(Or(Shl(b.w0, 127, 128), Shr(b.w1, 1)))
    else U256(Or(Shl(b.w1, 127, 128), Shr(b.w2, 1)), Or(Shl(b.w2, 127, 128), Shr(b.w3, 1)))
  }

  function LeadingZeroCount(width: nat, b: Bitmap): nat
    requires Fits(width, b)
  {
    if width <= 128 then LeadingZeros(b.w, width)
    else if width == 256 then
      var lz := LeadingZeros(b.w0, 128);
      if lz == 128 then lz + LeadingZeros(b.w1, 128) else lz
    else
      var lz := LeadingZeros(b.w0, 128);
      if lz == 128 then
        var lz := lz + LeadingZeros(b.w1, 128);
        if lz == 256 then
          var lz := lz + LeadingZeros(b.w2, 128);
          if lz == 384 then lz + LeadingZeros(b.w3, 128) else lz
        else lz
      else lz
  }

  // ----- What the operations do to the bits -----------------------------------

  function OneHot(width: nat, p: nat): (s: seq<bool>)
    ensures |s| == width
    ensures forall i :: 0 <= i < width ==> (s[i] <==> i == p)
  {
    seq(width, i => i == p)
  }

  lemma OneHotWord(n: nat, width: nat)
    requires n < width
    ensures Pow2(n) < Pow2(width)
    ensures ToBits(Pow2(n), width) == OneHot(width, width - 1 - n)
  {
    OneHotBits(n, width);
  }

  lemma OneHotHalves(a: nat, b: nat, p: nat)
    requires p < a + b
    ensures OneHot(a + b, p) == if p < a then OneHot(a, p) + Zeros(b) else Zeros(a) + OneHot(b, p - a)
  {
  }

  lemma OneHotQuarters(p: nat)
    requires p < 512
    ensures OneHot(512, p) ==
      if p < 128 then OneHot(WORD, p) + Zeros(WORD) + Zeros(WORD) + Zeros(WORD)
      else if p < 256 then Zeros(WORD) + OneHot(WORD, p - 128) + Zeros(WORD) + Zeros(WORD)
      else if p < 384 then Zeros(WORD) + Zeros(WORD) + OneHot(WORD, p - 256) + Zeros(WORD)
      else Zeros(WORD) + Zeros(WORD) + Zeros(WORD) + OneHot(WORD, p - 384)
  {
  }

  lemma BitAtIsOneHot(width: nat, p: nat)
    requires IsWidth(width) && p < width
    ensures Fits(width, BitAt(width, width - 1 - p))
    ensures AllBits(width, BitAt(width, width - 1 - p)) == OneHot(width, p)
  {
    hide Pow2;
    ZeroHasNoBits(WORD);
    if width <= 128 {
      OneHotWord(width - 1 - p, width);
    } else if width == 256 {
      OneHotHalves(WORD, WORD, p);
      OneHotWord(if p < 128 then 127 - p else 255 - p, WORD);
    } else {
      OneHotQuarters(p);
      OneHotWord(if p < 128 then 127 - p else if p < 256 then 255 - p else if p < 384 then 383 - p else 511 - p, WORD);
    }
  }

  /** The bit of a nibble is the only one set, at the nibble's place in the layout. */
  lemma BitPosIsOneHot(s: nat, nibble: nat, len: nat)
    requires IsStride(s) && len <= s && nibble < Pow2(len)
    ensures Fits(PfxWidth(s), GetBitPos(s, nibble, len))
    ensures AllBits(PfxWidth(s), GetBitPos(s, nibble, len)) == OneHot(PfxWidth(s), Pos(nibble, len))
  {
    hide Pow2, BitAt, AllBits, Fits, OneHot;
    PosBounds(s, nibble, len);
    Widths(s);
    BitAtIsOneHot(PfxWidth(s), Pos(nibble, len));
  }

  ghost predicate Union(r: seq<bool>, a: seq<bool>, b: seq<bool>) {
    |r| == |a| == |b| && forall i :: 0 <= i < |r| ==> r[i] == (a[i] || b[i])
  }

  ghost predicate Intersection(r: seq<bool>, a: seq<bool>, b: seq<bool>) {
    |r| == |a| == |b| && forall i :: 0 <= i < |r| ==> r[i] == (a[i] && b[i])
  }

  lemma UnionConcat(r: seq<bool>, a: seq<bool>, b: seq<bool>, r': seq<bool>, a': seq<bool>, b': seq<bool>)
    requires Union(r, a, b) && Union(r', a', b')
    ensures Union(r + r', a + a', b + b')
  {
  }

  lemma IntersectionConcat(r: seq<bool>, a: seq<bool>, b: seq<bool>, r': seq<bool>, a': seq<bool>, b': seq<bool>)
    requires Intersection(r, a, b) && Intersection(r', a', b')
    ensures Intersection(r + r', a + a', b + b')
  {
  }

  lemma OrHalves(a0: nat, a1: nat, b0: nat, b1: nat)
    requires a0 < Pow2(WORD) && a1 < Pow2(WORD) && b0 < Pow2(WORD) && b1 < Pow2(WORD)
    ensures Or(a0, b0) < Pow2(WORD) && Or(a1, b1) < Pow2(WORD)
    ensures Union(ToBits(Or(a0, b0), WORD) + ToBits(Or(a1, b1), WORD),
                  ToBits(a0, WORD) + ToBits(a1, WORD), ToBits(b0, WORD) + ToBits(b1, WORD))
  {
    OrBits(a0, b0, WORD);
    OrBits(a1, b1, WORD);
    UnionConcat(ToBits(Or(a0, b0), WORD), ToBits(a0, WORD), ToBits(b0, WORD),
                ToBits(Or(a1, b1), WORD), ToBits(a1, WORD), ToBits(b1, WORD));
  }

  lemma AndHalves(a0: nat, a1: nat, b0: nat, b1: nat)
    requires a0 < Pow2(WORD) && a1 < Pow2(WORD) && b0 < Pow2(WORD) && b1 < Pow2(WORD)
    ensures And(a0, b0) < Pow2(WORD) && And(a1, b1) < Pow2(WORD)
    ensures Intersection(ToBits(And(a0, b0), WORD) + ToBits(And(a1, b1), WORD),
                         ToBits(a0, WORD) + ToBits(a1, WORD), ToBits(b0, WORD) + ToBits(b1, WORD))
  {
    AndBits(a0, b0, WORD);
    AndBits(a1, b1, WORD);
    IntersectionConcat(ToBits(And(a0, b0), WORD), ToBits(a0, WORD), ToBits(b0, WORD),
                       ToBits(And(a1, b1), WORD), ToBits(a1, WORD), ToBits(b1, WORD));
  }

  function Halves(w0: nat, w1: nat): (s: seq<bool>)
    ensures |s| == 256
  {
    ToBits(w0, WORD) + ToBits(w1, WORD)
  }

  lemma QuartersAreHalves(b: Bitmap)
    requires Fits(512, b)
    ensures AllBits(512, b) == Halves(b.w0, b.w1) + Halves(b.w2, b.w3)
  {
  }

  lemma OrQuarters(a: Bitmap, b: Bitmap)
    requires Fits(512, a) && Fits(512, b)
    ensures Fits(512, BitOr(a, b))
    ensures Union(AllBits(512, BitOr(a, b)), AllBits(512, a), AllBits(512, b))
  {
    hide Pow2;
    OrHalves(a.w0, a.w1, b.w0, b.w1);
    OrHalves(a.w2, a.w3, b.w2, b.w3);
    var r := BitOr(a, b);
    QuartersAreHalves(a);
    QuartersAreHalves(b);
    QuartersAreHalves(r);
    UnionConcat(Halves(r.w0, r.w1), Halves(a.w0, a.w1), Halves(b.w0, b.w1),
                Halves(r.w2, r.w3), Halves(a.w2, a.w3), Halves(b.w2, b.w3));
  }

  lemma AndQuarters(a: Bitmap, b: Bitmap)
    requires Fits(512, a) && Fits(512, b)
    ensures Fits(512, BitAnd(a, b))
    ensures Intersection(AllBits(512, BitAnd(a, b)), AllBits(512, a), AllBits(512, b))
  {
    hide Pow2;
    AndHalves(a.w0, a.w1, b.w0, b.w1);
    AndHalves(a.w2, a.w3, b.w2, b.w3);
    var r := BitAnd(a, b);
    QuartersAreHalves(a);
    QuartersAreHalves(b);
    QuartersAreHalves(r);
    IntersectionConcat(Halves(r.w0, r.w1), Halves(a.w0, a.w1), Halves(b.w0, b.w1),
                       Halves(r.w2, r.w3), Halves(a.w2, a.w3), Halves(b.w2, b.w3));
  }

  /** Bitmap or is the union of the set places, whatever the number of words. */
  lemma OrIsUnion(width: nat, a: Bitmap, b: Bitmap)
    requires Fits(width, a) && Fits(width, b)
    ensures Fits(width, BitOr(a, b))
    ensures Union(AllBits(width, BitOr(a, b)), AllBits(width, a), AllBits(width, b))
  {
    hide Pow2;
    if width <= 128 {
      OrBits(a.w, b.w, width);
    } else if width == 256 {
      OrHalves(a.w0, a.w1, b.w0, b.w1);
    } else {
      OrQuarters(a, b);
    }
  }

  lemma AndIsIntersection(width: nat, a: Bitmap, b: Bitmap)
    requires Fits(width, a) && Fits(width, b)
    ensures Fits(width, BitAnd(a, b))
    ensures Intersection(AllBits(width, BitAnd(a, b)), AllBits(width, a), AllBits(width, b))
  {
    hide Pow2;
    if width <= 128 {
      AndBits(a.w, b.w, width);
    } else if width == 256 {
      AndHalves(a.w0, a.w1, b.w0, b.w1);
    } else {
      AndQuarters(a, b);
    }
  }

  /** Bitmaps with the same bits are the same. */
  lemma BitsDetermine(width: nat, a: Bitmap, b: Bitmap)
    requires Fits(width, a) && Fits(width, b) && AllBits(width, a) == AllBits(width, b)
    ensures a == b
  {
    hide Pow2;
    var s, t := AllBits(width, a), AllBits(width, b);
    if width <= 128 {
      ValToBits(a.w, width);
      ValToBits(b.w, width);
    } else {
      assert ToBits(a.w0, WORD) == s[..128] && ToBits(b.w0, WORD) == t[..128];
      assert ToBits(a.w1, WORD) == s[128..256] && ToBits(b.w1, WORD) == t[128..256];
      ValToBits(a.w0, WORD);
      ValToBits(b.w0, WORD);
      ValToBits(a.w1, WORD);
      ValToBits(b.w1, WORD);
      if width == 512 {
        assert ToBits(a.w2, WORD) == s[256..384] && ToBits(b.w2, WORD) == t[256..384];
        assert ToBits(a.w3, WORD) == s[384..] && ToBits(b.w3, WORD) == t[384..];
        ValToBits(a.w2, WORD);
        ValToBits(b.w2, WORD);
        ValToBits(a.w3, WORD);
        ValToBits(b.w3, WORD);
      }
    }
  }

  lemma ZeroIsEmpty(width: nat)
    requires IsWidth(width)
    ensures AllBits(width, Zero(width)) == Zeros(width)
  {
    ZeroHasNoBits(width);
    ZeroHasNoBits(WORD);
  }

  /** Against zero, the library's ordering and its equality say the same: some bit is set. */
  lemma GreaterThanZero(width: nat, b: Bitmap)
    requires Fits(width, b)
    ensures Greater(b, Zero(width)) <==> b != Zero(width)
    ensures b == Zero(width) <==> forall i :: 0 <= i < width ==> !AllBits(width, b)[i]
  {
    ZeroIsEmpty(width);
    if forall i :: 0 <= i < width ==> !AllBits(width, b)[i] {
      assert AllBits(width, b) == Zeros(width);
      BitsDetermine(width, b, Zero(width));
    }
  }

  /** Masking with the bit of a nibble tests that one place of the layout. */
  lemma TestBit(s: nat, b: Bitmap, nibble: nat, len: nat)
    requires IsStride(s) && len <= s && nibble < Pow2(len) && Fits(PfxWidth(s), b)
    ensures Pos(nibble, len) < PfxWidth(s)
    ensures Greater(BitAnd(b, GetBitPos(s, nibble, len)), Zero(PfxWidth(s))) <==>
      AllBits(PfxWidth(s), b)[Pos(nibble, len)]
    ensures BitAnd(b, GetBitPos(s, nibble, len)) == Zero(PfxWidth(s)) <==> !AllBits(PfxWidth(s), b)[Pos(nibble, len)]
  {
    hide Pow2;
    var width, p, m := PfxWidth(s), Pos(nibble, len), GetBitPos(s, nibble, len);
    PosBounds(s, nibble, len);
    BitPosIsOneHot(s, nibble, len);
    AndIsIntersection(width, b, m);
    GreaterThanZero(width, BitAnd(b, m));
    assert AllBits(width, BitAnd(b, m))[p] == AllBits(width, b)[p];
  }

  /** Or-ing in the bit of a nibble sets that one place of the layout. */
  lemma SetBit(s: nat, b: Bitmap, nibble: nat, len: nat)
    requires IsStride(s) && len <= s && nibble < Pow2(len) && Fits(PfxWidth(s), b)
    ensures Pos(nibble, len) < PfxWidth(s)
    ensures Fits(PfxWidth(s), BitOr(GetBitPos(s, nibble, len), b))
    ensures AllBits(PfxWidth(s), BitOr(GetBitPos(s, nibble, len), b)) ==
      AllBits(PfxWidth(s), b)[Pos(nibble, len) := true]
  {
    hide Pow2;
    PosBounds(s, nibble, len);
    BitPosIsOneHot(s, nibble, len);
    OrIsUnion(PfxWidth(s), GetBitPos(s, nibble, len), b);
  }

  // ----- Rank --------------------------------------------------------------------

  lemma CountHalves(a: seq<bool>, b: seq<bool>, i: nat)
    requires i <= |a| + |b|
    ensures Count((a + b)[..i]) == if i <= |a| then Count(a[..i]) else Count(a) + Count(b[..i - |a|])
  {
    hide Count;
    var s := (a + b)[..i];
    if i <= |a| {
      assert s == a[..i];
    } else {
      var t := b[..i - |a|];
      assert s == a + t;
      CountConcat(a, t);
    }
  }

  lemma CountQuarters(a: seq<bool>, b: seq<bool>, c: seq<bool>, d: seq<bool>, i: nat)
    requires |a| == |b| == |c| == |d| == 128 && i <= 512
    ensures Count((a + b + c + d)[..i]) ==
      if i <= 128 then Count(a[..i])
      else if i <= 256 then Count(a) + Count(b[..i - 128])
      else if i <= 384 then Count(a) + Count(b) + Count(c[..i - 256])
      else Count(a) + Count(b) + Count(c) + Count(d[..i - 384])
  {
    CountHalves(a + b + c, d, i);
    if i <= 384 {
      CountHalves(a + b, c, i);
      if i <= 256 { CountHalves(a, b, i); } else { CountConcat(a, b); }
    } else {
      CountConcat(a + b, c);
      CountConcat(a, b);
    }
  }

  lemma CountWord(w: nat)
    requires w < Pow2(WORD)
    ensures CountOnes(w) == Count(ToBits(w, WORD))
  {
    CountOnesBits(w, WORD);
  }

  lemma Ones512(b: Bitmap, p: nat)
    requires p < 512 && Fits(512, b)
    ensures OnesAfterShift(512, b, 511 - p) == Count(AllBits(512, b)[..p + 1])
  {
    hide Pow2;
    CountQuarters(ToBits(b.w0, WORD), ToBits(b.w1, WORD), ToBits(b.w2, WORD), ToBits(b.w3, WORD), p + 1);
    CountWord(b.w0);
    CountWord(b.w1);
    CountWord(b.w2);
    var n := 511 - p;
    if n < 128 { CountShifted(b.w3, n, WORD); }
    else if n < 256 { CountShifted(b.w2, n - 128, WORD); }
    else if n < 384 { CountShifted(b.w1, n - 256, WORD); }
    else { CountShifted(b.w0, n - 384, WORD); }
  }

  lemma Ones256(b: Bitmap, p: nat)
    requires p < 256 && Fits(256, b)
    ensures OnesAfterShift(256, b, 255 - p) == Count(AllBits(256, b)[..p + 1])
  {
    hide Pow2;
    CountHalves(ToBits(b.w0, WORD), ToBits(b.w1, WORD), p + 1);
    CountWord(b.w0);
    if p >= 128 { CountShifted(b.w1, 255 - p, WORD); }
    else { CountShifted(b.w0, 127 - p, WORD); }
  }

  /** The shifted population count counts the set places up to and including p. */
  lemma OnesIsCount(width: nat, b: Bitmap, p: nat)
    requires p < width && Fits(width, b)
    ensures OnesAfterShift(width, b, width - 1 - p) == Count(AllBits(width, b)[..p + 1])
  {
    if width <= 128 {
      CountShifted(b.w, width - 1 - p, width);
    } else if width == 256 {
      Ones256(b, p);
    } else {
      Ones512(b, p);
    }
  }

  lemma CountUpTo(s: seq<bool>, p: nat)
    requires p < |s| && s[p]
    ensures Count(s[..p + 1]) == Count(s[..p]) + 1
  {
    assert s[..p + 1][..p] == s[..p];
  }

  lemma RankOfSetPlace(width: nat, b: Bitmap, p: nat)
    requires p < width && Fits(width, b) && AllBits(width, b)[p]
    ensures OnesAfterShift(width, b, width - 1 - p) == Count(AllBits(width, b)[..p]) + 1
  {
    OnesIsCount(width, b, p);
    CountUpTo(AllBits(width, b), p);
  }

  /** For a set bit, the index into the dense vector is the number of set bits before it. */
  lemma PfxIndexIsRank(s: nat, b: Bitmap, nibble: nat, len: nat)
    requires IsStride(s) && len <= s && nibble < Pow2(len) && Fits(PfxWidth(s), b)
    requires Pos(nibble, len) < PfxWidth(s) && AllBits(PfxWidth(s), b)[Pos(nibble, len)]
    ensures PfxOnes(s, b, nibble, len) >= 1
    ensures GetPfxIndex(s, b, nibble, len) == Count(AllBits(PfxWidth(s), b)[..Pos(nibble, len)])
  {
    hide Count, OnesAfterShift, AllBits, Pow2;
    RankOfSetPlace(PfxWidth(s), b, Pos(nibble, len));
  }

  lemma PtrIndexIsRank(s: nat, b: Bitmap, nibble: nat)
    requires IsStride(s) && nibble < Pow2(s) && Fits(PtrWidth(s), b)
    requires AllBits(PtrWidth(s), b)[nibble]
    ensures PtrOnes(s, b, nibble) >= 1
    ensures GetPtrIndex(s, b, nibble) == Count(AllBits(PtrWidth(s), b)[..nibble])
  {
    hide Count, OnesAfterShift, AllBits, Pow2;
    RankOfSetPlace(PtrWidth(s), b, nibble);
  }

  // ----- Pointer bitmaps and their widened form -------------------------------------

  lemma TopBit(w: nat)
    requires w < Pow2(WORD)
    ensures Shr(w, 127) < Pow2(WORD)
    ensures ToBits(Shr(w, 127), WORD) == Zeros(127) + ToBits(w, WORD)[..1]
  {
    ShrBits(w, 127, WORD);
    ToBitsPad(Shr(w, 127), 1, WORD);
  }

  lemma ShiftOne(w: nat, width: nat)
    requires w < Pow2(width) && width > 0
    ensures ToBits(Shl(w, 1, width), width) == ToBits(w, width)[1..] + [false]
  {
    ShlBits(w, 1, width);
    assert Zeros(1) == [false];
  }

  /** The low bit of one word and all but the low bit of the next. */
  lemma Straddle(a: nat, b: nat)
    requires a < Pow2(WORD) && b < Pow2(WORD)
    ensures Shr(b, 1) < Pow2(WORD) && Or(Shl(a, 127, WORD), Shr(b, 1)) < Pow2(WORD)
    ensures ToBits(Or(Shl(a, 127, WORD), Shr(b, 1)), WORD) == ToBits(a, WORD)[127..] + ToBits(b, WORD)[..127]
  {
    ShlBits(a, 127, WORD);
    ShrBits(b, 1, WORD);
    ToBitsPad(Shr(b, 1), 127, WORD);
    OrBits(Shl(a, 127, WORD), Shr(b, 1), WORD);
    OrSeqs(ToBits(a, WORD)[127..], ToBits(b, WORD)[..127], ToBits(Or(Shl(a, 127, WORD), Shr(b, 1)), WORD));
  }

  lemma OrSeqs(x: seq<bool>, y: seq<bool>, r: seq<bool>)
    requires |r| == |x| + |y|
    requires forall i :: 0 <= i < |r| ==> r[i] == ((x + Zeros(|y|))[i] || (Zeros(|x|) + y)[i])
    ensures r == x + y
  {
  }

  /** All but the high bit of one word and the high bit of the next. */
  lemma Carry(a: nat, b: nat)
    requires a < Pow2(WORD) && b < Pow2(WORD)
    ensures Shr(b, 127) < Pow2(WORD) && Or(Shl(a, 1, WORD), Shr(b, 127)) < Pow2(WORD)
    ensures ToBits(Or(Shl(a, 1, WORD), Shr(b, 127)), WORD) == ToBits(a, WORD)[1..] + ToBits(b, WORD)[..1]
  {
    ShiftOne(a, WORD);
    TopBit(b);
    OrBits(Shl(a, 1, WORD), Shr(b, 127), WORD);
    assert Zeros(1) == [false];
    OrSeqs(ToBits(a, WORD)[1..], ToBits(b, WORD)[..1], ToBits(Or(Shl(a, 1, WORD), Shr(b, 127)), WORD));
  }

  /** The places of a pointer bitmap in the prefix layout: one unused place follows them. */
  function Widened(s: seq<bool>): seq<bool>
    requires |s| > 0
  {
    Zeros(|s| - 1) + s + [false]
  }

  lemma IntoStrideWord(w: nat, width: nat)
    requires w < Pow2(width) && width > 0
    ensures w < Pow2(2 * width)
    ensures ToBits(Shl(w, 1, 2 * width), 2 * width) == Widened(ToBits(w, width))
  {
    ToBitsPad(w, width, 2 * width);
    ShiftOne(w, 2 * width);
    assert (Zeros(width) + ToBits(w, width))[1..] == Zeros(width - 1) + ToBits(w, width);
  }

  lemma IntoStride7(w: nat)
    requires w < Pow2(WORD)
    ensures var r := U256(Shr(w, 127), Shl(w, 1, WORD));
      Fits(256, r) && AllBits(256, r) == Widened(ToBits(w, WORD))
  {
    TopBit(w);
    ShiftOne(w, WORD);
    Regroup7(ToBits(w, WORD));
  }

  lemma Regroup7(b: seq<bool>)
    requires |b| == 128
    ensures (Zeros(127) + b[..1]) + (b[1..] + [false]) == Widened(b)
  {
    assert b[..1] + b[1..] == b;
  }

  lemma IntoStride8(hi: nat, lo: nat)
    requires hi < Pow2(WORD) && lo < Pow2(WORD)
    ensures var r := U512(0, Shr(hi, 127), Or(Shl(hi, 1, WORD), Shr(lo, 127)), Shl(lo, 1, WORD));
      Fits(512, r) && AllBits(512, r) == Widened(ToBits(hi, WORD) + ToBits(lo, WORD))
  {
    ZeroHasNoBits(WORD);
    TopBit(hi);
    Carry(hi, lo);
    ShiftOne(lo, WORD);
    Regroup8(ToBits(hi, WORD), ToBits(lo, WORD));
  }

  lemma Regroup8(h: seq<bool>, l: seq<bool>)
    requires |h| == |l| == 128
    ensures Zeros(128) + (Zeros(127) + h[..1]) + (h[1..] + l[..1]) + (l[1..] + [false]) == Widened(h + l)
  {
    assert Zeros(128) + Zeros(127) == Zeros(255);
    assert h[..1] + h[1..] == h && l[..1] + l[1..] == l;
  }

  /** Widened pointer bits land on the places of full-length nibbles and no others. */
  lemma IntoStrideIsWidened(s: nat, b: Bitmap)
    requires IsStride(s) && Fits(PtrWidth(s), b)
    ensures Fits(PfxWidth(s), IntoStrideSize(s, b))
    ensures AllBits(PfxWidth(s), IntoStrideSize(s, b)) == Widened(AllBits(PtrWidth(s), b))
  {
    hide Pow2;
    Widths(s);
    if s <= 6 {
      IntoStrideWord(b.w, PtrWidth(s));
    } else if s == 7 {
      IntoStride7(b.w);
    } else {
      IntoStride8(b.w0, b.w1);
    }
  }

  lemma IntoPtrWord(w: nat, width: nat)
    requires w < Pow2(2 * width) && width > 0
    ensures ToBits(Truncate(Shr(w, 1), width), width) == ToBits(w, 2 * width)[width - 1..2 * width - 1]
  {
    hide Pow2, Shr, ToBits, Val;
    ShrBits(w, 1, 2 * width);
    LowBits(Shr(w, 1), width, 2 * width - 1);
    ToBitsVal(ToBits(Shr(w, 1), width));
  }

  lemma {:induction false} LowBits(w: nat, n: nat, width: nat)
    requires n <= width
    ensures ToBits(w, n) == ToBits(w, width)[width - n..]
  {
    if n > 0 {
      LowBits(w / 2, n - 1, width - 1);
    }
  }

  /** Narrowing keeps the places of full-length nibbles. */
  lemma IntoPtrIsMiddle(s: nat, b: Bitmap)
    requires IsStride(s) && Fits(PfxWidth(s), b)
    ensures Fits(PtrWidth(s), IntoPtrSize(s, b))
    ensures AllBits(PtrWidth(s), IntoPtrSize(s, b))
         == AllBits(PfxWidth(s), b)[PtrWidth(s) - 1..2 * PtrWidth(s) - 1]
  {
    hide Pow2, Shr, Truncate;
    Widths(s);
    if s <= 6 {
      IntoPtrWord(b.w, PtrWidth(s));
    } else if s == 7 {
      IntoPtr7(b);
    } else {
      IntoPtr8(b);
    }
  }

  lemma IntoPtr7(b: Bitmap)
    requires Fits(256, b)
    ensures Fits(128, IntoPtrSize(7, b))
    ensures AllBits(128, IntoPtrSize(7, b)) == AllBits(256, b)[127..255]
  {
    hide Pow2;
    Straddle(b.w0, b.w1);
    MiddleOfHalves(ToBits(b.w0, WORD), ToBits(b.w1, WORD));
  }

  lemma MiddleOfHalves(a: seq<bool>, b: seq<bool>)
    requires |a| == |b| == 128
    ensures (a + b)[127..255] == a[127..] + b[..127]
  {
  }

  lemma IntoPtr8(b: Bitmap)
    requires Fits(512, b)
    ensures Fits(256, IntoPtrSize(8, b))
    ensures AllBits(256, IntoPtrSize(8, b)) == AllBits(512, b)[255..511]
  {
    hide Pow2;
    Straddle(b.w1, b.w2);
    Straddle(b.w2, b.w3);
    MiddleOfQuarters(ToBits(b.w0, WORD), ToBits(b.w1, WORD), ToBits(b.w2, WORD), ToBits(b.w3, WORD));
  }

  lemma MiddleOfQuarters(a: seq<bool>, b: seq<bool>, c: seq<bool>, d: seq<bool>)
    requires |a| == |b| == |c| == |d| == 128
    ensures (a + b + c + d)[255..511] == (b[127..] + c[..127]) + (c[127..] + d[..127])
  {
  }

  /** Widening and narrowing again changes nothing. */
  lemma PtrRoundTrip(s: nat, b: Bitmap)
    requires IsStride(s) && Fits(PtrWidth(s), b)
    ensures Fits(PfxWidth(s), IntoStrideSize(s, b))
    ensures IntoPtrSize(s, IntoStrideSize(s, b)) == b
  {
    var t := AllBits(PtrWidth(s), b);
    IntoStrideIsWidened(s, b);
    IntoPtrIsMiddle(s, IntoStrideSize(s, b));
    assert Widened(t)[|t| - 1..2 * |t| - 1] == t;
    BitsDetermine(PtrWidth(s), IntoPtrSize(s, IntoStrideSize(s, b)), b);
  }

  /** Testing a nibble in the widened pointer bitmap: only full-length nibbles can be set. */
  lemma TestPtrBit(s: nat, b: Bitmap, nibble: nat, len: nat)
    requires IsStride(s) && len <= s && nibble < Pow2(len) && Fits(PtrWidth(s), b)
    ensures Fits(PfxWidth(s), IntoStrideSize(s, b))
    ensures Greater(BitAnd(IntoStrideSize(s, b), GetBitPos(s, nibble, len)), Zero(PfxWidth(s)))
      <==> len == s && AllBits(PtrWidth(s), b)[nibble]
    ensures BitAnd(IntoStrideSize(s, b), GetBitPos(s, nibble, len)) == Zero(PfxWidth(s))
      <==> !(len == s && AllBits(PtrWidth(s), b)[nibble])
  {
    hide Pow2;
    PosBounds(s, nibble, len);
    IntoStrideIsWidened(s, b);
    TestBit(s, IntoStrideSize(s, b), nibble, len);
    var t := AllBits(PtrWidth(s), b);
    assert Widened(t)[Pos(nibble, len)] == (len == s && t[nibble]);
  }

  /** Setting a full-length nibble through the widened form sets that one pointer bit. */
  lemma SetPtrBit(s: nat, b: Bitmap, nibble: nat)
    requires IsStride(s) && nibble < Pow2(s) && Fits(PtrWidth(s), b)
    ensures Fits(PfxWidth(s), IntoStrideSize(s, b))
    ensures Fits(PfxWidth(s), BitOr(GetBitPos(s, nibble, s), IntoStrideSize(s, b)))
    ensures Fits(PtrWidth(s), IntoPtrSize(s, BitOr(GetBitPos(s, nibble, s), IntoStrideSize(s, b))))
    ensures AllBits(PtrWidth(s), IntoPtrSize(s, BitOr(GetBitPos(s, nibble, s), IntoStrideSize(s, b))))
         == AllBits(PtrWidth(s), b)[nibble := true]
  {
    hide Pow2;
    PosBounds(s, nibble, s);
    IntoStrideIsWidened(s, b);
    SetBit(s, IntoStrideSize(s, b), nibble, s);
    IntoPtrIsMiddle(s, BitOr(GetBitPos(s, nibble, s), IntoStrideSize(s, b)));
    WidenedSet(AllBits(PtrWidth(s), b), nibble);
  }

  lemma WidenedSet(t: seq<bool>, i: nat)
    requires i < |t|
    ensures Widened(t)[|t| - 1 + i := true][|t| - 1..2 * |t| - 1] == t[i := true]
  {
  }

  // ----- Sort keys ----------------------------------------------------------------------

  lemma LeadingZerosOfBit(width: nat, n: nat)
    requires n < width
    ensures Pow2(n) < Pow2(width) && LeadingZeros(Pow2(n), width) == width - 1 - n
  {
    Pow2Mono(n, width);
    OneHotLeadingZeros(n, width);
  }

  lemma LeadingZerosOfBitAt(width: nat, p: nat)
    requires IsWidth(width) && p < width
    ensures Fits(width, BitAt(width, width - 1 - p))
    ensures LeadingZeroCount(width, BitAt(width, width - 1 - p)) == p
  {
    hide Pow2;
    ZeroLeadingZeros(128);
    if width <= 128 {
      LeadingZerosOfBit(width, width - 1 - p);
    } else if width == 256 {
      LeadingZerosOfBit(128, if p < 128 then 127 - p else 255 - p);
    } else {
      var q := if p < 128 then 127 - p else if p < 256 then 255 - p else if p < 384 then 383 - p else 511 - p;
      LeadingZerosOfBit(128, q);
    }
  }

  /** The leading zeros of a nibble's bit give its place in the layout. */
  lemma LeadingZerosIsPos(s: nat, nibble: nat, len: nat)
    requires IsStride(s) && len <= s && nibble < Pow2(len)
    ensures Fits(PfxWidth(s), GetBitPos(s, nibble, len))
    ensures LeadingZeroCount(PfxWidth(s), GetBitPos(s, nibble, len)) == Pos(nibble, len)
  {
    hide Fits, LeadingZeroCount, BitAt, Pow2;
    PosBounds(s, nibble, len);
    Widths(s);
    LeadingZerosOfBitAt(PfxWidth(s), Pos(nibble, len));
  }
}
