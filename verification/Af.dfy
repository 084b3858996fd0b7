/** Addresses of one family, `bits` wide, and the prefixes of them. */
module Af {
  import opened Bits

  datatype PrefixId = PrefixId(net: nat, len: nat)

  /** n % bits, for n up to bits: a word cannot be shifted by its own width. */
  function WrapShift(n: nat, bits: nat): nat
    requires n <= bits
  {
    if n == bits then 0 else n
  }

  /** Cuts `len` bits from `start` on, shifted to the right. */
  function GetNibble(bits: nat, net: nat, start: nat, len: nat): (r: nat)
    requires net < Pow2(bits) && start < bits && len <= bits
    ensures r < Pow2(bits)
  {
    Shr(Shl(net, start, bits), WrapShift(bits - len, bits))
  }

  function TruncateToLen(bits: nat, net: nat, len: nat): (r: nat)
    requires len <= bits && net < Pow2(bits)
    ensures r < Pow2(bits)
  {
    if len == 0 then 0
    else if len == bits then net
    else Shl(Shr(net, bits - len), bits - len, bits)
  }

  /** Appends the low `nibbleLen` bits of `nibble` to a prefix. */
  function AddNibble(bits: nat, p: PrefixId, nibble: nat, nibbleLen: nat): PrefixId
    requires 0 < p.len + nibbleLen <= bits && nibble < Pow2(bits)
  {
    PrefixId(Or(p.net, Shl(nibble, bits - p.len - nibbleLen, bits)), p.len + nibbleLen)
  }

  /** No bits are set beyond the length. */
  predicate Canonical(bits: nat, p: PrefixId) {
    && p.net < Pow2(bits)
    && p.len <= bits
    && TruncateToLen(bits, p.net, p.len) == p.net
  }

  /** The network bits of a prefix, as a bit string. */
  function Key(bits: nat, p: PrefixId): (k: seq<bool>)
    requires p.len <= bits
    ensures |k| == p.len
  {
    ToBits(p.net, bits)[..p.len]
  }

  /** q's bits agree with p's as far as q goes. */
  predicate Covers(bits: nat, q: PrefixId, p: PrefixId)
    requires p.net < Pow2(bits)
  {
    q.len <= p.len && q.len <= bits && TruncateToLen(bits, p.net, q.len) == q.net
  }

  // ----- Truncation -------------------------------------------------------

  /** Shifting right and back clears the low bits. */
  lemma ClearLow(w: nat, n: nat, width: nat)
    requires w < Pow2(width) && n <= width
    ensures Shr(w, n) < Pow2(width)
    ensures ToBits(Shl(Shr(w, n), n, width), width) == ToBits(w, width)[..width - n] + Zeros(n)
  {
    var s := ToBits(w, width)[..width - n];
    ShrBits(w, n, width);
    ToBitsPad(Shr(w, n), width - n, width);
    ShlBits(Shr(w, n), n, width);
    assert (Zeros(n) + s)[n..] == s;
  }

  lemma TruncateBits(bits: nat, net: nat, len: nat)
    requires net < Pow2(bits) && len <= bits
    ensures ToBits(TruncateToLen(bits, net, len), bits) == ToBits(net, bits)[..len] + Zeros(bits - len)
  {
    if len == 0 {
      ZeroHasNoBits(bits);
    } else if len < bits {
      ClearLow(net, bits - len, bits);
    }
  }

  lemma CanonicalBits(bits: nat, p: PrefixId)
    requires Canonical(bits, p)
    ensures ToBits(p.net, bits) == Key(bits, p) + Zeros(bits - p.len)
    ensures p.net == Val(Key(bits, p) + Zeros(bits - p.len))
  {
    TruncateBits(bits, p.net, p.len);
    ValToBits(p.net, bits);
  }

  /** The one prefix with the given network bits. */
  function FromKey(bits: nat, k: seq<bool>): PrefixId
    requires |k| <= bits
  {
    PrefixId(Val(k + Zeros(bits - |k|)), |k|)
  }

  lemma FromKeyRoundTrip(bits: nat, k: seq<bool>)
    requires |k| <= bits
    ensures Canonical(bits, FromKey(bits, k))
    ensures Key(bits, FromKey(bits, k)) == k
  {
    var p := FromKey(bits, k);
    var s := k + Zeros(bits - |k|);
    ToBitsVal(s);
    TruncateBits(bits, p.net, p.len);
    assert s[..|k|] == k;
    ValToBits(TruncateToLen(bits, p.net, p.len), bits);
  }

  /** A canonical prefix is fixed by its network bits. */
  lemma KeyDetermines(bits: nat, p: PrefixId)
    requires Canonical(bits, p)
    ensures p == FromKey(bits, Key(bits, p))
  {
    CanonicalBits(bits, p);
  }

  lemma KeyInjective(bits: nat, p: PrefixId, q: PrefixId)
    requires Canonical(bits, p) && Canonical(bits, q)
    requires Key(bits, p) == Key(bits, q)
    ensures p == q
  {
    KeyDetermines(bits, p);
    KeyDetermines(bits, q);
  }

  lemma TruncateIsKeyPrefix(bits: nat, net: nat, len: nat)
    requires net < Pow2(bits) && len <= bits
    ensures PrefixId(TruncateToLen(bits, net, len), len) == FromKey(bits, ToBits(net, bits)[..len])
    ensures Canonical(bits, PrefixId(TruncateToLen(bits, net, len), len))
    ensures Key(bits, PrefixId(TruncateToLen(bits, net, len), len)) == ToBits(net, bits)[..len]
  {
    TruncateBits(bits, net, len);
    FromKeyRoundTrip(bits, ToBits(net, bits)[..len]);
    ValToBits(TruncateToLen(bits, net, len), bits);
  }

  /** Covering, as the store computes it, is the prefix order on network bits. */
  lemma CoversIsPrefixOrder(bits: nat, q: PrefixId, p: PrefixId)
    requires Canonical(bits, q) && Canonical(bits, p)
    ensures Covers(bits, q, p) <==> Key(bits, q) <= Key(bits, p)
  {
    if q.len <= p.len {
      TruncateIsKeyPrefix(bits, p.net, q.len);
      KeyDetermines(bits, q);
      var k := ToBits(p.net, bits)[..q.len];
      assert Key(bits, p)[..q.len] == k;
      if Covers(bits, q, p) {
        assert q == PrefixId(TruncateToLen(bits, p.net, q.len), q.len);
      } else {
        assert q != FromKey(bits, k);
        assert Key(bits, q) != k;
      }
    }
  }

  /** The prefix made of the first len bits of an address, all others cleared. */
  function Cleaned(bits: nat, net: nat, len: nat): PrefixId
    requires net < Pow2(bits) && len <= bits
  {
    PrefixId(TruncateToLen(bits, net, len), len)
  }

  /** Cutting an address twice is cutting it to the shorter length. */
  lemma CleanTwice(bits: nat, net: nat, m: nat, l: nat)
    requires net < Pow2(bits) && l <= m <= bits
    ensures TruncateToLen(bits, net, m) < Pow2(bits)
    ensures Cleaned(bits, TruncateToLen(bits, net, m), l) == Cleaned(bits, net, l)
  {
    hide Val, ToBits, Pow2, TruncateToLen, Canonical;
    TruncateIsKeyPrefix(bits, net, m);
    TruncateIsKeyPrefix(bits, net, l);
    TruncateIsKeyPrefix(bits, TruncateToLen(bits, net, m), l);
    assert ToBits(TruncateToLen(bits, net, m), bits)[..m] == ToBits(net, bits)[..m];
    assert ToBits(TruncateToLen(bits, net, m), bits)[..l] == ToBits(net, bits)[..m][..l] == ToBits(net, bits)[..l];
  }

  // ----- Nibbles ------------------------------------------------------------

  /**
   * The shift pair reads off exactly the addressed bits. For length 0 the second shift wraps around to none: what comes
   * out are then all bits from the start on, at the top of the word.
   */
  lemma NibbleIsSlice(bits: nat, net: nat, start: nat, len: nat)
    requires net < Pow2(bits) && start < bits && start + len <= bits
    ensures len > 0 ==> GetNibble(bits, net, start, len) == Val(ToBits(net, bits)[start..start + len])
    ensures len > 0 ==> GetNibble(bits, net, start, len) < Pow2(len)
    ensures len == 0 ==> ToBits(GetNibble(bits, net, start, len), bits) == ToBits(net, bits)[start..] + Zeros(start)
  {
    hide Pow2, Val, ToBits, Shl;
    ShiftSlice(net, start, len, bits);
    ShlBits(net, start, bits);
  }

  /** So the nibble of length 0 is zero if and only if no bit is set from its start on. */
  lemma EmptyNibbleIff(bits: nat, net: nat, start: nat)
    requires net < Pow2(bits) && start < bits
    ensures GetNibble(bits, net, start, 0) == 0 <==> ToBits(net, bits)[start..] == Zeros(bits - start)
  {
    hide Pow2, Val, ToBits, GetNibble;
    var r := GetNibble(bits, net, start, 0);
    NibbleIsSlice(bits, net, start, 0);
    ZeroHasNoBits(bits);
    assert Zeros(bits) == Zeros(bits - start) + Zeros(start);
    assert ToBits(r, bits)[..bits - start] == ToBits(net, bits)[start..];
    ValToBits(r, bits);
    ValToBits(0, bits);
  }

  /** A nibble within the length survives cleaning. */
  lemma NibbleOfCleaned(bits: nat, net: nat, m: nat, start: nat, len: nat)
    requires net < Pow2(bits) && 0 < len && start + len <= m <= bits
    ensures TruncateToLen(bits, net, m) < Pow2(bits)
    ensures GetNibble(bits, TruncateToLen(bits, net, m), start, len) == GetNibble(bits, net, start, len)
  {
    hide Val, ToBits, Pow2, TruncateToLen, Canonical, GetNibble;
    var cut := TruncateToLen(bits, net, m);
    TruncateIsKeyPrefix(bits, net, m);
    NibbleIsSlice(bits, net, start, len);
    NibbleIsSlice(bits, cut, start, len);
    assert ToBits(cut, bits)[..m] == ToBits(net, bits)[..m];
    SliceOfPrefix(ToBits(cut, bits), m, start, start + len);
    SliceOfPrefix(ToBits(net, bits), m, start, start + len);
  }

  lemma SliceOfPrefix(s: seq<bool>, m: nat, i: nat, j: nat)
    requires i <= j <= m <= |s|
    ensures s[i..j] == s[..m][i..j]
  {
  }

  /** The zero-length nibble of the zero-length prefix is zero. */
  lemma EmptyNibble(bits: nat, net: nat)
    requires 0 < bits && Canonical(bits, PrefixId(net, 0))
    ensures GetNibble(bits, net, 0, 0) == 0
  {
  }

  /** A nibble, shifted to its place behind a prefix of the given length. */
  lemma PlacedNibble(bits: nat, len: nat, nibble: nat, nibbleLen: nat)
    requires len + nibbleLen <= bits && nibble < Pow2(nibbleLen)
    ensures nibble < Pow2(bits)
    ensures ToBits(Shl(nibble, bits - len - nibbleLen, bits), bits)
         == Zeros(len) + ToBits(nibble, nibbleLen) + Zeros(bits - len - nibbleLen)
  {
    var n, rest := ToBits(nibble, nibbleLen), bits - len - nibbleLen;
    ToBitsPad(nibble, nibbleLen, bits);
    ShlBits(nibble, rest, bits);
    assert (Zeros(bits - nibbleLen) + n)[rest..] == Zeros(len) + n;
  }

  /** Appending a nibble appends its bits. */
  lemma AddNibbleBits(bits: nat, p: PrefixId, nibble: nat, nibbleLen: nat)
    requires Canonical(bits, p) && 0 < p.len + nibbleLen <= bits && nibble < Pow2(nibbleLen)
    ensures nibble < Pow2(bits)
    ensures Canonical(bits, AddNibble(bits, p, nibble, nibbleLen))
    ensures Key(bits, AddNibble(bits, p, nibble, nibbleLen)) == Key(bits, p) + ToBits(nibble, nibbleLen)
  {
    hide Pow2, Val, ToBits, Shl, Or;
    var k, n, rest := Key(bits, p), ToBits(nibble, nibbleLen), bits - p.len - nibbleLen;
    CanonicalBits(bits, p);
    PlacedNibble(bits, p.len, nibble, nibbleLen);
    var placed := Shl(nibble, rest, bits);
    OrBits(p.net, placed, bits);
    var net := Or(p.net, placed);
    OrDisjoint(k, n, rest, ToBits(p.net, bits), ToBits(placed, bits), ToBits(net, bits));
    ValToBits(net, bits);
    assert net == FromKey(bits, k + n).net by {
      assert k + n + Zeros(rest) == (k + n) + Zeros(rest);
    }
    FromKeyRoundTrip(bits, k + n);
  }

  lemma OrDisjoint(k: seq<bool>, n: seq<bool>, rest: nat, a: seq<bool>, b: seq<bool>, r: seq<bool>)
    requires a == k + Zeros(|n| + rest)
    requires b == Zeros(|k|) + n + Zeros(rest)
    requires |r| == |a| == |b| && forall i :: 0 <= i < |r| ==> r[i] == (a[i] || b[i])
    ensures r == k + n + Zeros(rest)
  {
  }

  // ----- Stride lists ---------------------------------------------------------

  /** The number of address bits handled by the first k strides. */
  function Offset(strides: seq<nat>, k: nat): nat
    requires k <= |strides|
  {
    if k == 0 then 0 else Offset(strides, k - 1) + strides[k - 1]
  }

  lemma {:induction false} OffsetMono(strides: seq<nat>, i: nat, j: nat)
    requires i <= j <= |strides|
    ensures Offset(strides, i) <= Offset(strides, j)
    ensures i < j ==> Offset(strides, i) + strides[i] <= Offset(strides, j)
    decreases j
  {
    if i < j { OffsetMono(strides, i, j - 1); }
  }

  /** Appends the first k nibbles of an address to the empty prefix, one stride at a time. */
  function Rebuild(bits: nat, net: nat, strides: seq<nat>, k: nat): PrefixId
    requires k <= |strides| && Offset(strides, |strides|) <= bits && net < Pow2(bits)
    requires forall i :: 0 <= i < |strides| ==> strides[i] > 0
    ensures Rebuild(bits, net, strides, k).len == Offset(strides, k)
  {
    if k == 0 then PrefixId(0, 0)
    else
      OffsetMono(strides, k, |strides|);
      var start, len := Offset(strides, k - 1), strides[k - 1];
      AddNibble(bits, Rebuild(bits, net, strides, k - 1), GetNibble(bits, net, start, len), len)
  }

  lemma AddNibbleToKey(bits: nat, k: seq<bool>, m: seq<bool>)
    requires 0 < |k| + |m| <= bits
    ensures Val(m) < Pow2(bits)
    ensures AddNibble(bits, FromKey(bits, k), Val(m), |m|) == FromKey(bits, k + m)
  {
    FromKeyRoundTrip(bits, k);
    ToBitsVal(m);
    AddNibbleBits(bits, FromKey(bits, k), Val(m), |m|);
    KeyDetermines(bits, AddNibble(bits, FromKey(bits, k), Val(m), |m|));
  }

  lemma RebuildStep(bits: nat, net: nat, start: nat, len: nat)
    requires net < Pow2(bits) && 0 < len && start + len <= bits
    ensures AddNibble(bits, PrefixId(TruncateToLen(bits, net, start), start), GetNibble(bits, net, start, len), len)
         == PrefixId(TruncateToLen(bits, net, start + len), start + len)
  {
    hide Val, ToBits, Canonical, TruncateToLen, GetNibble, AddNibble;
    var s := ToBits(net, bits);
    TruncateIsKeyPrefix(bits, net, start);
    TruncateIsKeyPrefix(bits, net, start + len);
    NibbleIsSlice(bits, net, start, len);
    AddNibbleToKey(bits, s[..start], s[start..start + len]);
    assert s[..start] + s[start..start + len] == s[..start + len];
  }

  /** Cutting an address into nibbles and appending them again gives the truncated prefix. */
  lemma {:induction false} NibblesRebuildPrefix(bits: nat, net: nat, strides: seq<nat>, k: nat)
    requires k <= |strides| && Offset(strides, |strides|) <= bits && net < Pow2(bits)
    requires forall i :: 0 <= i < |strides| ==> strides[i] > 0
    ensures Offset(strides, k) <= bits
    ensures Rebuild(bits, net, strides, k)
         == PrefixId(TruncateToLen(bits, net, Offset(strides, k)), Offset(strides, k))
  {
    OffsetMono(strides, k, |strides|);
    if k > 0 {
      NibblesRebuildPrefix(bits, net, strides, k - 1);
      RebuildStep(bits, net, Offset(strides, k - 1), strides[k - 1]);
    }
  }
}
