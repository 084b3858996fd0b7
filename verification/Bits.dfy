/** Machine words as natural numbers, and bit strings with the most significant bit first. */
module Bits {

  function Pow2(n: nat): (r: nat)
    ensures r >= 1
  {
    if n == 0 then 1 else 2 * Pow2(n - 1)
  }

  /** The number a bit string writes, most significant bit first. */
  function Val(s: seq<bool>): (v: nat)
    ensures v < Pow2(|s|)
  {
    if s == [] then 0
    else 2 * Val(s[..|s| - 1]) + if s[|s| - 1] then 1 else 0
  }

  /** The low n bits of w, most significant bit first. */
  function ToBits(w: nat, n: nat): (s: seq<bool>)
    ensures |s| == n
  {
    if n == 0 then [] else ToBits(w / 2, n - 1) + [w % 2 == 1]
  }

  function Zeros(n: nat): (s: seq<bool>)
    ensures |s| == n
    ensures forall i :: 0 <= i < n ==> !s[i]
  {
    seq(n, _ => false)
  }

  /** How many bits of a string are set. */
  function Count(s: seq<bool>): (c: nat)
    ensures c <= |s|
  {
    if s == [] then 0
    else Count(s[..|s| - 1]) + if s[|s| - 1] then 1 else 0
  }

  // ----- Machine operations on words of a given width --------------------
  // The shifts move one place at a time.

  function Shr(w: nat, n: nat): (r: nat)
    ensures r <= w
    decreases n
  {
    if n == 0 then w else Shr(w / 2, n - 1)
  }

  /** One place to the left; the bit that leaves the word is dropped. */
  function Double(w: nat, width: nat): (r: nat)
    requires w < Pow2(width)
    ensures r < Pow2(width)
  {
    if 2 * w < Pow2(width) then 2 * w else 2 * w - Pow2(width)
  }

  function Shl(w: nat, n: nat, width: nat): (r: nat)
    requires w < Pow2(width)
    ensures r < Pow2(width)
    decreases n
  {
    if n == 0 then w else Shl(Double(w, width), n - 1, width)
  }

  function Or(a: nat, b: nat): nat {
    if a == 0 && b == 0 then 0
    else 2 * Or(a / 2, b / 2) + if a % 2 == 1 || b % 2 == 1 then 1 else 0
  }

  function And(a: nat, b: nat): nat {
    if a == 0 || b == 0 then 0
    else 2 * And(a / 2, b / 2) + if a % 2 == 1 && b % 2 == 1 then 1 else 0
  }

  function CountOnes(w: nat): nat {
    if w == 0 then 0 else CountOnes(w / 2) + w % 2
  }

  function LeadingZeros(w: nat, width: nat): (n: nat)
    ensures n <= width
  {
    if width == 0 || w >= Pow2(width - 1) then 0 else 1 + LeadingZeros(w, width - 1)
  }

  // ----- Val and ToBits are inverse ----------------------------------------

  lemma {:induction false} Pow2Mono(a: nat, b: nat)
    requires a <= b
    ensures Pow2(a) <= Pow2(b)
    ensures a < b ==> 2 * Pow2(a) <= Pow2(b)
    decreases b
  {
    if a < b { Pow2Mono(a, b - 1); }
  }

  lemma {:induction false} ValToBits(w: nat, n: nat)
    requires w < Pow2(n)
    ensures Val(ToBits(w, n)) == w
  {
    if n > 0 {
      ValToBits(w / 2, n - 1);
      assert ToBits(w, n)[..n - 1] == ToBits(w / 2, n - 1);
    }
  }

  lemma {:induction false} ToBitsVal(s: seq<bool>)
    ensures ToBits(Val(s), |s|) == s
  {
    if s != [] {
      ToBitsVal(s[..|s| - 1]);
      assert s == s[..|s| - 1] + [s[|s| - 1]];
    }
  }

  lemma ValInjective(s: seq<bool>, t: seq<bool>)
    requires |s| == |t| && Val(s) == Val(t)
    ensures s == t
  {
    ToBitsVal(s);
    ToBitsVal(t);
  }

  lemma ValAppend(s: seq<bool>, b: bool)
    ensures Val(s + [b]) == 2 * Val(s) + if b then 1 else 0
  {
    assert (s + [b])[..|s|] == s;
  }

  lemma {:induction false} ValCons(b: bool, s: seq<bool>)
    ensures Val([b] + s) == (if b then Pow2(|s|) else 0) + Val(s)
  {
    if s == [] {
      assert ([b] + s)[..0] == [];
    } else {
      var t := s[..|s| - 1];
      ValCons(b, t);
      assert ([b] + s)[..|s|] == [b] + t;
    }
  }

  lemma {:induction false} ValZeros(n: nat)
    ensures Val(Zeros(n)) == 0
  {
    if n > 0 {
      ValZeros(n - 1);
      assert Zeros(n)[..n - 1] == Zeros(n - 1);
    }
  }

  // ----- Shifts on bit strings ----------------------------------------------

  /** A right shift drops the low bits. */
  lemma {:induction false} ShrBits(w: nat, n: nat, width: nat)
    requires w < Pow2(width) && n <= width
    ensures Shr(w, n) < Pow2(width - n)
    ensures ToBits(Shr(w, n), width - n) == ToBits(w, width)[..width - n]
    ensures Shr(w, n) == Val(ToBits(w, width)[..width - n])
    decreases n
  {
    hide Val;
    if n == 0 {
      assert ToBits(w, width)[..width] == ToBits(w, width);
    } else {
      ShrBits(w / 2, n - 1, width - 1);
      assert ToBits(w, width)[..width - n] == ToBits(w / 2, width - 1)[..width - n];
    }
    ValToBits(Shr(w, n), width - n);
  }

  lemma DoubleVal(b: bool, t: seq<bool>)
    ensures Val([b] + t) < Pow2(|t| + 1)
    ensures Double(Val([b] + t), |t| + 1) == Val(t + [false])
  {
    ValCons(b, t);
    ValAppend(t, false);
  }

  lemma DoubleBits(w: nat, width: nat)
    requires w < Pow2(width) && width > 0
    ensures ToBits(Double(w, width), width) == ToBits(w, width)[1..] + [false]
  {
    var s := ToBits(w, width);
    var t := s[1..];
    ValToBits(w, width);
    assert s == [s[0]] + t;
    DoubleVal(s[0], t);
    ToBitsVal(t + [false]);
  }

  /** A left shift drops the high bits and appends zeros. */
  lemma {:induction false} ShlBits(w: nat, n: nat, width: nat)
    requires w < Pow2(width) && n <= width
    ensures ToBits(Shl(w, n, width), width) == ToBits(w, width)[n..] + Zeros(n)
    decreases n
  {
    if n > 0 {
      DoubleBits(w, width);
      ShlBits(Double(w, width), n - 1, width);
      assert (ToBits(w, width)[1..] + [false])[n - 1..] + Zeros(n - 1) == ToBits(w, width)[n..] + Zeros(n);
    }
  }

  /** The two-step shift that cuts bits start .. start+len out of a word. */
  lemma ShiftSlice(w: nat, start: nat, len: nat, width: nat)
    requires w < Pow2(width) && start + len <= width
    ensures Shr(Shl(w, start, width), width - len) == Val(ToBits(w, width)[start..start + len])
  {
    ShlBits(w, start, width);
    var t := ToBits(w, width)[start..] + Zeros(start);
    ShrBits(Shl(w, start, width), width - len, width);
    assert t[..len] == ToBits(w, width)[start..start + len];
  }

  // ----- Bitwise or / and -----------------------------------------------------

  lemma {:induction false} OrBits(a: nat, b: nat, width: nat)
    requires a < Pow2(width) && b < Pow2(width)
    ensures Or(a, b) < Pow2(width)
    ensures forall i :: 0 <= i < width ==>
      ToBits(Or(a, b), width)[i] == (ToBits(a, width)[i] || ToBits(b, width)[i])
  {
    if width > 0 {
      OrBits(a / 2, b / 2, width - 1);
      assert Or(a, b) / 2 == Or(a / 2, b / 2);
      assert ToBits(Or(a, b), width) == ToBits(Or(a / 2, b / 2), width - 1) + [Or(a, b) % 2 == 1];
    }
  }

  lemma {:induction false} AndBits(a: nat, b: nat, width: nat)
    requires a < Pow2(width) && b < Pow2(width)
    ensures And(a, b) < Pow2(width)
    ensures forall i :: 0 <= i < width ==>
      ToBits(And(a, b), width)[i] == (ToBits(a, width)[i] && ToBits(b, width)[i])
  {
    if width > 0 {
      AndBits(a / 2, b / 2, width - 1);
      assert And(a / 2, b / 2) == And(a, b) / 2 by { AndHalf(a, b); }
      assert ToBits(And(a, b), width) == ToBits(And(a / 2, b / 2), width - 1) + [And(a, b) % 2 == 1];
    }
  }

  lemma AndHalf(a: nat, b: nat)
    ensures And(a, b) / 2 == And(a / 2, b / 2)
    ensures And(a, b) % 2 == (if a % 2 == 1 && b % 2 == 1 then 1 else 0)
  {
  }

  lemma {:induction false} ZeroHasNoBits(width: nat)
    ensures ToBits(0, width) == Zeros(width)
  {
    if width > 0 { ZeroHasNoBits(width - 1); }
  }

  /** In a wider word a number gets leading zero bits. */
  lemma {:induction false} ToBitsPad(w: nat, n: nat, width: nat)
    requires w < Pow2(n) && n <= width
    ensures w < Pow2(width)
    ensures ToBits(w, width) == Zeros(width - n) + ToBits(w, n)
  {
    Pow2Mono(n, width);
    if n == 0 {
      ZeroHasNoBits(width);
    } else {
      ToBitsPad(w / 2, n - 1, width - 1);
    }
  }

  /** 2^n has exactly bit n, which is string position width - 1 - n. */
  lemma {:induction false} OneHotBits(n: nat, width: nat)
    requires n < width
    ensures Pow2(n) < Pow2(width)
    ensures forall i :: 0 <= i < width ==> (ToBits(Pow2(n), width)[i] <==> i == width - 1 - n)
  {
    Pow2Mono(n, width);
    if n == 0 {
      ZeroHasNoBits(width - 1);
      assert Pow2(0) / 2 == 0;
      assert ToBits(1, width) == ToBits(0, width - 1) + [true];
    } else {
      OneHotBits(n - 1, width - 1);
      assert Pow2(n) / 2 == Pow2(n - 1);
    }
  }

  lemma {:induction false} OneHotLeadingZeros(n: nat, width: nat)
    requires n < width
    ensures LeadingZeros(Pow2(n), width) == width - 1 - n
  {
    if n < width - 1 {
      Pow2Mono(n, width - 1);
      OneHotLeadingZeros(n, width - 1);
    }
  }

  lemma {:induction false} ZeroLeadingZeros(width: nat)
    ensures LeadingZeros(0, width) == width
  {
    if width > 0 { ZeroLeadingZeros(width - 1); }
  }

  // ----- Counting ---------------------------------------------------------------

  lemma {:induction false} CountOnesBits(w: nat, width: nat)
    requires w < Pow2(width)
    ensures CountOnes(w) == Count(ToBits(w, width))
  {
    if width > 0 {
      CountOnesBits(w / 2, width - 1);
      assert ToBits(w, width)[..width - 1] == ToBits(w / 2, width - 1);
    }
  }

  lemma {:induction false} CountConcat(s: seq<bool>, t: seq<bool>)
    ensures Count(s + t) == Count(s) + Count(t)
  {
    if t == [] {
      assert s + t == s;
    } else {
      CountConcat(s, t[..|t| - 1]);
      assert (s + t)[..|s + t| - 1] == s + t[..|t| - 1];
    }
  }

  /** Population count after a right shift counts the set positions up to the shifted one. */
  lemma CountShifted(w: nat, n: nat, width: nat)
    requires w < Pow2(width) && n <= width
    ensures CountOnes(Shr(w, n)) == Count(ToBits(w, width)[..width - n])
  {
    ShrBits(w, n, width);
    CountOnesBits(Shr(w, n), width - n);
  }

  /** Counting is monotone in the prefix, strictly so past a set bit. */
  lemma {:induction false} CountMono(s: seq<bool>, i: nat, j: nat)
    requires i <= j <= |s|
    ensures Count(s[..i]) <= Count(s[..j])
    ensures i < j && s[i] ==> Count(s[..i]) < Count(s[..j])
    decreases j
  {
    if i < j {
      CountMono(s, i, j - 1);
      assert s[..j][..j - 1] == s[..j - 1];
    }
  }

  /** Setting a clear bit raises the counts past it by one and leaves the others. */
  lemma {:induction false} CountSet(s: seq<bool>, p: nat, i: nat)
    requires p < |s| && !s[p] && i <= |s|
    ensures Count(s[p := true][..i]) == Count(s[..i]) + if p < i then 1 else 0
    decreases i
  {
    if i > 0 {
      CountSet(s, p, i - 1);
      assert s[..i][..i - 1] == s[..i - 1];
      assert s[p := true][..i][..i - 1] == s[p := true][..i - 1];
    }
  }

  lemma {:induction false} CountZeros(n: nat)
    ensures Count(Zeros(n)) == 0
  {
    if n > 0 {
      CountZeros(n - 1);
      assert Zeros(n)[..n - 1] == Zeros(n - 1);
    }
  }

  /** Adding a number below the appended zeros writes its bits there. */
  lemma {:induction false} ValAddLow(s: seq<bool>, t: seq<bool>)
    ensures Val(s + Zeros(|t|)) + Val(t) == Val(s + t)
  {
    if t == [] {
      assert s + Zeros(0) == s + t;
    } else {
      var t' := t[..|t| - 1];
      ValAddLow(s, t');
      assert s + Zeros(|t|) == (s + Zeros(|t'|)) + [false];
      ValAppend(s + Zeros(|t'|), false);
      assert s + t == (s + t') + [t[|t| - 1]];
      ValAppend(s + t', t[|t| - 1]);
    }
  }

  /** Leading zero bits do not change the value. */
  lemma {:induction false} ValPad(k: nat, s: seq<bool>)
    ensures Val(Zeros(k) + s) == Val(s)
  {
    if k == 0 {
      assert Zeros(0) + s == s;
    } else {
      ValPad(k - 1, s);
      ValCons(false, Zeros(k - 1) + s);
      assert Zeros(k) + s == [false] + (Zeros(k - 1) + s);
    }
  }
}
