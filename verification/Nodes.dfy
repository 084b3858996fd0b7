/** One node of the single-threaded tree bitmap. */
module Nodes {
  import opened Wrappers
  import opened Bits
  import opened Stride
  import opened Rank
  import opened Af
  import opened TreeShape

  datatype TreeNode = TreeNode(
    stride: nat,
    ptrbitarr: Bitmap,
    pfxbitarr: Bitmap,
    pfxVec: seq<NodeId>,
    ptrVec: seq<NodeId>)

  datatype NewNodeOrIndex =
    | NewNode(node: TreeNode, bitId: nat)
    | ExistingNode(id: NodeId)
    | NewPrefix
    | ExistingPrefix(part: nat)

  function EmptyNode(stride: nat): TreeNode
    requires IsStride(stride)
  {
    Widths(stride);
    TreeNode(stride, Zero(PtrWidth(stride)), Zero(PfxWidth(stride)), [], [])
  }

  predicate Shaped(n: TreeNode) {
    IsStride(n.stride) && Fits(PtrWidth(n.stride), n.ptrbitarr) && Fits(PfxWidth(n.stride), n.pfxbitarr)
  }

  function PtrBits(n: TreeNode): (s: seq<bool>)
    requires Shaped(n)
    ensures |s| == Pow2(n.stride)
  {
    AllBits(PtrWidth(n.stride), n.ptrbitarr)
  }

  function PfxBits(n: TreeNode): (s: seq<bool>)
    requires Shaped(n)
    ensures |s| == 2 * Pow2(n.stride)
  {
    AllBits(PfxWidth(n.stride), n.pfxbitarr)
  }

  /** Bitmaps and vectors of a node agree. */
  ghost predicate WellFormed(n: TreeNode) {
    && Shaped(n)
    && Dense(PtrBits(n), n.ptrVec, PtrWidth(n.stride) - 1)
    && Dense(PfxBits(n), n.pfxVec, 1)
    && !PfxBits(n)[2 * Pow2(n.stride) - 1]
  }

  /** The place of a bit string in the prefix layout. */
  function Place(b: seq<bool>): nat { Pos(Val(b), |b|) }

  lemma PlaceBounds(s: nat, b: seq<bool>)
    requires IsStride(s) && |b| <= s
    ensures Place(b) < 2 * Pow2(s) - 1
  {
    PosBounds(s, Val(b), |b|);
  }

  lemma PlaceInjective(b: seq<bool>, c: seq<bool>)
    requires Place(b) == Place(c)
    ensures b == c
  {
    PosInjective(Val(b), |b|, Val(c), |c|);
    ValInjective(b, c);
  }

  /** Every place but the last belongs to a bit string. */
  lemma {:induction false} PlaceSurjective(s: nat, p: nat) returns (b: seq<bool>)
    requires p < 2 * Pow2(s) - 1
    ensures |b| <= s && Place(b) == p
  {
    if p >= Pow2(s) - 1 {
      var v := p - (Pow2(s) - 1);
      b := ToBits(v, s);
      ValToBits(v, s);
    } else {
      b := PlaceSurjective(s - 1, p);
    }
  }

  // ----- What a node holds, by bit string ----------------------------------------

  ghost predicate HasChild(n: TreeNode, b: seq<bool>)
    requires Shaped(n)
  {
    |b| == n.stride && PtrBits(n)[Val(b)]
  }

  ghost predicate HasPfx(n: TreeNode, b: seq<bool>)
    requires Shaped(n)
  {
    |b| <= n.stride && (PlaceBounds(n.stride, b); PfxBits(n)[Place(b)])
  }

  ghost function ChildAt(n: TreeNode, b: seq<bool>): nat
    requires WellFormed(n) && HasChild(n, b)
  {
    Entry(PtrBits(n), n.ptrVec, Val(b)).part
  }

  ghost function PfxAt(n: TreeNode, b: seq<bool>): nat
    requires WellFormed(n) && HasPfx(n, b)
  {
    PlaceBounds(n.stride, b);
    Entry(PfxBits(n), n.pfxVec, Place(b)).part
  }

  ghost predicate SeesChildren(n: TreeNode, kids: imap<seq<bool>, nat>)
    requires WellFormed(n)
  {
    forall b {:trigger b in kids} :: (b in kids <==> HasChild(n, b)) && (b in kids ==> kids[b] == ChildAt(n, b))
  }

  ghost predicate SeesPrefixes(n: TreeNode, pfxs: imap<seq<bool>, nat>)
    requires WellFormed(n)
  {
    forall b {:trigger b in pfxs} :: (b in pfxs <==> HasPfx(n, b)) && (b in pfxs ==> pfxs[b] == PfxAt(n, b))
  }

  /** The node's bitmaps and vectors agree, and hold just what the view says. */
  ghost predicate Sees(n: TreeNode, v: View) {
    WellFormed(n) && n.stride == v.stride && SeesChildren(n, v.kids) && SeesPrefixes(n, v.pfxs)
  }

  lemma EmptyNodeSeesNothing(stride: nat)
    requires IsStride(stride)
    ensures Sees(EmptyNode(stride), EmptyView(stride))
  {
    Widths(stride);
    ZeroIsEmpty(PtrWidth(stride));
    ZeroIsEmpty(PfxWidth(stride));
    EmptyIsDense(PtrWidth(stride), PtrWidth(stride) - 1);
    EmptyIsDense(PfxWidth(stride), 1);
    var n := EmptyNode(stride);
    assert PtrBits(n) == Zeros(PtrWidth(stride)) && PfxBits(n) == Zeros(PfxWidth(stride));
    forall b
      ensures !HasChild(n, b) && !HasPfx(n, b)
    {
      if |b| <= stride { PlaceBounds(stride, b); }
    }
  }

  // ----- Insertion into a node ------------------------------------------------------

  lemma AddChildAt(n: TreeNode, kids: imap<seq<bool>, nat>, b: seq<bool>, n': TreeNode, id: NodeId, c: seq<bool>)
    requires WellFormed(n) && WellFormed(n') && SeesChildren(n, kids)
    requires n'.stride == n.stride == |b| && b !in kids && id.sort == Place(b)
    requires n'.ptrVec == Sort(n.ptrVec + [id]) && PtrBits(n') == PtrBits(n)[Val(b) := true]
    ensures c in kids[b := id.part] <==> HasChild(n', c)
    ensures c in kids[b := id.part] ==> kids[b := id.part][c] == ChildAt(n', c)
  {
    hide Count, Sort, Val, AllBits;
    if |c| == n.stride {
      if Val(c) == Val(b) { ValInjective(c, b); }
      if PtrBits(n)[Val(c)] || c == b {
        EntryAfterSet(PtrBits(n), n.ptrVec, PtrWidth(n.stride) - 1, Val(b), id, Val(c));
      }
    }
    assert c in kids <==> HasChild(n, c);
  }

  lemma AddChildDense(n: TreeNode, b: seq<bool>, n': TreeNode, id: NodeId)
    requires WellFormed(n) && |b| == n.stride && !HasChild(n, b) && id.sort == Place(b)
    requires Shaped(n') && n' == n.(ptrbitarr := n'.ptrbitarr, ptrVec := Sort(n.ptrVec + [id]))
    requires PtrBits(n') == PtrBits(n)[Val(b) := true]
    ensures WellFormed(n')
  {
    SetKeepsDense(PtrBits(n), n.ptrVec, PtrWidth(n.stride) - 1, Val(b), id);
    assert PfxBits(n') == PfxBits(n);
  }

  lemma SamePrefixSide(n: TreeNode, pfxs: imap<seq<bool>, nat>, n': TreeNode)
    requires WellFormed(n) && WellFormed(n') && SeesPrefixes(n, pfxs)
    requires n'.stride == n.stride && n'.pfxbitarr == n.pfxbitarr && n'.pfxVec == n.pfxVec
    ensures SeesPrefixes(n', pfxs)
  {
    assert PfxBits(n') == PfxBits(n);
  }

  lemma SameChildSide(n: TreeNode, kids: imap<seq<bool>, nat>, n': TreeNode)
    requires WellFormed(n) && WellFormed(n') && SeesChildren(n, kids)
    requires n'.stride == n.stride && n'.ptrbitarr == n.ptrbitarr && n'.ptrVec == n.ptrVec
    ensures SeesChildren(n', kids)
  {
    assert PtrBits(n') == PtrBits(n);
  }

  /** With its pointer bit set and its entry pushed and sorted in, a node sees one more child. */
  lemma AddChildEntry(n: TreeNode, v: View, b: seq<bool>, n': TreeNode, id: NodeId)
    requires Sees(n, v) && |b| == n.stride && b !in v.kids && id.sort == Place(b)
    requires Shaped(n') && n' == n.(ptrbitarr := n'.ptrbitarr, ptrVec := Sort(n.ptrVec + [id]))
    requires PtrBits(n') == PtrBits(n)[Val(b) := true]
    ensures Sees(n', v.(kids := v.kids[b := id.part]))
  {
    hide Count, Sort, Val, AllBits, Dense, PfxBits, PfxAt, HasPfx, Entry;
    AddChildDense(n, b, n', id);
    SamePrefixSide(n, v.pfxs, n');
    hide PtrBits, HasChild, ChildAt, WellFormed;
    forall c {:trigger c in v.kids[b := id.part]}
      ensures c in v.kids[b := id.part] <==> HasChild(n', c)
      ensures c in v.kids[b := id.part] ==> v.kids[b := id.part][c] == ChildAt(n', c)
    {
      AddChildAt(n, v.kids, b, n', id, c);
    }
  }

  lemma AddPfxAt(n: TreeNode, pfxs: imap<seq<bool>, nat>, b: seq<bool>, n': TreeNode, id: NodeId, c: seq<bool>)
    requires WellFormed(n) && WellFormed(n') && SeesPrefixes(n, pfxs)
    requires n'.stride == n.stride >= |b| && b !in pfxs && id.sort == Place(b) + 1
    requires Place(b) < 2 * Pow2(n.stride) - 1
    requires n'.pfxVec == Sort(n.pfxVec + [id]) && PfxBits(n') == PfxBits(n)[Place(b) := true]
    ensures c in pfxs[b := id.part] <==> HasPfx(n', c)
    ensures c in pfxs[b := id.part] ==> pfxs[b := id.part][c] == PfxAt(n', c)
  {
    hide Count, Sort, AllBits;
    if |c| <= n.stride {
      PlaceBounds(n.stride, c);
      if Place(c) == Place(b) { PlaceInjective(c, b); }
      if PfxBits(n)[Place(c)] || c == b {
        EntryAfterSet(PfxBits(n), n.pfxVec, 1, Place(b), id, Place(c));
      }
    }
    assert c in pfxs <==> HasPfx(n, c);
  }

  lemma AddPfxDense(n: TreeNode, b: seq<bool>, n': TreeNode, id: NodeId)
    requires WellFormed(n) && |b| <= n.stride && !HasPfx(n, b) && id.sort == Place(b) + 1
    requires Place(b) < 2 * Pow2(n.stride) - 1
    requires Shaped(n') && n' == n.(pfxbitarr := n'.pfxbitarr, pfxVec := Sort(n.pfxVec + [id]))
    requires PfxBits(n') == PfxBits(n)[Place(b) := true]
    ensures WellFormed(n')
  {
    SetKeepsDense(PfxBits(n), n.pfxVec, 1, Place(b), id);
    assert PtrBits(n') == PtrBits(n);
  }

  /** With its prefix bit set and its entry pushed and sorted in, a node sees one more prefix. */
  lemma AddPfxEntry(n: TreeNode, v: View, b: seq<bool>, n': TreeNode, id: NodeId)
    requires Sees(n, v) && |b| <= n.stride && b !in v.pfxs && id.sort == Place(b) + 1
    requires Place(b) < 2 * Pow2(n.stride) - 1
    requires Shaped(n') && n' == n.(pfxbitarr := n'.pfxbitarr, pfxVec := Sort(n.pfxVec + [id]))
    requires PfxBits(n') == PfxBits(n)[Place(b) := true]
    ensures Sees(n', v.(pfxs := v.pfxs[b := id.part]))
  {
    AddPfxDense(n, b, n', id);
    SameChildSide(n, v.kids, n');
    forall c {:trigger c in v.pfxs[b := id.part]}
      ensures c in v.pfxs[b := id.part] <==> HasPfx(n', c)
      ensures c in v.pfxs[b := id.part] ==> v.pfxs[b := id.part][c] == PfxAt(n', c)
    {
      AddPfxAt(n, v.pfxs, b, n', id, c);
    }
  }

  /** Pushing the entry of child `child` and sorting completes the node. */
  ghost predicate AwaitsChild(n: TreeNode, v: View, b: seq<bool>, bitId: nat) {
    forall child: nat {:trigger NodeId(bitId, child)} ::
      Sees(n.(ptrVec := Sort(n.ptrVec + [NodeId(bitId, child)])), v.(kids := v.kids[b := child]))
  }

  /** Pushing the entry of prefix `pfx` and sorting completes the node. */
  ghost predicate AwaitsPfx(n: TreeNode, v: View, b: seq<bool>, sort: nat) {
    forall pfx: nat {:trigger NodeId(sort, pfx)} ::
      Sees(n.(pfxVec := Sort(n.pfxVec + [NodeId(sort, pfx)])), v.(pfxs := v.pfxs[b := pfx]))
  }

  lemma ChildBitSet(n: TreeNode, v: View, b: seq<bool>, n': TreeNode)
    requires Sees(n, v) && |b| == n.stride && b !in v.kids
    requires Shaped(n') && n' == n.(ptrbitarr := n'.ptrbitarr) && PtrBits(n') == PtrBits(n)[Val(b) := true]
    ensures AwaitsChild(n', v, b, Place(b))
  {
    forall child: nat {:trigger NodeId(Place(b), child)}
      ensures Sees(n'.(ptrVec := Sort(n'.ptrVec + [NodeId(Place(b), child)])), v.(kids := v.kids[b := child]))
    {
      var done := n'.(ptrVec := Sort(n'.ptrVec + [NodeId(Place(b), child)]));
      AddChildEntry(n, v, b, done, NodeId(Place(b), child));
    }
  }

  lemma PfxBitSet(n: TreeNode, v: View, b: seq<bool>, n': TreeNode)
    requires Sees(n, v) && |b| <= n.stride && b !in v.pfxs && Place(b) < 2 * Pow2(n.stride) - 1
    requires Shaped(n') && n' == n.(pfxbitarr := n'.pfxbitarr) && PfxBits(n') == PfxBits(n)[Place(b) := true]
    ensures AwaitsPfx(n', v, b, Place(b) + 1)
  {
    var sort := Place(b) + 1;
    forall pfx: nat {:trigger NodeId(sort, pfx)}
      ensures Sees(n'.(pfxVec := Sort(n'.pfxVec + [NodeId(sort, pfx)])), v.(pfxs := v.pfxs[b := pfx]))
    {
      AddPfxEntry(n, v, b, n'.(pfxVec := Sort(n'.pfxVec + [NodeId(sort, pfx)])), NodeId(sort, pfx));
    }
  }

  /** The prefix bit and entry of a nibble, as the view has them. */
  lemma PfxEntryAt(n: TreeNode, v: View, b: seq<bool>)
    requires Sees(n, v) && |b| <= n.stride
    ensures Shaped(n) && Place(b) < PfxWidth(n.stride)
    ensures AllBits(PfxWidth(n.stride), n.pfxbitarr)[Place(b)] <==> b in v.pfxs
    ensures b in v.pfxs ==>
      var rank := Count(AllBits(PfxWidth(n.stride), n.pfxbitarr)[..Place(b)]);
      rank < |n.pfxVec| && n.pfxVec[rank].part == v.pfxs[b]
  {
    hide Count, SeesChildren;
    PlaceBounds(n.stride, b);
    assert b in v.pfxs <==> HasPfx(n, b);
  }

  /** The pointer bit and entry of a full nibble, as the view has them; a shorter nibble has neither. */
  lemma ChildEntryAt(n: TreeNode, v: View, b: seq<bool>)
    requires Sees(n, v) && |b| <= n.stride
    ensures Shaped(n)
    ensures |b| < n.stride ==> b !in v.kids
    ensures |b| == n.stride ==> Val(b) < PtrWidth(n.stride)
    ensures |b| == n.stride ==> (AllBits(PtrWidth(n.stride), n.ptrbitarr)[Val(b)] <==> b in v.kids)
    ensures b in v.kids ==> |b| == n.stride
    ensures b in v.kids ==>
      var rank := Count(AllBits(PtrWidth(n.stride), n.ptrbitarr)[..Val(b)]);
      rank < |n.ptrVec| && n.ptrVec[rank].part == v.kids[b]
  {
    hide Count, SeesPrefixes;
    assert b in v.kids <==> HasChild(n, b);
  }

  /** Looks up the nibble's pointer, and sets its bit in the widened bitmap if it is clear. */
  method EvalNodeAt(n: TreeNode, nibble: nat, nextStride: nat, ghost v: View, ghost b: seq<bool>)
    returns (r: NewNodeOrIndex, n': TreeNode)
    requires Sees(n, v) && |b| == n.stride && nibble == Val(b) && IsStride(nextStride)
    ensures n'.ptrVec == n.ptrVec && n'.pfxVec == n.pfxVec
    ensures if b in v.kids then r.ExistingNode? && r.id.part == v.kids[b] && n' == n
      else r.NewNode? && r.node == EmptyNode(nextStride) && AwaitsChild(n', v, b, r.bitId)
  {
    hide Sees, Pow2, BitAnd, BitOr, GetBitPos, Zero, IntoStrideSize, IntoPtrSize, AllBits, Count, Val, EmptyNode;
    ChildEntryAt(n, v, b);
    var s := n.stride;
    var bitPos := GetBitPos(s, nibble, s);
    Widths(s);
    TestPtrBit(s, n.ptrbitarr, nibble, s);
    if BitAnd(IntoStrideSize(s, n.ptrbitarr), bitPos) == Zero(PfxWidth(s)) {
      SetPtrBit(s, n.ptrbitarr, nibble);
      LeadingZerosIsPos(s, nibble, s);
      n' := n.(ptrbitarr := IntoPtrSize(s, BitOr(bitPos, IntoStrideSize(s, n.ptrbitarr))));
      ChildBitSet(n, v, b, n');
      return NewNode(EmptyNode(nextStride), LeadingZeroCount(PfxWidth(s), bitPos)), n';
    }
    PtrIndexIsRank(s, n.ptrbitarr, nibble);
    return ExistingNode(n.ptrVec[GetPtrIndex(s, n.ptrbitarr, nibble)]), n;
  }

  /** Looks up the nibble's prefix, and sets its bit if it is clear. */
  method EvalPrefixAt(n: TreeNode, nibble: nat, nibbleLen: nat, ghost v: View, ghost b: seq<bool>)
    returns (r: NewNodeOrIndex, n': TreeNode)
    requires Sees(n, v) && nibbleLen == |b| <= n.stride && nibble == Val(b)
    ensures n'.ptrVec == n.ptrVec && n'.pfxVec == n.pfxVec
    ensures if b in v.pfxs then r == ExistingPrefix(v.pfxs[b]) && n' == n
      else r == NewPrefix && AwaitsPfx(n', v, b, Pow2(nibbleLen) + nibble)
  {
    hide Sees, Pow2, BitAnd, BitOr, GetBitPos, Zero, AllBits, Count, Val, AwaitsPfx;
    PfxEntryAt(n, v, b);
    var s := n.stride;
    var bitPos := GetBitPos(s, nibble, nibbleLen);
    PlaceBounds(s, b);
    Widths(s);
    TestBit(s, n.pfxbitarr, nibble, nibbleLen);
    if BitAnd(n.pfxbitarr, bitPos) == Zero(PfxWidth(s)) {
      SetBit(s, n.pfxbitarr, nibble, nibbleLen);
      n' := n.(pfxbitarr := BitOr(bitPos, n.pfxbitarr));
      PfxBitSet(n, v, b, n');
      return NewPrefix, n';
    }
    PfxIndexIsRank(s, n.pfxbitarr, nibble, nibbleLen);
    return ExistingPrefix(n.pfxVec[GetPfxIndex(s, n.pfxbitarr, nibble, nibbleLen)].part), n;
  }

  /**
   * Looks up the nibble, and sets its pointer or prefix bit if it is clear. The entry for a
   * freshly set bit is still to be pushed by the caller.
   */
  method EvalNodeOrPrefixAt(n: TreeNode, nibble: nat, nibbleLen: nat, nextStride: Option<nat>, isLastStride: bool,
                            ghost v: View, ghost b: seq<bool>)
    returns (r: NewNodeOrIndex, n': TreeNode)
    requires Sees(n, v) && nibbleLen == |b| <= n.stride && nibble == Val(b)
    requires !isLastStride ==> nibbleLen == n.stride && nextStride.Some? && IsStride(nextStride.value)
    ensures n'.ptrVec == n.ptrVec && n'.pfxVec == n.pfxVec
    ensures !isLastStride ==>
      if b in v.kids then r.ExistingNode? && r.id.part == v.kids[b] && n' == n
      else r.NewNode? && r.node == EmptyNode(nextStride.value) && AwaitsChild(n', v, b, r.bitId)
    ensures isLastStride ==>
      if b in v.pfxs then r == ExistingPrefix(v.pfxs[b]) && n' == n
      else r == NewPrefix && AwaitsPfx(n', v, b, Pow2(nibbleLen) + nibble)
  {
    hide Sees, AwaitsChild, AwaitsPfx, EmptyNode, Val, Pow2;
    if !isLastStride {
      r, n' := EvalNodeAt(n, nibble, nextStride.value, v, b);
    } else {
      r, n' := EvalPrefixAt(n, nibble, nibbleLen, v, b);
    }
  }

  // ----- Searching a node -------------------------------------------------------------

  /** The bits of a key handled from `start` on. */
  function Cut(k: seq<bool>, start: nat, len: nat): (b: seq<bool>)
    requires start + len <= |k|
    ensures |b| == len
  {
    k[start..start + len]
  }

  lemma CutAppends(k: seq<bool>, start: nat, len: nat)
    requires start + len <= |k|
    ensures k[..start] + Cut(k, start, len) == k[..start + len]
  {
  }

  /** The longest nibble length up to len at which the node hosts a prefix of k, 0 if none. */
  ghost function LongestIn(v: View, k: seq<bool>, start: nat, len: nat): (l: nat)
    requires start + len <= |k|
    ensures l <= len
    ensures l > 0 ==> Cut(k, start, l) in v.pfxs
  {
    if len == 0 then 0
    else if Cut(k, start, len) in v.pfxs then len
    else LongestIn(v, k, start, len - 1)
  }

  lemma {:induction false} LongestInIsLongest(v: View, k: seq<bool>, start: nat, len: nat)
    requires start + len <= |k|
    ensures forall m {:trigger Cut(k, start, m)} :: LongestIn(v, k, start, len) < m <= len ==>
      Cut(k, start, m) !in v.pfxs
  {
    if len > 0 && Cut(k, start, len) !in v.pfxs {
      LongestInIsLongest(v, k, start, len - 1);
    }
  }

  lemma NibbleOfKey(bits: nat, s: PrefixId, start: nat, len: nat)
    requires Canonical(bits, s) && start < bits && start + len <= s.len
    requires len == 0 ==> s.len == 0
    ensures GetNibble(bits, s.net, start, len) == Val(Cut(Key(bits, s), start, len))
  {
    if len == 0 {
      EmptyNibble(bits, s.net);
      assert Cut(Key(bits, s), start, len) == [];
    } else {
      NibbleIsSlice(bits, s.net, start, len);
      assert Cut(Key(bits, s), start, len) == ToBits(s.net, bits)[start..start + len];
    }
  }

  /** Masks the prefix bitmap with the nibble's bit and fetches the entry if it is set. */
  method PfxHere(n: TreeNode, nibble: nat, len: nat, ghost v: View, ghost b: seq<bool>) returns (r: Option<NodeId>)
    requires Sees(n, v) && len == |b| <= n.stride && nibble == Val(b)
    ensures r.Some? <==> b in v.pfxs
    ensures r.Some? ==> r.value.part == v.pfxs[b]
  {
    Widths(n.stride);
    PlaceBounds(n.stride, b);
    TestBit(n.stride, n.pfxbitarr, nibble, len);
    if Greater(BitAnd(n.pfxbitarr, GetBitPos(n.stride, nibble, len)), Zero(PfxWidth(n.stride))) {
      PfxIndexIsRank(n.stride, n.pfxbitarr, nibble, len);
      return Some(n.pfxVec[GetPfxIndex(n.stride, n.pfxbitarr, nibble, len)]);
    }
    return None;
  }

  /** Masks the widened pointer bitmap with the nibble's bit and fetches the entry if it is set. */
  method ChildHere(n: TreeNode, nibble: nat, len: nat, ghost v: View, ghost b: seq<bool>) returns (r: Option<NodeId>)
    requires Sees(n, v) && len == |b| <= n.stride && nibble == Val(b)
    ensures r.Some? <==> b in v.kids
    ensures r.Some? ==> r.value.part == v.kids[b]
  {
    Widths(n.stride);
    TestPtrBit(n.stride, n.ptrbitarr, nibble, len);
    if Greater(BitAnd(IntoStrideSize(n.stride, n.ptrbitarr), GetBitPos(n.stride, nibble, len)),
      Zero(PfxWidth(n.stride))) {
      PtrIndexIsRank(n.stride, n.ptrbitarr, nibble);
      return Some(n.ptrVec[GetPtrIndex(n.stride, n.ptrbitarr, nibble)]);
    }
    return None;
  }

  // The search functions collect the prefixes that they meet on the way, if they are asked to.

  /**
   * The child whose bit decides whether a prefix met at length l of the nibble is collected: the bits so far,
   * read as a nibble of the full length.
   */
  function Misread(k: seq<bool>, start: nat, l: nat, len: nat): (b: seq<bool>)
    requires l <= len && start + l <= |k|
    ensures |b| == len
  {
    Zeros(len - l) + Cut(k, start, l)
  }

  /** What the longest-match search collects in a node, up to length l of the nibble. */
  ghost function LessIn(v: View, k: seq<bool>, start: nat, len: nat, l: nat): seq<nat>
    requires start + len <= |k| && l <= len
  {
    if l == 0 then []
    else
      var b := Cut(k, start, l);
      LessIn(v, k, start, len, l - 1)
      + if b in v.pfxs && start + len < |k| && Misread(k, start, l, len) in v.kids then [v.pfxs[b]] else []
  }

  /** All prefixes of k that the node hosts, up to length l of the nibble. */
  ghost function CoversIn(v: View, k: seq<bool>, start: nat, l: nat): seq<nat>
    requires start + l <= |k|
  {
    if l == 0 then []
    else CoversIn(v, k, start, l - 1) + if Cut(k, start, l) in v.pfxs then [v.pfxs[Cut(k, start, l)]] else []
  }

  /** Nothing is collected at length 0; at a further length it is at most that length's entry. */
  lemma LessInSteps(v: View, k: seq<bool>, start: nat, len: nat, l: nat)
    requires start + len <= |k| && l <= len
    ensures LessIn(v, k, start, len, 0) == []
    ensures l > 0 ==>
      LessIn(v, k, start, len, l) ==
        var b := Cut(k, start, l);
        if b in v.pfxs && start + len < |k| && Misread(k, start, l, len) in v.kids
        then LessIn(v, k, start, len, l - 1) + [v.pfxs[b]]
        else LessIn(v, k, start, len, l - 1)
  {
    hide Cut, Misread;
  }

  lemma CoversInSteps(v: View, k: seq<bool>, start: nat, l: nat)
    requires start + l <= |k|
    ensures CoversIn(v, k, start, 0) == []
    ensures l > 0 ==>
      CoversIn(v, k, start, l) ==
        var b := Cut(k, start, l);
        if b in v.pfxs then CoversIn(v, k, start, l - 1) + [v.pfxs[b]] else CoversIn(v, k, start, l - 1)
  {
    hide Cut;
  }

  lemma NoParts()
    ensures Parts([]) == []
  {
  }

  lemma PartsPush(ids: seq<NodeId>, id: NodeId, base: seq<nat>, more: seq<nat>)
    requires Parts(ids) == base + more
    ensures Parts(ids + [id]) == base + (more + [id.part])
  {
  }

  lemma MisreadNibble(k: seq<bool>, start: nat, l: nat, len: nat)
    requires l <= len && start + l <= |k|
    ensures Val(Misread(k, start, l, len)) == Val(Cut(k, start, l))
  {
    ValPad(len - l, Cut(k, start, l));
  }

  /** Walks the nibble bit by bit; the last prefix met is the longest this node can offer. */
  method SearchStrideForLongestMatchAt(n: TreeNode, bits: nat, s: PrefixId, startNibble: nat, nibbleLen: nat,
                                       startBit: nat, less: Option<seq<NodeId>>, ghost v: View)
    returns (child: Option<NodeId>, found: Option<NodeId>, less': Option<seq<NodeId>>)
    requires Sees(n, v) && Canonical(bits, s) && startBit < bits
    requires nibbleLen <= n.stride && startBit + nibbleLen <= s.len
    requires nibbleLen == 0 ==> s.len == 0
    requires startNibble == GetNibble(bits, s.net, startBit, nibbleLen)
    ensures var l := LongestIn(v, Key(bits, s), startBit, nibbleLen);
      if l == 0 then found.None?
      else found.Some? && found.value.part == v.pfxs[Cut(Key(bits, s), startBit, l)]
    ensures var b := Cut(Key(bits, s), startBit, nibbleLen);
      if s.len > startBit + nibbleLen && b in v.kids then child.Some? && child.value.part == v.kids[b]
      else child.None?
    ensures less'.Some? <==> less.Some?
    ensures less.Some? ==>
      Parts(less'.value) == Parts(less.value) + LessIn(v, Key(bits, s), startBit, nibbleLen, nibbleLen)
  {
    hide Sees, GetNibble, Val, Key, Misread, LessIn, Parts, Cut, TruncateToLen, Pow2;
    ghost var k := Key(bits, s);
    var nibble := startNibble;
    NibbleOfKey(bits, s, startBit, nibbleLen);
    found, less' := None, less;
    LessInSteps(v, k, startBit, nibbleLen, 0);
    for nl := 1 to nibbleLen + 1
      invariant less'.Some? <==> less.Some?
      invariant less.Some? ==> Parts(less'.value) == Parts(less.value) + LessIn(v, k, startBit, nibbleLen, nl - 1)
      invariant var l := LongestIn(v, k, startBit, nl - 1);
        if l == 0 then found.None?
        else found.Some? && found.value.part == v.pfxs[Cut(k, startBit, l)]
      invariant nibble == if nl == 1 then startNibble else Val(Cut(k, startBit, nl - 1))
    {
      nibble := GetNibble(bits, s.net, startBit, nl);
      NibbleOfKey(bits, s, startBit, nl);
      LessInSteps(v, k, startBit, nibbleLen, nl);
      var here := PfxHere(n, nibble, nl, v, Cut(k, startBit, nl));
      if here.Some? {
        if less'.Some? {
          MisreadNibble(k, startBit, nl, nibbleLen);
          var onward := ChildHere(n, nibble, nibbleLen, v, Misread(k, startBit, nl, nibbleLen));
          if !(s.len <= startBit + nibbleLen || onward.None?) {
            PartsPush(less'.value, here.value, Parts(less.value), LessIn(v, k, startBit, nibbleLen, nl - 1));
            less' := Some(less'.value + [here.value]);
          }
        }
        found := here;
      }
    }
    child := ChildHere(n, nibble, nibbleLen, v, Cut(k, startBit, nibbleLen));
    if s.len <= startBit + nibbleLen || child.None? {
      child := None;
    }
  }

  /** Looks at the full nibble only. */
  method SearchStrideForExactMatchAt(n: TreeNode, bits: nat, s: PrefixId, nibble: nat, nibbleLen: nat,
                                     startBit: nat, ghost v: View)
    returns (child: Option<NodeId>, found: Option<NodeId>)
    requires Sees(n, v) && Canonical(bits, s) && startBit < bits
    requires nibbleLen <= n.stride && startBit + nibbleLen <= s.len
    requires nibbleLen == 0 ==> s.len == 0
    requires nibble == GetNibble(bits, s.net, startBit, nibbleLen)
    ensures var b := Cut(Key(bits, s), startBit, nibbleLen);
      if s.len <= startBit + nibbleLen && b in v.pfxs then found.Some? && found.value.part == v.pfxs[b]
      else found.None?
    ensures var b := Cut(Key(bits, s), startBit, nibbleLen);
      if s.len > startBit + nibbleLen && b in v.kids then child.Some? && child.value.part == v.kids[b]
      else child.None?
  {
    NibbleOfKey(bits, s, startBit, nibbleLen);
    ghost var b := Cut(Key(bits, s), startBit, nibbleLen);
    child, found := None, None;
    if s.len <= startBit + nibbleLen {
      found := PfxHere(n, nibble, nibbleLen, v, b);
    } else {
      child := ChildHere(n, nibble, nibbleLen, v, b);
    }
  }

  /**
   * Looks for the full nibble as well, but walks the nibble bit by bit and collects what it meets. Whenever there is
   * no prefix at the full nibble, what has been collected so far is dropped.
   */
  method SearchStrideForExactMatchWithLessSpecificsAt(n: TreeNode, bits: nat, s: PrefixId, startNibble: nat,
                                                      nibbleLen: nat, startBit: nat, less: seq<NodeId>, ghost v: View)
    returns (child: Option<NodeId>, found: Option<NodeId>, less': seq<NodeId>)
    requires Sees(n, v) && Canonical(bits, s) && startBit < bits
    requires nibbleLen <= n.stride && startBit + nibbleLen <= s.len
    requires nibbleLen == 0 ==> s.len == 0
    requires startNibble == GetNibble(bits, s.net, startBit, nibbleLen)
    ensures var b := Cut(Key(bits, s), startBit, nibbleLen);
      && (if s.len > startBit + nibbleLen && b in v.kids
          then child.Some? && child.value.part == v.kids[b] && found.None?
          else
            && child.None?
            && (found.Some? <==> nibbleLen > 0 && b in v.pfxs) && (found.Some? ==> found.value.part == v.pfxs[b]))
      && Parts(less') ==
           if nibbleLen > 0 && b in v.pfxs then Parts(less) + CoversIn(v, Key(bits, s), startBit, nibbleLen) else []
  {
    hide Sees, GetNibble, Val, Key, TruncateToLen, Cut, Pow2, CoversIn, Parts;
    ghost var k := Key(bits, s);
    var nibble := startNibble;
    NibbleOfKey(bits, s, startBit, nibbleLen);
    found, less' := None, less;
    CoversInSteps(v, k, startBit, 0);
    for nl := 1 to nibbleLen + 1
      invariant Parts(less') == Parts(less) + CoversIn(v, k, startBit, nl - 1)
      invariant found.Some? <==> nl == nibbleLen + 1 && nibbleLen > 0 && Cut(k, startBit, nibbleLen) in v.pfxs
      invariant found.Some? ==> found.value.part == v.pfxs[Cut(k, startBit, nibbleLen)]
      invariant nibble == if nl == 1 then startNibble else Val(Cut(k, startBit, nl - 1))
    {
      nibble := GetNibble(bits, s.net, startBit, nl);
      NibbleOfKey(bits, s, startBit, nl);
      CoversInSteps(v, k, startBit, nl);
      var here := PfxHere(n, nibble, nl, v, Cut(k, startBit, nl));
      if here.Some? {
        if nl == nibbleLen {
          found := here;
        }
        PartsPush(less', here.value, Parts(less), CoversIn(v, k, startBit, nl - 1));
        less' := less' + [here.value];
      }
    }
    if found.None? {
      less' := [];
      NoParts();
    }
    child := ChildHere(n, nibble, nibbleLen, v, Cut(k, startBit, nibbleLen));
    if s.len <= startBit + nibbleLen || child.None? {
      child := None;
    } else {
      found := None;
    }
  }

  // ----- More specifics within a node ----------------------------------------------------

  /** The ids are the entries at the given nibbles, no nibble twice. */
  ghost predicate Lists(m: imap<seq<bool>, nat>, ids: seq<NodeId>, keys: seq<seq<bool>>) {
    && |ids| == |keys|
    && (forall i :: 0 <= i < |ids| ==> keys[i] in m && ids[i].part == m[keys[i]])
    && (forall i, j :: 0 <= i < j < |keys| ==> keys[i] != keys[j])
  }

  /** c extends b, and comes before offset `next` of length `len` in the order of the search. */
  ghost predicate Before(b: seq<bool>, c: seq<bool>, len: nat, next: nat) {
    b < c && (|c| < len || (|c| == len && Val(c[|b|..]) < next))
  }

  lemma ShiftedNibble(nibble: nat, nibbleLen: nat, d: nat)
    requires nibble < Pow2(nibbleLen) && nibbleLen + d <= 32
    ensures nibble < Pow2(32)
    ensures Shl(nibble, d, 32) == Val(ToBits(nibble, nibbleLen) + Zeros(d))
  {
    hide Val, Shl, Pow2;
    var b, pad := ToBits(nibble, nibbleLen), 32 - nibbleLen - d;
    ToBitsPad(nibble, nibbleLen, 32);
    ShlBits(nibble, d, 32);
    ValToBits(Shl(nibble, d, 32), 32);
    assert (Zeros(32 - nibbleLen) + b)[d..] + Zeros(d) == Zeros(pad) + (b + Zeros(d));
    ValPad(pad, b + Zeros(d));
  }

  /** Shifting a nibble left and adding an offset appends the offset's bits. */
  lemma ExtendedNibble(nibble: nat, nibbleLen: nat, offset: nat, d: nat)
    requires nibble < Pow2(nibbleLen) && nibbleLen + d <= 32 && offset < Pow2(d)
    ensures nibble < Pow2(32)
    ensures Shl(nibble, d, 32) + offset == Val(ToBits(nibble, nibbleLen) + ToBits(offset, d))
  {
    ShiftedNibble(nibble, nibbleLen, d);
    ValToBits(offset, d);
    ValAddLow(ToBits(nibble, nibbleLen), ToBits(offset, d));
  }

  lemma KeyOfNibble(b: seq<bool>, nibble: nat, offset: nat, d: nat)
    requires nibble == Val(b) && |b| + d <= 32 && offset < Pow2(d)
    ensures nibble < Pow2(32)
    ensures Shl(nibble, d, 32) + offset == Val(b + ToBits(offset, d)) && |b + ToBits(offset, d)| == |b| + d
  {
    ToBitsVal(b);
    ExtendedNibble(nibble, |b|, offset, d);
  }

  /** The next key in line is the only one between two successive offsets. */
  lemma BeforeStep(b: seq<bool>, c: seq<bool>, len: nat, next: nat)
    requires |b| < len && next < Pow2(len - |b|)
    ensures Before(b, c, len, next + 1) <==> Before(b, c, len, next) || c == b + ToBits(next, len - |b|)
  {
    var t := ToBits(next, len - |b|);
    ValToBits(next, len - |b|);
    assert (b + t)[|b|..] == t;
    if b < c && |c| == len && Val(c[|b|..]) == next {
      ValInjective(c[|b|..], t);
      assert c == b + c[|b|..];
    }
  }

  /** The entries found so far: those extending b before the given offset, and b's own if asked for. */
  ghost predicate FoundSoFar(m: imap<seq<bool>, nat>, b: seq<bool>, ids: seq<NodeId>, keys: seq<seq<bool>>,
                             len: nat, next: nat, self: bool)
  {
    && Lists(m, ids, keys)
    && (forall c :: c in keys <==> c in m && ((self && c == b) || Before(b, c, len, next)))
  }

  lemma BeforeSteps(b: seq<bool>, len: nat, next: nat)
    requires |b| < len && next < Pow2(len - |b|)
    ensures forall c {:trigger Before(b, c, len, next + 1)} ::
      Before(b, c, len, next + 1) <==> Before(b, c, len, next) || c == b + ToBits(next, len - |b|)
  {
    forall c: seq<bool> {:trigger Before(b, c, len, next + 1)}
      ensures Before(b, c, len, next + 1) <==> Before(b, c, len, next) || c == b + ToBits(next, len - |b|)
    {
      BeforeStep(b, c, len, next);
    }
  }

  lemma ListOneMore(m: imap<seq<bool>, nat>, ids: seq<NodeId>, keys: seq<seq<bool>>, id: NodeId, key: seq<bool>)
    requires Lists(m, ids, keys) && key in m && id.part == m[key] && key !in keys
    ensures Lists(m, ids + [id], keys + [key])
  {
  }

  lemma FoundStep(m: imap<seq<bool>, nat>, b: seq<bool>, ids: seq<NodeId>, keys: seq<seq<bool>>, len: nat, next: nat,
                  self: bool, found: Option<NodeId>, key: seq<bool>)
    requires |b| < len && next < Pow2(len - |b|) && key == b + ToBits(next, len - |b|)
    requires FoundSoFar(m, b, ids, keys, len, next, self)
    requires (found.Some? <==> key in m) && (found.Some? ==> found.value.part == m[key])
    ensures found.None? ==> FoundSoFar(m, b, ids, keys, len, next + 1, self)
    ensures found.Some? ==> FoundSoFar(m, b, ids + [found.value], keys + [key], len, next + 1, self)
  {
    NotYet(b, len, next);
    BeforeSteps(b, len, next);
    if found.Some? { ListOneMore(m, ids, keys, found.value, key); }
  }

  lemma LengthStep(m: imap<seq<bool>, nat>, b: seq<bool>, ids: seq<NodeId>, keys: seq<seq<bool>>, len: nat, self: bool)
    requires |b| < len && FoundSoFar(m, b, ids, keys, len, Pow2(len - |b|), self)
    ensures FoundSoFar(m, b, ids, keys, len + 1, 0, self)
  {
    assert forall c {:trigger Before(b, c, len + 1, 0)} ::
      Before(b, c, len, Pow2(len - |b|)) <==> Before(b, c, len + 1, 0);
  }

  /** One round of the search: every nibble of `len` bits that starts with the given one. */
  method AddMoreSpecificsOfLen(n: TreeNode, nibble: nat, nibbleLen: nat, len: nat,
                               before: seq<NodeId>, beforePfx: seq<NodeId>, ghost beforeKeys: seq<seq<bool>>,
                               ghost beforePfxKeys: seq<seq<bool>>, ghost v: View, ghost b: seq<bool>)
    returns (children: seq<NodeId>, found: seq<NodeId>, ghost childKeys: seq<seq<bool>>, ghost pfxKeys: seq<seq<bool>>)
    requires Sees(n, v) && nibbleLen == |b| < len <= n.stride && nibble == Val(b)
    requires FoundSoFar(v.kids, b, before, beforeKeys, len, 0, true)
    requires FoundSoFar(v.pfxs, b, beforePfx, beforePfxKeys, len, 0, false)
    ensures FoundSoFar(v.kids, b, children, childKeys, len + 1, 0, true)
    ensures FoundSoFar(v.pfxs, b, found, pfxKeys, len + 1, 0, false)
  {
    hide Sees, Val, FoundSoFar, Shl, Pow2;
    SeenLengths(n, v);
    children, found, childKeys, pfxKeys := before, beforePfx, beforeKeys, beforePfxKeys;
    var d := len - nibbleLen;
    for offset := 0 to Pow2(d)
      invariant FoundSoFar(v.kids, b, children, childKeys, len, offset, true)
      invariant FoundSoFar(v.pfxs, b, found, pfxKeys, len, offset, false)
    {
      KeyOfNibble(b, nibble, offset, d);
      var msNibble := Shl(nibble, d, 32) + offset;
      ghost var key := b + ToBits(offset, d);
      var child := ChildHere(n, msNibble, len, v, key);
      FoundStep(v.kids, b, children, childKeys, len, offset, true, child, key);
      if child.Some? {
        children, childKeys := children + [child.value], childKeys + [key];
      }
      var pfx := PfxHere(n, msNibble, len, v, key);
      FoundStep(v.pfxs, b, found, pfxKeys, len, offset, false, pfx, key);
      if pfx.Some? {
        found, pfxKeys := found + [pfx.value], pfxKeys + [key];
      }
    }
    LengthStep(v.kids, b, children, childKeys, len, true);
    LengthStep(v.pfxs, b, found, pfxKeys, len, false);
  }

  /** The children and prefixes of the node below a nibble, shorter nibbles first. */
  method AddMoreSpecificsAt(n: TreeNode, nibble: nat, nibbleLen: nat, ghost v: View, ghost b: seq<bool>)
    returns (children: seq<NodeId>, found: seq<NodeId>, ghost childKeys: seq<seq<bool>>, ghost pfxKeys: seq<seq<bool>>)
    requires Sees(n, v) && nibbleLen == |b| <= n.stride && nibble == Val(b)
    ensures Lists(v.kids, children, childKeys)
    ensures Lists(v.pfxs, found, pfxKeys)
    ensures forall c :: c in childKeys <==> c in v.kids && b <= c
    ensures forall c :: c in pfxKeys <==> c in v.pfxs && b < c
    ensures ListsExtensions(v.kids, children, b, true)
    ensures ListsExtensions(v.pfxs, found, b, false)
  {
    hide Sees, Val, Pow2, ListsExtensions;
    children, found, childKeys, pfxKeys := [], [], [], [];
    var own := ChildHere(n, nibble, nibbleLen, v, b);
    if own.Some? {
      children, childKeys := [own.value], [b];
    }
    for len := nibbleLen + 1 to n.stride + 1
      invariant FoundSoFar(v.kids, b, children, childKeys, len, 0, true)
      invariant FoundSoFar(v.pfxs, b, found, pfxKeys, len, 0, false)
    {
      children, found, childKeys, pfxKeys :=
        AddMoreSpecificsOfLen(n, nibble, nibbleLen, len, children, found, childKeys, pfxKeys, v, b);
    }
    SeenLengths(n, v);
    FoundAll(v.kids, b, children, childKeys, n.stride, true);
    FoundAll(v.pfxs, b, found, pfxKeys, n.stride, false);
  }

  /** The ids are the entries at all nibbles that extend b, each once; b's own counts only if asked for. */
  ghost predicate ListsExtensions(m: imap<seq<bool>, nat>, ids: seq<NodeId>, b: seq<bool>, self: bool) {
    exists keys {:trigger Lists(m, ids, keys)} ::
      Lists(m, ids, keys) && forall c :: c in keys <==> c in m && b <= c && (self || b != c)
  }

  /** When all lengths are done, all keys that extend b are found. */
  lemma FoundAll(m: imap<seq<bool>, nat>, b: seq<bool>, ids: seq<NodeId>, keys: seq<seq<bool>>, stride: nat, self: bool)
    requires FoundSoFar(m, b, ids, keys, stride + 1, 0, self) && forall c :: c in m ==> |c| <= stride
    ensures Lists(m, ids, keys) && ListsExtensions(m, ids, b, self)
    ensures forall c :: c in keys <==> c in m && b <= c && (self || b != c)
  {
    forall c: seq<bool>
      ensures c in keys <==> c in m && b <= c && (self || b != c)
    {
      assert c in keys <==> c in m && ((self && c == b) || Before(b, c, stride + 1, 0));
    }
  }

  lemma SeenLengths(n: TreeNode, v: View)
    requires Sees(n, v)
    ensures IsStride(n.stride) && n.stride == v.stride
    ensures forall b :: b in v.kids ==> |b| == n.stride
    ensures forall b :: b in v.pfxs ==> |b| <= n.stride
  {
  }

  // ----- The vectors of a node list all it holds --------------------------------------------

  lemma PfxVecEntry(n: TreeNode, v: View, i: nat) returns (b: seq<bool>)
    requires Sees(n, v) && i < |n.pfxVec|
    ensures b in v.pfxs && v.pfxs[b] == n.pfxVec[i].part && Place(b) == Select(PfxBits(n), i)
  {
    b := PlaceSurjective(n.stride, Select(PfxBits(n), i));
    assert HasPfx(n, b);
  }

  lemma PtrVecEntry(n: TreeNode, v: View, i: nat) returns (b: seq<bool>)
    requires Sees(n, v) && i < |n.ptrVec|
    ensures b in v.kids && v.kids[b] == n.ptrVec[i].part && Val(b) == Select(PtrBits(n), i)
  {
    b := ToBits(Select(PtrBits(n), i), n.stride);
    ValToBits(Select(PtrBits(n), i), n.stride);
    assert HasChild(n, b);
  }

  lemma {:induction false} PfxVecLists(n: TreeNode, v: View, m: nat) returns (keys: seq<seq<bool>>)
    requires Sees(n, v) && m <= |n.pfxVec|
    ensures Lists(v.pfxs, n.pfxVec[..m], keys)
    ensures forall i :: 0 <= i < m ==> Place(keys[i]) == Select(PfxBits(n), i)
  {
    hide SeesChildren, SeesPrefixes, PfxBits, PtrBits, Count, Val, Pow2;
    if m == 0 { return []; }
    keys := PfxVecLists(n, v, m - 1);
    var b := PfxVecEntry(n, v, m - 1);
    forall i | 0 <= i < m - 1
      ensures keys[i] != b
    {
      assert Place(keys[i]) == Select(PfxBits(n), i);
    }
    ListOneMore(v.pfxs, n.pfxVec[..m - 1], keys, n.pfxVec[m - 1], b);
    assert n.pfxVec[..m - 1] + [n.pfxVec[m - 1]] == n.pfxVec[..m];
    keys := keys + [b];
  }

  lemma {:induction false} PtrVecLists(n: TreeNode, v: View, m: nat) returns (keys: seq<seq<bool>>)
    requires Sees(n, v) && m <= |n.ptrVec|
    ensures Lists(v.kids, n.ptrVec[..m], keys)
    ensures forall i :: 0 <= i < m ==> Val(keys[i]) == Select(PtrBits(n), i)
  {
    hide SeesChildren, SeesPrefixes, PfxBits, PtrBits, Count;
    if m == 0 { return []; }
    keys := PtrVecLists(n, v, m - 1);
    var b := PtrVecEntry(n, v, m - 1);
    forall i | 0 <= i < m - 1
      ensures keys[i] != b
    {
      assert Val(keys[i]) == Select(PtrBits(n), i);
    }
    ListOneMore(v.kids, n.ptrVec[..m - 1], keys, n.ptrVec[m - 1], b);
    assert n.ptrVec[..m - 1] + [n.ptrVec[m - 1]] == n.ptrVec[..m];
    keys := keys + [b];
  }

  /** The prefix vector lists every prefix of the node, once. */
  lemma AllPrefixesListed(n: TreeNode, v: View) returns (keys: seq<seq<bool>>)
    requires Sees(n, v)
    ensures Lists(v.pfxs, n.pfxVec, keys)
    ensures forall b :: b in v.pfxs ==> b in keys
  {
    keys := PfxVecLists(n, v, |n.pfxVec|);
    assert n.pfxVec[..|n.pfxVec|] == n.pfxVec;
    forall b | b in v.pfxs
      ensures b in keys
    {
      PlaceBounds(n.stride, b);
      RankOrder(PfxBits(n), Place(b), Place(b));
      var i := Count(PfxBits(n)[..Place(b)]);
      SelectRank(PfxBits(n), Place(b));
      PlaceInjective(keys[i], b);
    }
  }

  /** The pointer vector lists every child of the node, once. */
  lemma AllChildrenListed(n: TreeNode, v: View) returns (keys: seq<seq<bool>>)
    requires Sees(n, v)
    ensures Lists(v.kids, n.ptrVec, keys)
    ensures forall b :: b in v.kids ==> b in keys
  {
    keys := PtrVecLists(n, v, |n.ptrVec|);
    assert n.ptrVec[..|n.ptrVec|] == n.ptrVec;
    forall b | b in v.kids
      ensures b in keys
    {
      RankOrder(PtrBits(n), Val(b), Val(b));
      var i := Count(PtrBits(n)[..Val(b)]);
      SelectRank(PtrBits(n), Val(b));
      ValInjective(keys[i], b);
    }
  }

  lemma NotYet(b: seq<bool>, len: nat, next: nat)
    requires |b| < len && next < Pow2(len - |b|)
    ensures !Before(b, b + ToBits(next, len - |b|), len, next)
    ensures b + ToBits(next, len - |b|) != b
  {
    var t := ToBits(next, len - |b|);
    ValToBits(next, len - |b|);
    assert (b + t)[|b|..] == t;
  }
}
