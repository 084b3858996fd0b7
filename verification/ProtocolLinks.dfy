/** No pointer bit dangles: it leads to a stored node, or some call is storing that node. */
module ProtocolLinks {
  import opened Bits
  import opened Af
  import opened Stride
  import opened Chain
  import opened PrefixStores
  import opened Protocol
  import opened ProtocolInv
  import opened ProtocolSteps
  import opened ProtocolRuns

  /** The call is about to store the node. */
  predicate Storing<M>(pc: Pc<M>, nid: PrefixId) {
    (pc.StoreNode? || pc.StoreCas?) && pc.id == nid
  }

  predicate NodeStored<M>(s: State<M>, nid: PrefixId) {
    exists p :: p in s.nodes && s.nodes[p].prefix == nid
  }

  ghost predicate BeingStored<M>(s: State<M>, nid: PrefixId) {
    exists u {:trigger s.calls[u]} :: 0 <= u < |s.calls| && Storing(s.calls[u].pc, nid)
  }

  /** Every node that is pointed to is stored, or being stored. */
  ghost predicate NoDangling<M>(c: Config<M>, s: State<M>)
    requires ConfigOk(c)
  {
    forall nid, level :: Linked(c, s, nid, level) ==> NodeStored(s, nid) || BeingStored(s, nid)
  }

  // ----- What a step links ---------------------------------------------------------------------------------

  lemma StoredStays<M>(c: Config<M>, s: State<M>, s': State<M>, nid: PrefixId)
    requires ConfigOk(c) && Grows(c, s, s') && NodeStored(s, nid)
    ensures NodeStored(s', nid)
  {
    hide BitsGrow, ConfigOk;
    var p :| p in s.nodes && s.nodes[p].prefix == nid;
    assert p in s'.nodes && s'.nodes[p].prefix == nid;
  }

  /** What was stored or being stored still is, unless the one call that moves drops it. */
  lemma StillLeads<M>(c: Config<M>, s: State<M>, s': State<M>, t: nat, nid: PrefixId)
    requires ConfigOk(c) && Grows(c, s, s') && OnlyMoves(s, s', t)
    requires NodeStored(s, nid) || BeingStored(s, nid)
    requires Storing(s.calls[t].pc, nid) ==> Storing(s'.calls[t].pc, nid) || NodeStored(s', nid)
    ensures NodeStored(s', nid) || BeingStored(s', nid)
  {
    hide Grows, ConfigOk, NodeStored, Storing;
    if NodeStored(s, nid) {
      StoredStays(c, s, s', nid);
    } else {
      var u :| 0 <= u < |s.calls| && Storing(s.calls[u].pc, nid);
      assert Storing(s'.calls[u].pc, nid) || NodeStored(s', nid);
    }
  }

  /** A step that links nothing new, and stores what its call was storing unless it goes on storing it. */
  lemma LinksStay<M>(c: Config<M>, s: State<M>, s': State<M>, t: nat)
    requires ConfigOk(c) && NoDangling(c, s) && Grows(c, s, s') && OnlyMoves(s, s', t)
    requires forall nid, level :: Linked(c, s', nid, level) ==> Linked(c, s, nid, level) || Storing(s'.calls[t].pc, nid)
    requires forall nid :: Storing(s.calls[t].pc, nid) ==> Storing(s'.calls[t].pc, nid) || NodeStored(s', nid)
    ensures NoDangling(c, s')
  {
    hide Grows, ConfigOk, NodeStored, Storing, Linked, BeingStored;
    forall nid, level | Linked(c, s', nid, level)
      ensures NodeStored(s', nid) || BeingStored(s', nid)
    {
      if Linked(c, s, nid, level) {
        StillLeads(c, s, s', t, nid);
      } else {
        MoverStores(s', t, nid);
      }
    }
  }

  lemma MoverStores<M>(s: State<M>, t: nat, nid: PrefixId)
    requires t < |s.calls| && Storing(s.calls[t].pc, nid)
    ensures BeingStored(s, nid)
  {
  }

  /** Links depend on the nodes only. */
  lemma SameNodes<M>(c: Config<M>, s: State<M>, s': State<M>, nid: PrefixId, level: nat)
    requires ConfigOk(c) && s'.root == s.root && s'.nodes == s.nodes && Linked(c, s', nid, level)
    ensures Linked(c, s, nid, level)
  {
    hide PtrSet, FullNibble, Cleaned, GoodId, ConfigOk;
    var place :| HasNode(s', place) && LinkedBy(c, s', nid, level, place);
    assert HasNode(s, place) && LinkedBy(c, s, nid, level, place);
  }

  /** A new node has no pointer bits. */
  lemma NewNodeLinks<M>(c: Config<M>, s: State<M>, s': State<M>, slot: Slot, nid: PrefixId, level: nat)
    requires ConfigOk(c) && s'.root == s.root && slot !in s.nodes && slot in s'.nodes
    requires s'.nodes == s.nodes[slot := s'.nodes[slot]]
    requires forall nibble :: !PtrSet(c, s'.nodes[slot].meta, nibble)
    requires Linked(c, s', nid, level)
    ensures Linked(c, s, nid, level)
  {
    hide PtrSet, FullNibble, Cleaned, GoodId, ConfigOk;
    var place :| HasNode(s', place) && LinkedBy(c, s', nid, level, place);
    assert place != At(slot);
    assert HasNode(s, place) && LinkedBy(c, s, nid, level, place);
  }

  /** The bitmap swapped in has the pointer bits it had, and the one of the nibble. */
  lemma OnlyPtrBit<M>(c: Config<M>, id: PrefixId, level: nat, b: NodeBits, nibble: nat)
    requires ConfigOk(c) && LevelOk(c, id, level) && !IsLast(c, id, level) && BitsOk(c, b) && b.level == level
    ensures var b' := b.(ptrbitarr := WithPtrBit(c, id, level, b.ptrbitarr));
      PtrSet(c, b', nibble) ==> PtrSet(c, b, nibble) || nibble == Nibble(c, id, level)
  {
    hide Pow2, BitOr, IntoStrideSize, IntoPtrSize, GetBitPos, AllBits, GetNibble, Fits;
    SetPtrBit(c.strides[level], b.ptrbitarr, Nibble(c, id, level));
  }

  lemma SameBits(bits: nat, x: nat, y: nat, off: nat, stride: nat)
    requires x < Pow2(bits) && y < Pow2(bits) && 0 < stride && off + stride <= bits
    requires TruncateToLen(bits, x, off) == TruncateToLen(bits, y, off)
    requires GetNibble(bits, x, off, stride) == GetNibble(bits, y, off, stride)
    ensures ToBits(x, bits)[..off + stride] == ToBits(y, bits)[..off + stride]
  {
    hide TruncateToLen, GetNibble, Pow2, ToBits, Key, Val;
    TruncateIsKeyPrefix(bits, x, off);
    TruncateIsKeyPrefix(bits, y, off);
    NibbleIsSlice(bits, x, off, stride);
    NibbleIsSlice(bits, y, off, stride);
    var kx, ky := ToBits(x, bits), ToBits(y, bits);
    ValInjective(kx[off..off + stride], ky[off..off + stride]);
    assert kx[..off + stride] == kx[..off] + kx[off..off + stride];
    assert ky[..off + stride] == ky[..off] + ky[off..off + stride];
  }

  /** A child is determined by its parent and its nibble there. */
  lemma ChildDetermined<M>(c: Config<M>, x: PrefixId, y: PrefixId, level: nat)
    requires ConfigOk(c) && level < |c.strides| && GoodId(c.bits, x) && GoodId(c.bits, y)
    requires x.len == y.len == Offset(c.strides, level + 1) && Offset(c.strides, level) <= c.bits
    requires Cleaned(c.bits, x.net, Offset(c.strides, level)) == Cleaned(c.bits, y.net, Offset(c.strides, level))
    requires FullNibble(c, x, level) == FullNibble(c, y, level)
    ensures x == y
  {
    hide TruncateToLen, GetNibble, Pow2, ToBits, GoodTable;
    LevelWithin(c, level);
    SameBits(c.bits, x.net, y.net, Offset(c.strides, level), c.strides[level]);
    KeyInjective(c.bits, x, y);
  }

  /** Swapping in other bits of one node links what was linked, and what the new pointer bits of that node lead to. */
  lemma BitsLink<M>(c: Config<M>, s: State<M>, place: Place, b: NodeBits, x: PrefixId, level: nat)
    requires ConfigOk(c) && HasNode(s, place) && Linked(c, WithBits(s, place, b), x, level)
    requires b.level == BitsAt(s, place).level
    ensures 0 < level < |c.strides| && x.net < Pow2(c.bits) && Offset(c.strides, level - 1) <= c.bits
    ensures Linked(c, s, x, level)
      || (IsNodeAt(s, place, Cleaned(c.bits, x.net, Offset(c.strides, level - 1)), level - 1)
          && PtrSet(c, b, FullNibble(c, x, level - 1)) && !PtrSet(c, BitsAt(s, place), FullNibble(c, x, level - 1)))
  {
    hide PtrSet, FullNibble, Cleaned, GoodRow, TruncateToLen;
    var m := WithBits(s, place, b);
    LevelWithin(c, level - 1);
    var p :| HasNode(m, p) && LinkedBy(c, m, x, level, p);
    if p != place || PtrSet(c, BitsAt(s, place), FullNibble(c, x, level - 1)) {
      assert HasNode(s, p) && LinkedBy(c, s, x, level, p);
    }
  }

  lemma SameNode<M>(s: State<M>, place: Place, x: PrefixId, y: PrefixId, d: nat, e: nat)
    requires IsNodeAt(s, place, x, d) && IsNodeAt(s, place, y, e)
    ensures x == y && d == e
  {
  }

  /** The one new pointer bit leads to the node that the call goes on to store. */
  lemma CasPtrLinks<M>(c: Config<M>, s: State<M>, id: PrefixId, level: nat, cur: PrefixId, place: Place, b: NodeBits,
                       x: PrefixId, d: nat)
    requires ConfigOk(c) && AtLevel(c, id, level, cur) && IsNodeAt(s, place, cur, level) && !IsLast(c, id, level)
    requires b.level == level && Linked(c, WithBits(s, place, b), x, d)
    requires forall nibble :: PtrSet(c, b, nibble) ==>
      PtrSet(c, BitsAt(s, place), nibble) || nibble == Nibble(c, id, level)
    ensures Offset(c.strides, level + 1) <= c.bits
    ensures Linked(c, s, x, d) || x == Cleaned(c.bits, id.net, Offset(c.strides, level + 1))
  {
    hide PtrSet, FullNibble, Nibble, GoodRow, TruncateToLen, IsNodeAt, IsLast, LinkedBy, WithBits, BitsAt;
    IsNodeHere(s, place, cur, level);
    LevelWithin(c, level);
    BitsLink(c, s, place, b, x, d);
    if !Linked(c, s, x, d) {
      SameNode(s, place, cur, Cleaned(c.bits, x.net, Offset(c.strides, d - 1)), level, d - 1);
      var child := Cleaned(c.bits, id.net, Offset(c.strides, level + 1));
      ChildId(c, id, level);
      CleanTwice(c.bits, id.net, Offset(c.strides, level + 1), Offset(c.strides, level));
      ChildDetermined(c, x, child, level);
    }
  }

  lemma CasPtrStepLinks<M>(c: Config<M>, s: State<M>, t: nat, level: nat, cur: PrefixId, place: Place, seen: Bitmap)
    requires Inv(c, s) && Shaped(c, s, t) && s.calls[t].pc == CasPtr(level, cur, place, seen)
    requires ConfigOk(c) && NoDangling(c, s)
    ensures NoDangling(c, Step(c, s, t))
  {
    hide Inv, NoDangling, Linked, WithPtrBit, PtrSet, PfxSet, Nibble, Fits, Pow2, Grows,
         TruncateToLen, GoodRow, WithBits, BitsAt, BitsOk, LevelOk, AtLevel, IsNodeAt, IsLast, HasNode, Step;
    StepKeeps(c, s, t);
    CallAt(c, s, t);
    EvaluatingIsOk(c, s, t);
    CasPtrMoves(c, s, t, level, cur, place, seen);
    var s' := Step(c, s, t);
    forall x, d | Linked(c, s', x, d)
      ensures Linked(c, s, x, d) || Storing(s'.calls[t].pc, x)
    {
      CasPtrNewLink(c, s, t, level, cur, place, seen, x, d);
    }
    LinksStay(c, s, s', t);
  }

  lemma CasPtrMoves<M>(c: Config<M>, s: State<M>, t: nat, level: nat, cur: PrefixId, place: Place, seen: Bitmap)
    requires Shaped(c, s, t) && s.calls[t].pc == CasPtr(level, cur, place, seen)
    ensures OnlyMoves(s, Step(c, s, t), t)
  {
    hide ConfigOk, LevelOk, BitsOk, WithPtrBit, Zero, Cleaned, IsLast, BitsAt, Fits;
  }

  lemma CasPtrNewLink<M>(c: Config<M>, s: State<M>, t: nat, level: nat, cur: PrefixId, place: Place, seen: Bitmap,
                         x: PrefixId, d: nat)
    requires Shaped(c, s, t) && s.calls[t].pc == CasPtr(level, cur, place, seen) && ConfigOk(c)
    requires AtLevel(c, s.calls[t].rec.id, level, cur) && IsNodeAt(s, place, cur, level)
    requires HasNode(s, place) && BitsOk(c, BitsAt(s, place))
    requires Linked(c, Step(c, s, t), x, d)
    ensures Linked(c, s, x, d) || Storing(Step(c, s, t).calls[t].pc, x)
  {
    hide Linked, WithPtrBit, PtrSet, PfxSet, Nibble, Fits, Pow2, TruncateToLen, GoodRow,
         WithBits, BitsAt, BitsOk, IsLast;
    var id, b, s' := s.calls[t].rec.id, BitsAt(s, place), Step(c, s, t);
    LevelWithin(c, level);
    if b.ptrbitarr == seen {
      forall nibble
        ensures PtrSet(c, b.(ptrbitarr := WithPtrBit(c, id, level, seen)), nibble)
          ==> PtrSet(c, b, nibble) || nibble == Nibble(c, id, level)
      {
        OnlyPtrBit(c, id, level, b, nibble);
      }
      var b' := b.(ptrbitarr := WithPtrBit(c, id, level, seen));
      var m := WithBits(s, place, b');
      SameNodes(c, m, s', x, d);
      CasPtrLinks(c, s, id, level, cur, place, b', x, d);
    } else {
      SameNodes(c, s, s', x, d);
    }
  }

  lemma CasPfxStepLinks<M>(c: Config<M>, s: State<M>, t: nat, level: nat, cur: PrefixId, place: Place, seen: Bitmap)
    requires Inv(c, s) && Shaped(c, s, t) && s.calls[t].pc == CasPfx(level, cur, place, seen)
    requires ConfigOk(c) && NoDangling(c, s)
    ensures NoDangling(c, Step(c, s, t))
  {
    hide Inv, NoDangling, Linked, BitOr, BitPos, PtrSet, PfxSet, Nibble, Fits, Pow2, Grows, TruncateToLen, GoodRow,
         WithBits, BitsAt, BitsOk, LevelOk, AtLevel, IsNodeAt, IsLast, HasNode, Step;
    StepKeeps(c, s, t);
    CallAt(c, s, t);
    EvaluatingIsOk(c, s, t);
    CasPfxMoves(c, s, t, level, cur, place, seen);
    var s' := Step(c, s, t);
    forall x, d | Linked(c, s', x, d)
      ensures Linked(c, s, x, d)
    {
      CasPfxNoLink(c, s, t, level, cur, place, seen, x, d);
    }
    LinksStay(c, s, s', t);
  }

  lemma CasPfxMoves<M>(c: Config<M>, s: State<M>, t: nat, level: nat, cur: PrefixId, place: Place, seen: Bitmap)
    requires Shaped(c, s, t) && s.calls[t].pc == CasPfx(level, cur, place, seen)
    ensures OnlyMoves(s, Step(c, s, t), t)
  {
    hide ConfigOk, LevelOk, BitsOk, BitOr, BitPos, BitsAt, Fits;
  }

  lemma CasPfxNoLink<M>(c: Config<M>, s: State<M>, t: nat, level: nat, cur: PrefixId, place: Place, seen: Bitmap,
                        x: PrefixId, d: nat)
    requires Shaped(c, s, t) && s.calls[t].pc == CasPfx(level, cur, place, seen) && ConfigOk(c)
    requires HasNode(s, place) && BitsOk(c, BitsAt(s, place)) && Linked(c, Step(c, s, t), x, d)
    ensures Linked(c, s, x, d)
  {
    hide Linked, BitOr, BitPos, PfxSet, Nibble, Pow2, TruncateToLen, GoodRow, WithBits, BitsAt;
    var id, b, s' := s.calls[t].rec.id, BitsAt(s, place), Step(c, s, t);
    if b.pfxbitarr == seen {
      var b' := b.(pfxbitarr := BitOr(BitPos(c, id, level), seen));
      SameNodes(c, WithBits(s, place, b'), s', x, d);
      BitsLink(c, s, place, b', x, d);
    } else {
      SameNodes(c, s, s', x, d);
    }
  }

  /** A step that leaves the nodes alone, and does not stop storing a node before it is stored. */
  lemma SameNodesStay<M>(c: Config<M>, s: State<M>, s': State<M>, t: nat)
    requires ConfigOk(c) && NoDangling(c, s) && Grows(c, s, s') && OnlyMoves(s, s', t)
    requires s'.root == s.root && s'.nodes == s.nodes
    requires forall nid :: Storing(s.calls[t].pc, nid) ==> Storing(s'.calls[t].pc, nid) || NodeStored(s', nid)
    ensures NoDangling(c, s')
  {
    hide Grows, ConfigOk, NodeStored, Storing, Linked, NoDangling;
    forall x, d | Linked(c, s', x, d)
      ensures Linked(c, s, x, d)
    {
      SameNodes(c, s, s', x, d);
    }
    LinksStay(c, s, s', t);
  }

  lemma StoredHere<M>(s: State<M>, p: Slot)
    requires p in s.nodes
    ensures NodeStored(s, s.nodes[p].prefix)
  {
  }

  lemma StoreStepLinks<M>(c: Config<M>, s: State<M>, t: nat, level: nat, nid: PrefixId, depth: nat)
    requires Inv(c, s) && Shaped(c, s, t) && s.calls[t].pc == StoreNode(level, nid, depth)
    requires ConfigOk(c) && NoDangling(c, s)
    ensures NoDangling(c, Step(c, s, t))
    ensures !Storing(Step(c, s, t).calls[t].pc, nid) ==> NodeStored(Step(c, s, t), nid)
  {
    hide Inv, NoDangling, MemoryOk, Grows, Linked, SlotsOk, SlotAt, TruncateToLen, GoodRow, PathOf, HasBucket,
         TakenBefore, LevelOk, NodeStored, BitsForLen;
    StepKeeps(c, s, t);
    CallAt(c, s, t);
    InvMemory(c, s);
    NodeSlots(c, s);
    WayDown(c.bits, c.nodeTable, s.nodes, nid, depth);
    var slot := SlotAt(c.bits, c.nodeTable, nid, depth);
    var s' := Step(c, s, t);
    if slot in s.nodes && s.nodes[slot].prefix == nid { StoredHere(s', slot); }
    SameNodesStay(c, s, s', t);
  }

  lemma StoreCasStepLinks<M>(c: Config<M>, s: State<M>, t: nat, level: nat, nid: PrefixId, depth: nat)
    requires Inv(c, s) && Shaped(c, s, t) && s.calls[t].pc == StoreCas(level, nid, depth)
    requires ConfigOk(c) && NoDangling(c, s)
    ensures NoDangling(c, Step(c, s, t))
    ensures !Storing(Step(c, s, t).calls[t].pc, nid) ==> NodeStored(Step(c, s, t), nid)
  {
    hide Inv, NoDangling, MemoryOk, Grows, Linked, SlotAt, TruncateToLen, GoodRow, LevelOk, NodeStored, BitsForLen,
         EmptyBits, PtrSet;
    StepKeeps(c, s, t);
    RowGrows(c.bits, c.nodeTable, nid.len, depth);
    var slot := SlotAt(c.bits, c.nodeTable, nid, depth);
    var s' := Step(c, s, t);
    if slot in s.nodes {
      SameNodesStay(c, s, s', t);
    } else {
      StoredHere(s', slot);
      forall x, d | Linked(c, s', x, d)
        ensures Linked(c, s, x, d)
      {
        forall nibble
          ensures !PtrSet(c, s'.nodes[slot].meta, nibble)
        {
          EmptyHasNoPtr(c, level + 1, nibble);
        }
        NewNodeLinks(c, s, s', slot, x, d);
      }
      LinksStay(c, s, s', t);
    }
  }

  lemma OtherStepLinks<M>(c: Config<M>, s: State<M>, t: nat)
    requires Inv(c, s) && t < |s.calls| && Shaped(c, s, t) && ConfigOk(c) && NoDangling(c, s)
    requires var pc := s.calls[t].pc; !pc.CasPtr? && !pc.CasPfx? && !pc.StoreNode? && !pc.StoreCas?
    ensures NoDangling(c, Step(c, s, t))
  {
    hide Inv, NoDangling, Grows, Step, Shaped, NodeStored;
    StepKeeps(c, s, t);
    OnlyReadsNodes(c, s, t);
    SameNodesStay(c, s, Step(c, s, t), t);
  }

  /** The nodes are as they were, and only call t has moved. */
  ghost predicate NodesAlike<M>(s: State<M>, s': State<M>, t: nat) {
    OnlyMoves(s, s', t) && s'.root == s.root && s'.nodes == s.nodes
  }

  lemma LooksAtNodes<M>(c: Config<M>, s: State<M>, t: nat)
    requires Shaped(c, s, t) && (s.calls[t].pc.Start? || s.calls[t].pc.Retrieve? || s.calls[t].pc.Eval?)
    ensures NodesAlike(s, Step(c, s, t), t)
  {
    hide ConfigOk, GoodId, BitsOk, LevelOk, NodeSlotOk, SlotAt, BitAnd, IntoStrideSize, BitPos, Zero, Cleaned,
         HasBucket, IsLast, BitsForLen, PathOf, HasNode, BitsAt;
  }

  lemma LooksAtPrefixes<M>(c: Config<M>, s: State<M>, t: nat)
    requires Shaped(c, s, t) && !BeforeUpsert(s.calls[t].pc)
    ensures NodesAlike(s, Step(c, s, t), t)
  {
    hide ConfigOk, GoodId, SlotAt, HasBucket, NewStored, BitsForLen, PathOf;
  }

  lemma OnlyReadsNodes<M>(c: Config<M>, s: State<M>, t: nat)
    requires Shaped(c, s, t)
    requires var pc := s.calls[t].pc; !pc.CasPtr? && !pc.CasPfx? && !pc.StoreNode? && !pc.StoreCas?
    ensures NodesAlike(s, Step(c, s, t), t)
  {
    hide Step, NodesAlike;
    if BeforeUpsert(s.calls[t].pc) { LooksAtNodes(c, s, t); } else { LooksAtPrefixes(c, s, t); }
  }

  /** No step of any call leaves a pointer bit dangling. */
  lemma LinksStep<M>(c: Config<M>, s: State<M>, t: nat)
    requires Inv(c, s) && t < |s.calls| && Shaped(c, s, t) && ConfigOk(c) && NoDangling(c, s)
    ensures NoDangling(c, Step(c, s, t))
  {
    hide Inv, NoDangling, Step, Shaped, ConfigOk;
    match s.calls[t].pc
    case CasPtr(level, cur, place, seen) => CasPtrStepLinks(c, s, t, level, cur, place, seen);
    case CasPfx(level, cur, place, seen) => CasPfxStepLinks(c, s, t, level, cur, place, seen);
    case StoreNode(level, nid, depth) => StoreStepLinks(c, s, t, level, nid, depth);
    case StoreCas(level, nid, depth) => StoreCasStepLinks(c, s, t, level, nid, depth);
    case _ => OtherStepLinks(c, s, t);
  }

  // ----- Whole runs -------------------------------------------------------------------------------------------

  lemma {:induction false} LinksRun<M>(c: Config<M>, s: State<M>, schedule: seq<nat>)
    requires Inv(c, s) && ConfigOk(c) && NoDangling(c, s) && IsSchedule(s, schedule)
    ensures CanRun(c, s, schedule) && NoDangling(c, After(c, s, schedule))
    decreases |schedule|
  {
    hide Inv, NoDangling, ConfigOk, Shaped, Step, Grows;
    if schedule != [] {
      StepKeeps(c, s, schedule[0]);
      LinksStep(c, s, schedule[0]);
      LinksRun(c, Step(c, s, schedule[0]), schedule[1..]);
    }
  }

  lemma InitialLinks<M>(c: Config<M>, s: State<M>)
    requires Initial(c, s)
    ensures ConfigOk(c) && NoDangling(c, s)
  {
    hide PtrSet, Linked, GoodRow;
    forall nid, level
      ensures !Linked(c, s, nid, level)
    {
      NothingLinked(c, s, nid, level);
    }
  }

  lemma NothingLinked<M>(c: Config<M>, s: State<M>, nid: PrefixId, level: nat)
    requires Initial(c, s)
    ensures ConfigOk(c) && !Linked(c, s, nid, level)
  {
    hide PtrSet, GoodTable, Cleaned, GoodId;
    if Linked(c, s, nid, level) {
      var place :| HasNode(s, place) && LinkedBy(c, s, nid, level, place);
      EmptyHasNoPtr(c, 0, FullNibble(c, nid, level - 1));
    }
  }

  /** In every reachable state, every pointer bit leads to a stored node, or some call is storing that node. */
  lemma BitsLead<M>(c: Config<M>, s: State<M>, schedule: seq<nat>, nid: PrefixId, level: nat)
    requires Initial(c, s) && IsSchedule(s, schedule)
    ensures CanRun(c, s, schedule) && ConfigOk(c)
    ensures var s' := After(c, s, schedule);
      Linked(c, s', nid, level) ==> NodeStored(s', nid) || BeingStored(s', nid)
  {
    hide Initial, Inv, ConfigOk, Linked, NodeStored, BeingStored;
    InitialIsOk(c, s);
    InitialLinks(c, s);
    LinksRun(c, s, schedule);
  }

  /** So when all calls are done, the pointer bits name exactly the stored nodes. */
  lemma DoneLeavesNoDangling<M>(c: Config<M>, s: State<M>, schedule: seq<nat>, nid: PrefixId)
    requires Initial(c, s) && IsSchedule(s, schedule)
    ensures CanRun(c, s, schedule) && ConfigOk(c)
    ensures var s' := After(c, s, schedule);
      (forall t :: 0 <= t < |s'.calls| ==> s'.calls[t].pc.Done?) ==>
        (NodeStored(s', nid) <==> exists level :: Linked(c, s', nid, level))
  {
    hide Initial, Inv, ConfigOk, Linked;
    InitialIsOk(c, s);
    RunKeeps(c, s, schedule);
    var s' := After(c, s, schedule);
    InvMemory(c, s');
    if NodeStored(s', nid) {
      var p :| p in s'.nodes && s'.nodes[p].prefix == nid;
      NodeLinked(c, s', p);
    }
    if exists level :: Linked(c, s', nid, level) {
      var level :| Linked(c, s', nid, level);
      BitsLead(c, s, schedule, nid, level);
    }
  }

  lemma NodeLinked<M>(c: Config<M>, s: State<M>, p: Slot)
    requires MemoryOk(c, s) && p in s.nodes
    ensures ConfigOk(c) && Linked(c, s, s.nodes[p].prefix, s.nodes[p].meta.level)
  {
    hide Linked, Hosted, SlotsOk;
    assert NodeOk(c, s, p);
  }

  /** A call that has stored its node leaves it stored, and every later lookup finds it. */
  lemma StoredWhenOk<M>(c: Config<M>, s: State<M>, t: nat, nid: PrefixId, schedule: seq<nat>)
    requires Inv(c, s) && ConfigOk(c) && NoDangling(c, s) && t < |s.calls| && Shaped(c, s, t)
    requires IsSchedule(s, schedule)
    requires Storing(s.calls[t].pc, nid) && !Storing(Step(c, s, t).calls[t].pc, nid)
    ensures NodeStored(Step(c, s, t), nid)
    ensures CanRun(c, Step(c, s, t), schedule)
    ensures GoodId(c.bits, nid) && 0 < |c.nodeTable[nid.len]|
    ensures SearchLevel(c.bits, c.nodeTable, After(c, Step(c, s, t), schedule).nodes, nid, 0).Some?
  {
    hide Inv, NoDangling, ConfigOk, Step, Shaped, SearchLevel, GoodId, Grows;
    StepKeeps(c, s, t);
    if s.calls[t].pc.StoreNode? {
      StoreStepLinks(c, s, t, s.calls[t].pc.level, nid, s.calls[t].pc.depth);
    } else {
      StoreCasStepLinks(c, s, t, s.calls[t].pc.level, nid, s.calls[t].pc.depth);
    }
    var p :| p in Step(c, s, t).nodes && Step(c, s, t).nodes[p].prefix == nid;
    StaysRetrievable(c, Step(c, s, t), schedule, p);
  }
}
