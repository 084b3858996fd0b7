/** No step puts a node or a bit into the tree of the concurrent store that no insert asked for. */
module ProtocolTree {
  import opened Bits
  import opened Af
  import opened Stride
  import opened Chain
  import opened PrefixStores
  import opened Protocol
  import opened ProtocolInv
  import opened ProtocolSteps
  import opened ProtocolRuns
  import opened ProtocolLinks
  import opened ProtocolTries

  /** The call is through with the tree, and did not give up there. */
  predicate PastTree<M>(pc: Pc<M>) {
    !BeforeUpsert(pc) && pc != Done(NodeCreationMaxRetryError)
  }

  function IdAt<M>(s: State<M>, place: Place): PrefixId
    requires HasNode(s, place)
  {
    if place.Root? then PrefixId(0, 0) else s.nodes[place.slot].prefix
  }

  /** Call t is through with the tree, and its prefix is the nibble of the node at the place. */
  ghost predicate SetBy<M>(c: Config<M>, s: State<M>, t: nat, place: Place, nibble: nat, len: nat)
    requires ConfigOk(c) && HasNode(s, place)
  {
    t < |s.calls| && PastTree(s.calls[t].pc)
    && HostsAt(c, s.calls[t].rec.id, BitsAt(s, place).level, IdAt(s, place), nibble, len)
  }

  /** The prefix ends at the nibble of the node of that level and id. */
  ghost predicate HostsAt<M>(c: Config<M>, id: PrefixId, level: nat, cur: PrefixId, nibble: nat, len: nat)
    requires ConfigOk(c)
  {
    && AtLevel(c, id, level, cur) && IsLast(c, id, level)
    && nibble == Nibble(c, id, level) && len == NibbleLen(c, id, level)
  }

  /** Every prefix bit of every node was set by the insert of that prefix. */
  ghost predicate BitsEarned<M>(c: Config<M>, s: State<M>)
    requires ConfigOk(c)
  {
    forall place, nibble: nat, len: nat ::
      HasNode(s, place) && nibble < Pow2(len) && PfxSet(c, BitsAt(s, place), nibble, len) ==>
        exists t: nat :: SetBy(c, s, t, place, nibble, len)
  }

  /** A call that is through with the tree has its prefix hosted. */
  ghost predicate PastHosted<M>(c: Config<M>, s: State<M>)
    requires ConfigOk(c)
  {
    forall t :: 0 <= t < |s.calls| && PastTree(s.calls[t].pc) ==> Hosted(c, s, s.calls[t].rec.id)
  }

  /** The prefix of some call goes beyond the node. */
  ghost predicate Needed<M>(c: Config<M>, calls: seq<Call<M>>, nid: PrefixId)
    requires ConfigOk(c)
  {
    exists t, level :: 0 <= t < |calls| && 0 < level && AtLevel(c, calls[t].rec.id, level, nid)
  }

  ghost predicate NodesNeeded<M>(c: Config<M>, s: State<M>)
    requires ConfigOk(c)
  {
    forall p :: p in s.nodes ==> Needed(c, s.calls, s.nodes[p].prefix)
  }

  /** Call t's prefix goes beyond the node at the place, by way of the nibble. */
  ghost predicate LedBy<M>(c: Config<M>, s: State<M>, t: nat, place: Place, nibble: nat)
    requires ConfigOk(c) && HasNode(s, place)
  {
    t < |s.calls| && PassesAt(c, s.calls[t].rec.id, BitsAt(s, place).level, IdAt(s, place), nibble)
  }

  ghost predicate PassesAt<M>(c: Config<M>, id: PrefixId, level: nat, cur: PrefixId, nibble: nat)
    requires ConfigOk(c)
  {
    AtLevel(c, id, level, cur) && !IsLast(c, id, level) && nibble == Nibble(c, id, level)
  }

  /** Every pointer bit of every node was set for the prefix of some call. */
  ghost predicate PtrsEarned<M>(c: Config<M>, s: State<M>)
    requires ConfigOk(c)
  {
    forall place, nibble: nat :: HasNode(s, place) && PtrSet(c, BitsAt(s, place), nibble) ==>
      exists t: nat :: LedBy(c, s, t, place, nibble)
  }

  /** The nodes, and their bits, are ones that some call asked for. */
  ghost predicate NodesEarned<M>(c: Config<M>, s: State<M>)
    requires ConfigOk(c)
  {
    BitsEarned(c, s) && PtrsEarned(c, s) && NodesNeeded(c, s)
  }

  ghost predicate TreeOk<M>(c: Config<M>, s: State<M>)
    requires ConfigOk(c)
  {
    NodesEarned(c, s) && PastHosted(c, s)
  }

  // ----- What a step adds ----------------------------------------------------------------------------------

  lemma NeededStays<M>(c: Config<M>, s: State<M>, s': State<M>, nid: PrefixId)
    requires ConfigOk(c) && SameRecs(s, s') && Needed(c, s.calls, nid)
    ensures Needed(c, s'.calls, nid)
  {
    hide AtLevel, ConfigOk;
    var t, level :| 0 <= t < |s.calls| && 0 < level && AtLevel(c, s.calls[t].rec.id, level, nid);
    assert AtLevel(c, s'.calls[t].rec.id, level, nid);
  }

  /** No call that was through with the tree is sent back. */
  ghost predicate PastStay<M>(s: State<M>, s': State<M>) {
    SameRecs(s, s') && forall u :: 0 <= u < |s.calls| && PastTree(s.calls[u].pc) ==> PastTree(s'.calls[u].pc)
  }

  lemma SetByStays<M>(c: Config<M>, s: State<M>, s': State<M>, t: nat, place: Place, nibble: nat, len: nat)
    requires ConfigOk(c) && HasNode(s, place) && HasNode(s', place) && PastStay(s, s')
    requires BitsAt(s', place).level == BitsAt(s, place).level && IdAt(s', place) == IdAt(s, place)
    requires SetBy(c, s, t, place, nibble, len)
    ensures SetBy(c, s', t, place, nibble, len)
  {
    hide HostsAt, ConfigOk;
  }

  /** The places of the nodes keep their ids and levels, and get no prefix bits but those of call t's prefix. */
  lemma EarnedStays<M>(c: Config<M>, s: State<M>, s': State<M>, t: nat)
    requires ConfigOk(c) && BitsEarned(c, s) && PastStay(s, s')
    requires forall place :: HasNode(s', place) && HasNode(s, place) ==>
      BitsAt(s', place).level == BitsAt(s, place).level && IdAt(s', place) == IdAt(s, place)
    requires forall place, nibble: nat, len: nat ::
      HasNode(s', place) && nibble < Pow2(len) && PfxSet(c, BitsAt(s', place), nibble, len) ==>
        (HasNode(s, place) && PfxSet(c, BitsAt(s, place), nibble, len)) || SetBy(c, s', t, place, nibble, len)
    ensures BitsEarned(c, s')
  {
    hide PfxSet, SetBy, BitsAt, IdAt, Pow2, HasNode, PastStay, ConfigOk;
    forall place, nibble: nat, len: nat |
      HasNode(s', place) && nibble < Pow2(len) && PfxSet(c, BitsAt(s', place), nibble, len)
      ensures exists u: nat :: SetBy(c, s', u, place, nibble, len)
    {
      if !SetBy(c, s', t, place, nibble, len) {
        var u: nat :| SetBy(c, s, u, place, nibble, len);
        SetByStays(c, s, s', u, place, nibble, len);
      }
    }
  }

  lemma LedByStays<M>(c: Config<M>, s: State<M>, s': State<M>, t: nat, place: Place, nibble: nat)
    requires ConfigOk(c) && HasNode(s, place) && HasNode(s', place) && SameRecs(s, s')
    requires BitsAt(s', place).level == BitsAt(s, place).level && IdAt(s', place) == IdAt(s, place)
    requires LedBy(c, s, t, place, nibble)
    ensures LedBy(c, s', t, place, nibble)
  {
    hide PassesAt, ConfigOk;
  }

  lemma PtrsStay<M>(c: Config<M>, s: State<M>, s': State<M>, t: nat)
    requires ConfigOk(c) && PtrsEarned(c, s) && SameRecs(s, s')
    requires forall place :: HasNode(s', place) && HasNode(s, place) ==>
      BitsAt(s', place).level == BitsAt(s, place).level && IdAt(s', place) == IdAt(s, place)
    requires forall place, nibble: nat :: HasNode(s', place) && PtrSet(c, BitsAt(s', place), nibble) ==>
      (HasNode(s, place) && PtrSet(c, BitsAt(s, place), nibble)) || LedBy(c, s', t, place, nibble)
    ensures PtrsEarned(c, s')
  {
    hide PtrSet, LedBy, BitsAt, IdAt, HasNode, SameRecs, ConfigOk;
    forall place, nibble: nat | HasNode(s', place) && PtrSet(c, BitsAt(s', place), nibble)
      ensures exists u: nat :: LedBy(c, s', u, place, nibble)
    {
      if !LedBy(c, s', t, place, nibble) {
        var u: nat :| LedBy(c, s, u, place, nibble);
        LedByStays(c, s, s', u, place, nibble);
      }
    }
  }

  lemma PastHostedStays<M>(c: Config<M>, s: State<M>, s': State<M>, t: nat)
    requires Inv(c, s') && ConfigOk(c) && PastHosted(c, s) && Grows(c, s, s') && OnlyMoves(s, s', t)
    requires PastTree(s'.calls[t].pc) ==> PastTree(s.calls[t].pc) || s'.calls[t].pc == Lookup(0)
    ensures PastHosted(c, s')
  {
    hide Inv, Hosted, Grows, ConfigOk, PastTree;
    forall u | 0 <= u < |s'.calls| && PastTree(s'.calls[u].pc)
      ensures Hosted(c, s', s'.calls[u].rec.id)
    {
      if PastTree(s.calls[u].pc) {
        HostedGrows(c, s, s', s.calls[u].rec.id);
      } else {
        CallAt(c, s', u);
        LookupHosted(c, s', s'.calls[u].rec.id);
      }
    }
  }

  lemma LookupHosted<M>(c: Config<M>, s: State<M>, id: PrefixId)
    requires ConfigOk(c) && CallOk(c, s, id, Lookup(0))
    ensures Hosted(c, s, id)
  {
    hide Hosted, TakenBefore, GoodRow;
  }

  /** A call leaves the tree for the lookup of its prefix, or gives up; it does not come back. */
  lemma PastStep<M>(c: Config<M>, s: State<M>, t: nat)
    requires Inv(c, s) && t < |s.calls| && Shaped(c, s, t)
    ensures OnlyMoves(s, Step(c, s, t), t) && PastStay(s, Step(c, s, t))
    ensures var pc' := Step(c, s, t).calls[t].pc;
      PastTree(pc') ==> PastTree(s.calls[t].pc) || pc' == Lookup(0)
  {
    hide Inv, Shaped, Step, Grows;
    StepKeeps(c, s, t);
    if BeforeUpsert(s.calls[t].pc) {
      NodeStepsStay(c, s, t);
      CallAt(c, Step(c, s, t), t);
      NoBadEnd(c, Step(c, s, t), t);
    } else {
      UpsertStays(c, s, t);
    }
  }

  lemma NoBadEnd<M>(c: Config<M>, s: State<M>, t: nat)
    requires ConfigOk(c) && t < |s.calls| && CallOk(c, s, s.calls[t].rec.id, s.calls[t].pc)
    ensures var pc := s.calls[t].pc;
      pc != Done(NodeNotFound) && pc != Done(OutOfLevels) && pc != Done(MissingBucket)
  {
    hide ConfigOk, GoodId;
  }

  // ----- The steps that change nodes ------------------------------------------------------------------------------

  /** Swapping in bits that set no prefix bit but that of call t's prefix, and no pointer bit but its. */
  lemma WithBitsEarned<M>(c: Config<M>, s: State<M>, s': State<M>, t: nat, place: Place, b: NodeBits)
    requires ConfigOk(c) && NodesEarned(c, s) && PastStay(s, s') && HasNode(s, place)
    requires var m := WithBits(s, place, b); s'.root == m.root && s'.nodes == m.nodes
    requires b.level == BitsAt(s, place).level
    requires forall nibble: nat, len: nat :: nibble < Pow2(len) && PfxSet(c, b, nibble, len) ==>
      PfxSet(c, BitsAt(s, place), nibble, len) || SetBy(c, s', t, place, nibble, len)
    requires forall nibble: nat :: PtrSet(c, b, nibble) ==>
      PtrSet(c, BitsAt(s, place), nibble) || LedBy(c, s', t, place, nibble)
    ensures NodesEarned(c, s')
  {
    hide PfxSet, PtrSet, SetBy, LedBy, Pow2, BitsEarned, PtrsEarned, Needed, ConfigOk;
    EarnedStays(c, s, s', t);
    PtrsStay(c, s, s', t);
    forall p | p in s'.nodes
      ensures Needed(c, s'.calls, s'.nodes[p].prefix)
    {
      NeededStays(c, s, s', s.nodes[p].prefix);
    }
  }

  /** The nodes are as they were. */
  lemma SameEarned<M>(c: Config<M>, s: State<M>, s': State<M>)
    requires ConfigOk(c) && NodesEarned(c, s) && PastStay(s, s')
    requires s'.root == s.root && s'.nodes == s.nodes
    ensures NodesEarned(c, s')
  {
    hide PfxSet, PtrSet, SetBy, LedBy, Pow2, BitsEarned, PtrsEarned, Needed, ConfigOk;
    EarnedStays(c, s, s', 0);
    PtrsStay(c, s, s', 0);
    forall p | p in s'.nodes
      ensures Needed(c, s'.calls, s'.nodes[p].prefix)
    {
      NeededStays(c, s, s', s.nodes[p].prefix);
    }
  }

  lemma NewEarned<M>(c: Config<M>, s: State<M>, s': State<M>, slot: Slot)
    requires ConfigOk(c) && NodesEarned(c, s) && PastStay(s, s')
    requires s'.root == s.root && slot !in s.nodes && slot in s'.nodes
    requires s'.nodes == s.nodes[slot := s'.nodes[slot]] && Needed(c, s'.calls, s'.nodes[slot].prefix)
    requires forall nibble: nat, len: nat :: !PfxSet(c, s'.nodes[slot].meta, nibble, len)
    requires forall nibble: nat :: !PtrSet(c, s'.nodes[slot].meta, nibble)
    ensures NodesEarned(c, s')
  {
    hide PfxSet, PtrSet, SetBy, LedBy, Pow2, BitsEarned, PtrsEarned, Needed, ConfigOk;
    EarnedStays(c, s, s', 0);
    PtrsStay(c, s, s', 0);
    forall p | p in s'.nodes
      ensures Needed(c, s'.calls, s'.nodes[p].prefix)
    {
      if p != slot { NeededStays(c, s, s', s.nodes[p].prefix); }
    }
  }

  lemma CasPtrEarned<M>(c: Config<M>, s: State<M>, t: nat, level: nat, cur: PrefixId, place: Place, seen: Bitmap)
    requires ConfigOk(c) && NodesEarned(c, s)
    requires Shaped(c, s, t) && s.calls[t].pc == CasPtr(level, cur, place, seen) && PastStay(s, Step(c, s, t))
    requires HasNode(s, place) && BitsOk(c, BitsAt(s, place))
    requires AtLevel(c, s.calls[t].rec.id, level, cur) && IsNodeAt(s, place, cur, level)
    requires !IsLast(c, s.calls[t].rec.id, level)
    ensures NodesEarned(c, Step(c, s, t))
  {
    hide WithPtrBit, Nibble, Pow2, TruncateToLen, GoodRow, NodesEarned, PastStay, PtrSet, AtLevel, BitsOk,
         ConfigOk, IsLast, Fits, AllBits;
    var id, b, s' := s.calls[t].rec.id, BitsAt(s, place), Step(c, s, t);
    if b.ptrbitarr == seen {
      var b' := b.(ptrbitarr := WithPtrBit(c, id, level, seen));
      forall nibble: nat | PtrSet(c, b', nibble)
        ensures PtrSet(c, b, nibble) || LedBy(c, s', t, place, nibble)
      {
        OnlyPtrBit(c, id, level, b, nibble);
      }
      PtrKeepsPfx(c, b, b');
      hide LedBy, SetBy, PfxSet;
      WithBitsEarned(c, s, s', t, place, b');
    } else {
      SameEarned(c, s, s');
    }
  }

  lemma PtrKeepsPfx<M>(c: Config<M>, b: NodeBits, b': NodeBits)
    requires ConfigOk(c) && BitsOk(c, b) && b'.level == b.level
    ensures b'.pfxbitarr == b.pfxbitarr ==>
      forall nibble: nat, len: nat :: PfxSet(c, b', nibble, len) ==> PfxSet(c, b, nibble, len)
    ensures b'.ptrbitarr == b.ptrbitarr ==> forall nibble: nat :: PtrSet(c, b', nibble) ==> PtrSet(c, b, nibble)
  {
    hide Pow2, Fits, AllBits, ConfigOk;
  }

  lemma CasPfxEarned<M>(c: Config<M>, s: State<M>, t: nat, level: nat, cur: PrefixId, place: Place, seen: Bitmap)
    requires ConfigOk(c) && NodesEarned(c, s)
    requires Shaped(c, s, t) && s.calls[t].pc == CasPfx(level, cur, place, seen) && PastStay(s, Step(c, s, t))
    requires HasNode(s, place) && BitsOk(c, BitsAt(s, place))
    requires AtLevel(c, s.calls[t].rec.id, level, cur) && IsNodeAt(s, place, cur, level)
    requires IsLast(c, s.calls[t].rec.id, level)
    ensures NodesEarned(c, Step(c, s, t))
  {
    hide BitOr, BitPos, Nibble, Pow2, TruncateToLen, GoodRow, NodesEarned, PastStay,
         ConfigOk, Fits, AllBits, PfxSet, AtLevel, NibbleLen, IsLast, BitsOk;
    var id, b, s' := s.calls[t].rec.id, BitsAt(s, place), Step(c, s, t);
    if b.pfxbitarr == seen {
      var b' := b.(pfxbitarr := BitOr(BitPos(c, id, level), seen));
      forall nibble: nat, len: nat | nibble < Pow2(len) && PfxSet(c, b', nibble, len)
        ensures PfxSet(c, b, nibble, len) || SetBy(c, s', t, place, nibble, len)
      {
        OnlyPfxBit(c, id, level, b, nibble, len);
      }
      PtrKeepsPfx(c, b, b');
      hide SetBy, LedBy, PtrSet;
      WithBitsEarned(c, s, s', t, place, b');
    } else {
      SameEarned(c, s, s');
    }
  }

  lemma StoreCasEarned<M>(c: Config<M>, s: State<M>, t: nat, level: nat, nid: PrefixId, depth: nat)
    requires ConfigOk(c) && NodesEarned(c, s)
    requires Shaped(c, s, t) && s.calls[t].pc == StoreCas(level, nid, depth) && PastStay(s, Step(c, s, t))
    requires StoringOk(c, s, s.calls[t].rec.id, level, nid, depth)
    ensures NodesEarned(c, Step(c, s, t))
  {
    hide Linked, SlotAt, TruncateToLen, GoodRow, LevelOk, BitsForLen, EmptyBits, PfxSet, PtrSet, NodesEarned,
         TakenBefore, PastStay;
    var slot, s' := SlotAt(c.bits, c.nodeTable, nid, depth), Step(c, s, t);
    RowGrows(c.bits, c.nodeTable, nid.len, depth);
    if slot in s.nodes {
      SameEarned(c, s, s');
    } else {
      forall nibble: nat, len: nat
        ensures !PfxSet(c, s'.nodes[slot].meta, nibble, len)
      {
        EmptyHasNoPfx(c, level + 1, nibble, len);
      }
      forall nibble: nat
        ensures !PtrSet(c, s'.nodes[slot].meta, nibble)
      {
        EmptyHasNoPtr(c, level + 1, nibble);
      }
      assert AtLevel(c, s'.calls[t].rec.id, level + 1, nid);
      assert Needed(c, s'.calls, nid);
      hide Needed;
      NewEarned(c, s, s', slot);
    }
  }

  /** No step adds a node or a prefix bit that no insert asked for. */
  lemma TreeStep<M>(c: Config<M>, s: State<M>, t: nat)
    requires Inv(c, s) && t < |s.calls| && Shaped(c, s, t) && ConfigOk(c) && TreeOk(c, s)
    ensures TreeOk(c, Step(c, s, t))
  {
    hide Inv, NodesEarned, PastHosted, Shaped, Step, ConfigOk, PastTree, PastStay, Grows, Linked,
         TakenBefore, AtLevel, IsNodeAt, IsLast, BitsOk, LevelOk, Fits, StoringOk;
    StepKeeps(c, s, t);
    PastStep(c, s, t);
    PastHostedStays(c, s, Step(c, s, t), t);
    CallAt(c, s, t);
    match s.calls[t].pc
    case CasPtr(level, cur, place, seen) =>
      EvaluatingIsOk(c, s, t);
      CasPtrEarned(c, s, t, level, cur, place, seen);
    case CasPfx(level, cur, place, seen) =>
      EvaluatingIsOk(c, s, t);
      CasPfxEarned(c, s, t, level, cur, place, seen);
    case StoreCas(level, nid, depth) => StoreCasEarned(c, s, t, level, nid, depth);
    case StoreNode(level, nid, depth) =>
      StoreOnlyReads(c, s, t);
      SameEarned(c, s, Step(c, s, t));
    case _ =>
      OnlyReadsNodes(c, s, t);
      SameEarned(c, s, Step(c, s, t));
  }

  lemma StoreOnlyReads<M>(c: Config<M>, s: State<M>, t: nat)
    requires Shaped(c, s, t) && s.calls[t].pc.StoreNode?
    ensures Step(c, s, t).root == s.root && Step(c, s, t).nodes == s.nodes
  {
    hide ConfigOk, NodeSlotOk, SlotAt, HasBucket, PathOf, BitsForLen;
  }

  // ----- Whole runs -------------------------------------------------------------------------------------------

  lemma {:induction false} TreeRun<M>(c: Config<M>, s: State<M>, schedule: seq<nat>)
    requires Inv(c, s) && ConfigOk(c) && TreeOk(c, s) && IsSchedule(s, schedule)
    ensures CanRun(c, s, schedule) && TreeOk(c, After(c, s, schedule))
    decreases |schedule|
  {
    hide Inv, TreeOk, ConfigOk, Shaped, Step, Grows;
    if schedule != [] {
      StepKeeps(c, s, schedule[0]);
      TreeStep(c, s, schedule[0]);
      TreeRun(c, Step(c, s, schedule[0]), schedule[1..]);
    }
  }

  lemma InitialTree<M>(c: Config<M>, s: State<M>)
    requires Initial(c, s)
    ensures ConfigOk(c) && TreeOk(c, s)
  {
    hide PfxSet, PtrSet, Hosted, GoodRow, EmptyBits;
    forall nibble: nat, len: nat
      ensures !PfxSet(c, s.root, nibble, len)
    {
      EmptyHasNoPfx(c, 0, nibble, len);
    }
    forall nibble: nat
      ensures !PtrSet(c, s.root, nibble)
    {
      EmptyHasNoPtr(c, 0, nibble);
    }
  }
}
