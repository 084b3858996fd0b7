/**
 * In every reachable state of the concurrent store the bits and nodes are exactly those that the inserts have asked
 * for, and at rest they do not depend on the interleaving.
 */
module ProtocolShape {
  import opened Bits
  import opened Af
  import opened Stride
  import opened Chain
  import opened PrefixStores
  import opened Protocol
  import opened ProtocolInv
  import opened ProtocolSteps
  import opened ProtocolRuns
  import opened ProtocolLinks
  import opened ProtocolHome
  import opened ProtocolReads
  import opened ProtocolTree
  import opened NodeIds
  import opened NodeIters

  // ----- Ids and nibbles ----------------------------------------------------------------------------------------

  /** The prefix is the id of a node of that level with a nibble of that node appended. */
  ghost predicate IsAppended<M>(c: Config<M>, id: PrefixId, level: nat, cur: PrefixId, nibble: nat, len: nat)
    requires level < |c.strides|
  {
    && 0 < len <= c.strides[level] && cur.len + len <= c.bits && nibble < Pow2(c.bits)
    && id == AddNibble(c.bits, cur, nibble, len)
  }

  /** What a nibble is appended to, and the nibble, can be read off. */
  lemma AddNibbleInjective(bits: nat, p: PrefixId, a: nat, q: PrefixId, b: nat, len: nat)
    requires Canonical(bits, p) && Canonical(bits, q) && p.len == q.len && 0 < len && p.len + len <= bits
    requires a < Pow2(len) && b < Pow2(len) && a < Pow2(bits) && b < Pow2(bits)
    requires AddNibble(bits, p, a, len) == AddNibble(bits, q, b, len)
    ensures p == q && a == b
  {
    hide Pow2, Key, ToBits, AddNibble, Canonical;
    AddNibbleBits(bits, p, a, len);
    AddNibbleBits(bits, q, b, len);
    var k, l := Key(bits, p), Key(bits, q);
    assert |k| == |l| == p.len;
    assert k == (k + ToBits(a, len))[..p.len] && l == (l + ToBits(b, len))[..p.len];
    assert ToBits(a, len) == (k + ToBits(a, len))[p.len..] && ToBits(b, len) == (l + ToBits(b, len))[p.len..];
    KeyInjective(bits, p, q);
    ValToBits(a, len);
    ValToBits(b, len);
  }

  /** A prefix is its node's id with its last nibble appended. */
  lemma LastNibble<M>(c: Config<M>, id: PrefixId, level: nat)
    requires ConfigOk(c) && LevelOk(c, id, level) && IsLast(c, id, level)
    ensures Offset(c.strides, level) <= c.bits && Canonical(c.bits, Cleaned(c.bits, id.net, Offset(c.strides, level)))
    ensures IsAppended(c, id, level, Cleaned(c.bits, id.net, Offset(c.strides, level)), Nibble(c, id, level),
                       NibbleLen(c, id, level))
  {
    hide Pow2, TruncateToLen, GetNibble, AddNibble, GoodRow;
    LevelWithin(c, level);
    CleanedIsGood(c.bits, id.net, Offset(c.strides, level));
    RebuildStep(c.bits, id.net, Offset(c.strides, level), NibbleLen(c, id, level));
    Pow2Mono(NibbleLen(c, id, level), c.bits);
  }

  /** A prefix ends in one level only. */
  lemma OneLevel<M>(c: Config<M>, id: PrefixId, d: nat, e: nat)
    requires ConfigOk(c) && GoodId(c.bits, id) && d < |c.strides| && e < |c.strides|
    requires Offset(c.strides, d) < id.len <= Offset(c.strides, d + 1)
    requires Offset(c.strides, e) < id.len <= Offset(c.strides, e + 1)
    ensures d == e
  {
    if d < e { OffsetMono(c.strides, d + 1, e); }
    if e < d { OffsetMono(c.strides, e + 1, d); }
  }

  /** The node a prefix ends at, and its nibble there, are the parts that it is appended from. */
  lemma HostsIff<M>(c: Config<M>, id: PrefixId, level: nat, cur: PrefixId, nibble: nat, len: nat)
    requires ConfigOk(c) && GoodId(c.bits, id) && level < |c.strides|
    requires Canonical(c.bits, cur) && cur.len == Offset(c.strides, level) && nibble < Pow2(len)
    ensures HostsAt(c, id, level, cur, nibble, len) <==> IsAppended(c, id, level, cur, nibble, len)
  {
    hide Pow2, TruncateToLen, Or, Shl, Nibble, GoodTable;
    LevelWithin(c, level);
    if HostsAt(c, id, level, cur, nibble, len) || IsAppended(c, id, level, cur, nibble, len) {
      assert LevelOk(c, id, level) && IsLast(c, id, level);
      LastNibble(c, id, level);
      if IsAppended(c, id, level, cur, nibble, len) {
        AddNibbleInjective(c.bits, cur, nibble, Cleaned(c.bits, id.net, Offset(c.strides, level)), Nibble(c, id, level),
                           len);
      }
    }
  }

  // ----- Places ---------------------------------------------------------------------------------------------------

  lemma PlaceId<M>(c: Config<M>, s: State<M>, place: Place)
    requires MemoryOk(c, s) && HasNode(s, place)
    ensures ConfigOk(c) && BitsAt(s, place).level < |c.strides|
    ensures Canonical(c.bits, IdAt(s, place)) && IdAt(s, place).len == Offset(c.strides, BitsAt(s, place).level)
    ensures place.At? ==> IdAt(s, place).len > 0
    ensures IsNodeAt(s, place, IdAt(s, place), BitsAt(s, place).level)
  {
    hide Hosted, SlotsOk, LinkedBy, PtrSet, PfxSet, TruncateToLen, GoodRow;
    PlaceBits(c, s, place);
    if place.At? {
      assert NodeOk(c, s, place.slot);
    } else {
      RootIsClean(c.bits);
    }
  }

  lemma RootIsClean(bits: nat)
    ensures Canonical(bits, PrefixId(0, 0))
  {
  }

  /** A node has one place. */
  lemma OnePlace<M>(c: Config<M>, s: State<M>, p: Place, q: Place)
    requires MemoryOk(c, s) && HasNode(s, p) && HasNode(s, q) && IdAt(s, p) == IdAt(s, q)
    ensures p == q
  {
    hide MemoryOk, ConfigOk, Canonical, BitsAt;
    PlaceId(c, s, p);
    PlaceId(c, s, q);
    if p.At? && q.At? { OneSlotPerNode(c, s, p.slot, q.slot); }
  }

  /** A hosted prefix has its bit in the node that it is appended to. */
  lemma HostedHere<M>(c: Config<M>, s: State<M>, id: PrefixId, place: Place, nibble: nat, len: nat)
    requires MemoryOk(c, s) && ConfigOk(c) && Hosted(c, s, id) && HasNode(s, place) && nibble < Pow2(len)
    requires BitsAt(s, place).level < |c.strides|
    requires IsAppended(c, id, BitsAt(s, place).level, IdAt(s, place), nibble, len)
    ensures PfxSet(c, BitsAt(s, place), nibble, len)
  {
    hide MemoryOk, PfxSet, Canonical, TruncateToLen, Nibble, AddNibble, Pow2, GoodTable;
    var level, place' :| HostedBy(c, s, id, level, place');
    PlaceId(c, s, place);
    var d, cur := BitsAt(s, place).level, IdAt(s, place);
    HostsIff(c, id, d, cur, nibble, len);
    OneLevel(c, id, d, level);
    LevelWithin(c, level);
    OnePlace(c, s, place, place');
  }

  // ----- Exactly the prefixes inserted --------------------------------------------------------------------------

  /** A call that is through with the tree inserts the node's id with the nibble appended. */
  ghost predicate InsertedAt<M>(c: Config<M>, s: State<M>, place: Place, nibble: nat, len: nat)
    requires HasNode(s, place) && BitsAt(s, place).level < |c.strides|
  {
    exists t :: 0 <= t < |s.calls| && PastTree(s.calls[t].pc)
      && IsAppended(c, s.calls[t].rec.id, BitsAt(s, place).level, IdAt(s, place), nibble, len)
  }

  /** The node's id with the nibble appended is stored. */
  ghost predicate HeldAt<M>(c: Config<M>, s: State<M>, place: Place, nibble: nat, len: nat)
    requires HasNode(s, place) && BitsAt(s, place).level < |c.strides|
  {
    exists q :: q in s.pfxs
      && IsAppended(c, s.pfxs[q].prefix, BitsAt(s, place).level, IdAt(s, place), nibble, len)
  }

  lemma SetIsInserted<M>(c: Config<M>, s: State<M>, t: nat, place: Place, nibble: nat, len: nat)
    requires Inv(c, s) && ConfigOk(c) && HasNode(s, place) && nibble < Pow2(len) && SetBy(c, s, t, place, nibble, len)
    ensures BitsAt(s, place).level < |c.strides| && InsertedAt(c, s, place, nibble, len)
  {
    hide Inv, HostsAt, IsAppended, Canonical, Pow2, ConfigOk, PastTree, MemoryOk, BitsAt, IdAt, HasNode, IsNodeAt,
         CallOk;
    InvMemory(c, s);
    PlaceId(c, s, place);
    CallAt(c, s, t);
    CallIsGood(c, s, t);
    HostsIff(c, s.calls[t].rec.id, BitsAt(s, place).level, IdAt(s, place), nibble, len);
  }

  lemma InsertedIsSet<M>(c: Config<M>, s: State<M>, place: Place, nibble: nat, len: nat)
    requires MemoryOk(c, s) && ConfigOk(c) && PastHosted(c, s) && HasNode(s, place) && nibble < Pow2(len)
    requires BitsAt(s, place).level < |c.strides| && InsertedAt(c, s, place, nibble, len)
    ensures PfxSet(c, BitsAt(s, place), nibble, len)
  {
    hide MemoryOk, PfxSet, Hosted, IsAppended, Pow2, ConfigOk, PastTree, BitsAt, IdAt, HasNode;
    var t :| 0 <= t < |s.calls| && PastTree(s.calls[t].pc)
      && IsAppended(c, s.calls[t].rec.id, BitsAt(s, place).level, IdAt(s, place), nibble, len);
    HostedHere(c, s, s.calls[t].rec.id, place, nibble, len);
  }

  lemma BitIff<M>(c: Config<M>, s: State<M>, place: Place, nibble: nat, len: nat)
    requires Inv(c, s) && ConfigOk(c) && TreeOk(c, s) && HasNode(s, place) && nibble < Pow2(len)
    ensures BitsAt(s, place).level < |c.strides|
    ensures PfxSet(c, BitsAt(s, place), nibble, len) <==> InsertedAt(c, s, place, nibble, len)
  {
    hide Inv, MemoryOk, PfxSet, Canonical, Pow2, ConfigOk, NodesNeeded, PtrsEarned, PastHosted, SetBy, InsertedAt,
         BitsAt, IdAt, HasNode, IsNodeAt;
    InvMemory(c, s);
    PlaceId(c, s, place);
    if PfxSet(c, BitsAt(s, place), nibble, len) {
      var t: nat :| SetBy(c, s, t, place, nibble, len);
      SetIsInserted(c, s, t, place, nibble, len);
    }
    if InsertedAt(c, s, place, nibble, len) { InsertedIsSet(c, s, place, nibble, len); }
  }

  lemma CallIsGood<M>(c: Config<M>, s: State<M>, t: nat)
    requires ConfigOk(c) && t < |s.calls| && CallOk(c, s, s.calls[t].rec.id, s.calls[t].pc)
    ensures GoodId(c.bits, s.calls[t].rec.id)
  {
  }

  /**
   * In every reachable state a prefix bit of a node is set if and only if some call that is through with the tree
   * inserts the prefix that the bit stands for: the node's id with the nibble appended.
   */
  lemma BitsAreInserts<M>(c: Config<M>, s: State<M>, schedule: seq<nat>)
    requires Initial(c, s) && IsSchedule(s, schedule)
    ensures ConfigOk(c) && CanRun(c, s, schedule)
    ensures var s' := After(c, s, schedule);
      forall place :: HasNode(s', place) ==> BitsAt(s', place).level < |c.strides|
    ensures var s' := After(c, s, schedule);
      forall place, nibble: nat, len: nat :: HasNode(s', place) && nibble < Pow2(len) ==>
        (PfxSet(c, BitsAt(s', place), nibble, len) <==> InsertedAt(c, s', place, nibble, len))
  {
    hide Initial, Inv, TreeOk, ConfigOk, PfxSet, InsertedAt, HasNode, BitsAt, Pow2;
    TreeAfter(c, s, schedule);
    var s' := After(c, s, schedule);
    forall place | HasNode(s', place)
      ensures BitsAt(s', place).level < |c.strides|
    {
      InvMemory(c, s');
      PlaceId(c, s', place);
    }
    forall place, nibble: nat, len: nat | HasNode(s', place) && nibble < Pow2(len)
      ensures PfxSet(c, BitsAt(s', place), nibble, len) <==> InsertedAt(c, s', place, nibble, len)
    {
      BitIff(c, s', place, nibble, len);
    }
  }

  lemma TreeAfter<M>(c: Config<M>, s: State<M>, schedule: seq<nat>)
    requires Initial(c, s) && IsSchedule(s, schedule)
    ensures ConfigOk(c) && CanRun(c, s, schedule) && SameRecs(s, After(c, s, schedule))
    ensures Inv(c, After(c, s, schedule)) && TreeOk(c, After(c, s, schedule)) && NoDangling(c, After(c, s, schedule))
  {
    hide Initial, Inv, TreeOk, ConfigOk, NoDangling, Grows, SameRecs;
    InitialIsOk(c, s);
    InitialTree(c, s);
    InitialLinks(c, s);
    RunKeeps(c, s, schedule);
    TreeRun(c, s, schedule);
    LinksRun(c, s, schedule);
  }

  ghost predicate AllDone<M>(calls: seq<Call<M>>) {
    forall t :: 0 <= t < |calls| ==> calls[t].pc.Done?
  }

  /** A call that is done, and did not give up in the tree, leaves its prefix stored. */
  lemma DoneIsStored<M>(c: Config<M>, s: State<M>, t: nat)
    requires Inv(c, s) && ConfigOk(c) && Home(c, s)
    requires t < |s.calls| && s.calls[t].pc.Done? && PastTree(s.calls[t].pc)
    ensures Holds(s.pfxs, s.calls[t].rec.id)
  {
    hide Inv, ConfigOk, Holds, RecordsOk, OwnTargets;
    if s.calls[t].pc == Done(Inserted) {
      OkIsStored(c, s, t);
    } else {
      CallAt(c, s, t);
      NoBadEnd(c, s, t);
      assert AtHome(c, s, s.calls[t]);
    }
  }

  /**
   * When all calls are done, and clashing calls never overlapped, a prefix bit of a node is set if and only if the
   * prefix that it stands for is stored.
   */
  lemma DoneBitsAreStored<M>(c: Config<M>, s: State<M>, schedule: seq<nat>)
    requires Initial(c, s) && IsSchedule(s, schedule) && AlwaysApart(c, s, schedule)
    ensures ConfigOk(c) && CanRun(c, s, schedule)
    ensures var s' := After(c, s, schedule);
      forall place :: HasNode(s', place) ==> BitsAt(s', place).level < |c.strides|
    ensures var s' := After(c, s, schedule);
      AllDone(s'.calls) ==>
        forall place, nibble: nat, len: nat :: HasNode(s', place) && nibble < Pow2(len) ==>
          (PfxSet(c, BitsAt(s', place), nibble, len) <==> HeldAt(c, s', place, nibble, len))
  {
    hide Initial, Inv, TreeOk, ConfigOk, PfxSet, InsertedAt, HeldAt, HasNode, BitsAt, Pow2, Home, AlwaysApart, GoodIds;
    TreeAfter(c, s, schedule);
    InitialIsOk(c, s);
    InitialIsHome(c, s);
    HomeRuns(c, s, schedule);
    var s' := After(c, s, schedule);
    BitsAreInserts(c, s, schedule);
    if AllDone(s'.calls) {
      forall place, nibble: nat, len: nat | HasNode(s', place) && nibble < Pow2(len)
        ensures PfxSet(c, BitsAt(s', place), nibble, len) <==> HeldAt(c, s', place, nibble, len)
      {
        HeldIff(c, s', place, nibble, len);
      }
    }
  }

  lemma HeldIff<M>(c: Config<M>, s: State<M>, place: Place, nibble: nat, len: nat)
    requires Inv(c, s) && ConfigOk(c) && TreeOk(c, s) && Home(c, s) && AllDone(s.calls)
    requires HasNode(s, place) && BitsAt(s, place).level < |c.strides| && nibble < Pow2(len)
    ensures PfxSet(c, BitsAt(s, place), nibble, len) <==> HeldAt(c, s, place, nibble, len)
  {
    hide Inv, MemoryOk, TreeOk, ConfigOk, PfxSet, Pow2, Home, IsAppended, BitsAt, IdAt, HasNode, PastTree, Hosted;
    InvMemory(c, s);
    if PfxSet(c, BitsAt(s, place), nibble, len) {
      BitIff(c, s, place, nibble, len);
      var t :| 0 <= t < |s.calls| && PastTree(s.calls[t].pc)
        && IsAppended(c, s.calls[t].rec.id, BitsAt(s, place).level, IdAt(s, place), nibble, len);
      DoneIsStored(c, s, t);
      var q :| q in s.pfxs && s.pfxs[q].prefix == s.calls[t].rec.id;
    }
    if HeldAt(c, s, place, nibble, len) {
      var q :| q in s.pfxs
        && IsAppended(c, s.pfxs[q].prefix, BitsAt(s, place).level, IdAt(s, place), nibble, len);
      StoredIsHosted(c, s, q);
      HostedHere(c, s, s.pfxs[q].prefix, place, nibble, len);
    }
  }

  lemma StoredIsHosted<M>(c: Config<M>, s: State<M>, q: Slot)
    requires MemoryOk(c, s) && q in s.pfxs
    ensures ConfigOk(c) && Hosted(c, s, s.pfxs[q].prefix)
  {
    hide Hosted, SlotsOk, NodeOk;
  }

  /**
   * So after such a run the iterator over the prefixes of a node yields exactly the spans below its start whose
   * prefixes are stored, and what it relies on holds: the span of length 0 is never set.
   */
  lemma SpansAreStored<M>(c: Config<M>, s: State<M>, schedule: seq<nat>, place: Place, start: BitSpan, skipSelf: bool)
    requires Initial(c, s) && IsSchedule(s, schedule) && AlwaysApart(c, s, schedule)
    requires CanRun(c, s, schedule) && AllDone(After(c, s, schedule).calls) && HasNode(After(c, s, schedule), place)
    requires BitsAt(After(c, s, schedule), place).level < |c.strides|
    requires start.len <= c.strides[BitsAt(After(c, s, schedule), place).level] && start.bits < Pow2(start.len)
    ensures ConfigOk(c) && BitsOk(c, BitsAt(After(c, s, schedule), place))
    ensures var s' := After(c, s, schedule);
      var stride, arr := c.strides[BitsAt(s', place).level], BitsAt(s', place).pfxbitarr;
      var rest := Rest(stride, arr, start.bits, 1, start.len, if skipSelf then start.bits + 1 else start.bits);
      && !Has(stride, arr, 0, 0)
      && forall span ::
           span in rest <==>
                && start.len <= span.len && span.bits < Pow2(span.len)
                && ToBits(start.bits, start.len) <= ToBits(span.bits, span.len)
                && (skipSelf ==> span != start)
                && HeldAt(c, s', place, span.bits, span.len)
  {
    hide Initial, Inv, TreeOk, ConfigOk, PfxSet, HeldAt, HasNode, BitsAt, Pow2, AlwaysApart, AllDone, Rest, Has, ToBits,
         Fits, PfxWidth, NoDangling;
    TreeAfter(c, s, schedule);
    DoneBitsAreStored(c, s, schedule);
    var s' := After(c, s, schedule);
    InvMemory(c, s');
    PlaceBits(c, s', place);
    var b := BitsAt(s', place);
    SpansBelow(c.strides[b.level], b.pfxbitarr, start, skipSelf);
    forall span: BitSpan
      ensures Has(c.strides[b.level], b.pfxbitarr, span.bits, span.len) <==> PfxSet(c, b, span.bits, span.len)
      ensures HeldAt(c, s', place, span.bits, span.len) ==> 0 < span.len <= c.strides[b.level]
    {
      HasIsSet(c, b, span);
      HeldInStride(c, s', place, span);
    }
    NoNibble();
    HasIsSet(c, b, BitSpan(0, 0));
    HeldInStride(c, s', place, BitSpan(0, 0));
  }

  lemma NoNibble()
    ensures Pow2(0) == 1
  {
  }

  lemma HasIsSet<M>(c: Config<M>, b: NodeBits, span: BitSpan)
    requires ConfigOk(c) && BitsOk(c, b)
    ensures Has(c.strides[b.level], b.pfxbitarr, span.bits, span.len) <==> PfxSet(c, b, span.bits, span.len)
  {
    hide Pow2, Fits, AllBits;
  }

  lemma HeldInStride<M>(c: Config<M>, s: State<M>, place: Place, span: BitSpan)
    requires HasNode(s, place) && BitsAt(s, place).level < |c.strides|
    ensures HeldAt(c, s, place, span.bits, span.len) ==> 0 < span.len <= c.strides[BitsAt(s, place).level]
  {
    hide BitsAt, HasNode, Pow2;
  }

  // ----- Exactly the nodes needed ---------------------------------------------------------------------------------

  /** With a node, the nodes above it are stored. */
  lemma {:induction false} AboveStored<M>(c: Config<M>, s: State<M>, place: Place, id: PrefixId, level: nat,
                                          cur: PrefixId, k: nat, above: PrefixId)
    requires MemoryOk(c, s) && ConfigOk(c) && AtLevel(c, id, level, cur) && IsNodeAt(s, place, cur, level)
    requires 0 < k <= level && AtLevel(c, id, k, above)
    ensures NodeStored(s, above)
    decreases level
  {
    hide MemoryOk, TruncateToLen, GoodTable, PtrSet, FullNibble;
    PlaceId(c, s, place);
    OffsetMono(c.strides, 0, level);
    if k == level {
      StoredHere(s, place.slot);
    } else {
      NodeLinked(c, s, place.slot);
      LevelWithin(c, level - 1);
      LevelWithin(c, level);
      var up :| HasNode(s, up) && LinkedBy(c, s, cur, level, up);
      CleanTwice(c.bits, id.net, Offset(c.strides, level), Offset(c.strides, level - 1));
      AboveStored(c, s, up, id, level - 1, Cleaned(c.bits, id.net, Offset(c.strides, level - 1)), k, above);
    }
  }

  /** Every call is through with the tree, and none gave up there. */
  ghost predicate AllPast<M>(calls: seq<Call<M>>) {
    forall t :: 0 <= t < |calls| ==> PastTree(calls[t].pc)
  }

  lemma StoredIsNeeded<M>(c: Config<M>, s: State<M>, nid: PrefixId)
    requires ConfigOk(c) && NodesNeeded(c, s) && NodeStored(s, nid)
    ensures Needed(c, s.calls, nid)
  {
    hide Needed, ConfigOk;
  }

  lemma BeingStoredIsNeeded<M>(c: Config<M>, s: State<M>, nid: PrefixId)
    requires Inv(c, s) && ConfigOk(c) && BeingStored(s, nid)
    ensures Needed(c, s.calls, nid)
  {
    hide Inv, ConfigOk, Linked, TakenBefore, NodeSlotOk, LevelOk;
    var t :| 0 <= t < |s.calls| && Storing(s.calls[t].pc, nid);
    CallAt(c, s, t);
    assert AtLevel(c, s.calls[t].rec.id, s.calls[t].pc.level + 1, nid);
  }

  /** What a call needs is stored when it is through with the tree. */
  lemma NeededIsStored<M>(c: Config<M>, s: State<M>, nid: PrefixId)
    requires MemoryOk(c, s) && ConfigOk(c) && PastHosted(c, s) && AllPast(s.calls) && Needed(c, s.calls, nid)
    ensures NodeStored(s, nid)
  {
    hide MemoryOk, ConfigOk, PastTree, NodeStored, PfxSet, Nibble, TruncateToLen, IsNodeAt;
    var t, k: nat :| 0 <= t < |s.calls| && 0 < k && AtLevel(c, s.calls[t].rec.id, k, nid);
    var id := s.calls[t].rec.id;
    var level: nat, place :| HostedBy(c, s, id, level, place);
    if k > level { OffsetMono(c.strides, level + 1, k); }
    LevelWithin(c, level);
    AboveStored(c, s, place, id, level, Cleaned(c.bits, id.net, Offset(c.strides, level)), k, nid);
  }

  /**
   * In every reachable state every stored node, and every node that a pointer bit leads to, is one that the prefix of
   * some insert goes beyond; and once every call is through with the tree, all of these are stored.
   */
  lemma NodesAreNeeded<M>(c: Config<M>, s: State<M>, schedule: seq<nat>)
    requires Initial(c, s) && IsSchedule(s, schedule)
    ensures ConfigOk(c) && CanRun(c, s, schedule)
    ensures var s' := After(c, s, schedule);
      && (forall nid :: NodeStored(s', nid) ==> Needed(c, s.calls, nid))
      && (forall nid, level :: Linked(c, s', nid, level) ==> Needed(c, s.calls, nid))
      && (AllPast(s'.calls) ==> forall nid :: NodeStored(s', nid) <==> Needed(c, s.calls, nid))
  {
    hide Initial, Inv, ConfigOk, BitsEarned, PastHosted, NodesNeeded, NodeStored, BeingStored, Needed, Linked;
    TreeAfter(c, s, schedule);
    var s' := After(c, s, schedule);
    InvMemory(c, s');
    forall nid
      ensures NodeStored(s', nid) || BeingStored(s', nid) ==> Needed(c, s.calls, nid)
      ensures AllPast(s'.calls) && Needed(c, s.calls, nid) ==> NodeStored(s', nid)
    {
      if NodeStored(s', nid) { StoredIsNeeded(c, s', nid); }
      if BeingStored(s', nid) { BeingStoredIsNeeded(c, s', nid); }
      if Needed(c, s'.calls, nid) { NeededStays(c, s', s, nid); }
      if Needed(c, s.calls, nid) { NeededStays(c, s, s', nid); }
      if AllPast(s'.calls) && Needed(c, s.calls, nid) { NeededIsStored(c, s', nid); }
    }
  }

  /** No call is storing a node any more, so the pointer bits name the stored nodes. */
  lemma PastLinks<M>(c: Config<M>, s: State<M>, nid: PrefixId, level: nat)
    requires MemoryOk(c, s) && ConfigOk(c) && NoDangling(c, s) && AllPast(s.calls)
    ensures Linked(c, s, nid, level) <==>
      level < |c.strides| && nid.len == Offset(c.strides, level) && NodeStored(s, nid)
  {
    hide MemoryOk, LinkedBy, GoodTable, Canonical;
    if level < |c.strides| && nid.len == Offset(c.strides, level) && NodeStored(s, nid) {
      var p :| p in s.nodes && s.nodes[p].prefix == nid;
      NodeLinked(c, s, p);
      LevelByOffset(c, s.nodes[p].meta.level, level);
    }
  }

  /** The node's id with the full nibble appended is the id of a node that some call needs. */
  ghost predicate NeededChild<M>(c: Config<M>, calls: seq<Call<M>>, level: nat, cur: PrefixId, nibble: nat)
    requires ConfigOk(c) && level < |c.strides|
  {
    nibble < Pow2(c.strides[level])
    && exists x :: IsAppended(c, x, level, cur, nibble, c.strides[level]) && Needed(c, calls, x)
  }

  /** The node that a prefix goes on to has the nibble appended to its parent's id. */
  lemma ChildAppended<M>(c: Config<M>, id: PrefixId, level: nat, cur: PrefixId, nibble: nat)
    requires ConfigOk(c) && PassesAt(c, id, level, cur, nibble)
    ensures Offset(c.strides, level + 1) <= c.bits
    ensures var x := Cleaned(c.bits, id.net, Offset(c.strides, level + 1));
      AtLevel(c, id, level + 1, x) && IsAppended(c, x, level, cur, nibble, c.strides[level])
  {
    hide TruncateToLen, GetNibble, AddNibble, Pow2, GoodTable;
    LevelWithin(c, level);
    ChildId(c, id, level);
    var x := Cleaned(c.bits, id.net, Offset(c.strides, level + 1));
    LastNibble(c, x, level);
    CleanTwice(c.bits, id.net, Offset(c.strides, level + 1), Offset(c.strides, level));
  }

  lemma PtrIsNibble<M>(c: Config<M>, b: NodeBits, nibble: nat)
    requires ConfigOk(c) && PtrSet(c, b, nibble)
    ensures b.level < |c.strides| && nibble < Pow2(c.strides[b.level])
  {
    hide ConfigOk, AllBits;
  }

  lemma LedIsNeeded<M>(c: Config<M>, s: State<M>, place: Place, nibble: nat)
    requires MemoryOk(c, s) && ConfigOk(c) && PtrsEarned(c, s) && HasNode(s, place)
    requires BitsAt(s, place).level < |c.strides| && PtrSet(c, BitsAt(s, place), nibble)
    ensures NeededChild(c, s.calls, BitsAt(s, place).level, IdAt(s, place), nibble)
  {
    hide MemoryOk, ConfigOk, PtrSet, PassesAt, IsAppended, BitsAt, HasNode, AtLevel, Canonical;
    var t: nat :| LedBy(c, s, t, place, nibble);
    var level, cur := BitsAt(s, place).level, IdAt(s, place);
    ChildAppended(c, s.calls[t].rec.id, level, cur, nibble);
    PtrIsNibble(c, BitsAt(s, place), nibble);
  }

  /** A node that is linked has its pointer bit in the node that its id is appended to. */
  lemma LinkedHere<M>(c: Config<M>, s: State<M>, x: PrefixId, place: Place, nibble: nat)
    requires MemoryOk(c, s) && ConfigOk(c) && HasNode(s, place) && BitsAt(s, place).level < |c.strides|
    requires Linked(c, s, x, BitsAt(s, place).level + 1) && nibble < Pow2(c.strides[BitsAt(s, place).level])
    requires IsAppended(c, x, BitsAt(s, place).level, IdAt(s, place), nibble, c.strides[BitsAt(s, place).level])
    ensures PtrSet(c, BitsAt(s, place), nibble)
  {
    hide MemoryOk, PtrSet, Canonical, TruncateToLen, AddNibble, Pow2, GoodTable, GetNibble;
    PlaceId(c, s, place);
    var level, cur := BitsAt(s, place).level, IdAt(s, place);
    var up :| HasNode(s, up) && LinkedBy(c, s, x, level + 1, up);
    HostsIff(c, x, level, cur, nibble, c.strides[level]);
    LevelWithin(c, level);
    OnePlace(c, s, place, up);
  }

  lemma NeededLevel<M>(c: Config<M>, calls: seq<Call<M>>, x: PrefixId, d: nat)
    requires ConfigOk(c) && Needed(c, calls, x) && d <= |c.strides| && x.len == Offset(c.strides, d)
    ensures d < |c.strides|
  {
    hide GoodTable, Canonical;
    var t, k: nat :| 0 <= t < |calls| && 0 < k && AtLevel(c, calls[t].rec.id, k, x);
    if k < d { OffsetMono(c.strides, k, d); }
    if d < k { OffsetMono(c.strides, d, k); }
  }

  lemma PtrIff<M>(c: Config<M>, s: State<M>, place: Place, nibble: nat)
    requires Inv(c, s) && ConfigOk(c) && TreeOk(c, s) && NoDangling(c, s) && HasNode(s, place)
    ensures BitsAt(s, place).level < |c.strides|
    ensures PtrSet(c, BitsAt(s, place), nibble) ==>
      NeededChild(c, s.calls, BitsAt(s, place).level, IdAt(s, place), nibble)
    ensures AllPast(s.calls) && NeededChild(c, s.calls, BitsAt(s, place).level, IdAt(s, place), nibble) ==>
      PtrSet(c, BitsAt(s, place), nibble)
  {
    hide Inv, MemoryOk, ConfigOk, PtrSet, Needed, Pow2, BitsEarned, NoDangling, AllPast, BitsAt, HasNode, AddNibble,
         IdAt, Linked, PtrsEarned, NodesNeeded, PastHosted, NodeStored, Canonical, IsNodeAt;
    InvMemory(c, s);
    PlaceId(c, s, place);
    var level, cur := BitsAt(s, place).level, IdAt(s, place);
    if PtrSet(c, BitsAt(s, place), nibble) { LedIsNeeded(c, s, place, nibble); }
    if AllPast(s.calls) && NeededChild(c, s.calls, level, cur, nibble) {
      var x :| IsAppended(c, x, level, cur, nibble, c.strides[level]) && Needed(c, s.calls, x);
      NeededIsStored(c, s, x);
      AppendedLen(c, x, level, cur, nibble, c.strides[level]);
      LevelWithin(c, level);
      NeededLevel(c, s.calls, x, level + 1);
      PastLinks(c, s, x, level + 1);
      LinkedHere(c, s, x, place, nibble);
    }
  }

  lemma AppendedLen<M>(c: Config<M>, x: PrefixId, level: nat, cur: PrefixId, nibble: nat, len: nat)
    requires level < |c.strides| && IsAppended(c, x, level, cur, nibble, len)
    ensures x.len == cur.len + len
  {
  }

  /**
   * In every reachable state a pointer bit of a node is set only if the prefix of some insert goes on to the node that
   * the bit stands for: the node's id with the nibble appended. Once every call is through with the tree, all of these
   * are set.
   */
  lemma PointersAreNeeded<M>(c: Config<M>, s: State<M>, schedule: seq<nat>, place: Place, nibble: nat)
    requires Initial(c, s) && IsSchedule(s, schedule)
    ensures ConfigOk(c) && CanRun(c, s, schedule)
    ensures var s' := After(c, s, schedule);
      HasNode(s', place) ==>
        && BitsAt(s', place).level < |c.strides|
        && (PtrSet(c, BitsAt(s', place), nibble) ==>
              NeededChild(c, s'.calls, BitsAt(s', place).level, IdAt(s', place), nibble))
        && (AllPast(s'.calls) && NeededChild(c, s'.calls, BitsAt(s', place).level, IdAt(s', place), nibble) ==>
              PtrSet(c, BitsAt(s', place), nibble))
  {
    hide Initial, Inv, TreeOk, ConfigOk, PtrSet, NeededChild, HasNode, BitsAt, IdAt, Pow2, AllPast, NoDangling;
    TreeAfter(c, s, schedule);
    var s' := After(c, s, schedule);
    if HasNode(s', place) { PtrIff(c, s', place, nibble); }
  }

  /** The two states have the same nodes, with the same pointer bits and the same prefix bits. */
  ghost predicate SameTree<M>(c: Config<M>, a: State<M>, b: State<M>)
    requires ConfigOk(c)
  {
    && (forall nid :: NodeStored(a, nid) <==> NodeStored(b, nid))
    && (forall p, q, nibble: nat :: HasNode(a, p) && HasNode(b, q) && IdAt(a, p) == IdAt(b, q) ==>
          (PtrSet(c, BitsAt(a, p), nibble) <==> PtrSet(c, BitsAt(b, q), nibble)))
    && (forall p, q, nibble: nat, len: nat ::
          HasNode(a, p) && HasNode(b, q) && IdAt(a, p) == IdAt(b, q) && nibble < Pow2(len) ==>
            (PfxSet(c, BitsAt(a, p), nibble, len) <==> PfxSet(c, BitsAt(b, q), nibble, len)))
  }

  lemma SameInserted<M>(c: Config<M>, a: State<M>, b: State<M>, p: Place, q: Place, nibble: nat, len: nat)
    requires SameRecs(a, b) && AllPast(b.calls) && HasNode(a, p) && HasNode(b, q)
    requires BitsAt(a, p).level == BitsAt(b, q).level < |c.strides| && IdAt(a, p) == IdAt(b, q)
    ensures InsertedAt(c, a, p, nibble, len) ==> InsertedAt(c, b, q, nibble, len)
  {
    hide PastTree, IsAppended, BitsAt, IdAt, HasNode;
    if InsertedAt(c, a, p, nibble, len) {
      var t :| 0 <= t < |a.calls| && PastTree(a.calls[t].pc)
        && IsAppended(c, a.calls[t].rec.id, BitsAt(a, p).level, IdAt(a, p), nibble, len);
      assert b.calls[t].rec == a.calls[t].rec;
    }
  }

  lemma SamePfx<M>(c: Config<M>, a: State<M>, b: State<M>, p: Place, q: Place, nibble: nat, len: nat)
    requires Inv(c, a) && TreeOk(c, a) && AllPast(a.calls) && Inv(c, b) && TreeOk(c, b) && AllPast(b.calls)
    requires ConfigOk(c) && SameRecs(a, b)
    requires HasNode(a, p) && HasNode(b, q) && IdAt(a, p) == IdAt(b, q) && nibble < Pow2(len)
    ensures PfxSet(c, BitsAt(a, p), nibble, len) <==> PfxSet(c, BitsAt(b, q), nibble, len)
  {
    hide Inv, MemoryOk, TreeOk, ConfigOk, AllPast, PfxSet, BitsAt, IdAt, HasNode, InsertedAt, Canonical, Pow2, IsNodeAt;
    InvMemory(c, a);
    InvMemory(c, b);
    PlaceId(c, a, p);
    PlaceId(c, b, q);
    LevelByOffset(c, BitsAt(a, p).level, BitsAt(b, q).level);
    BitIff(c, a, p, nibble, len);
    BitIff(c, b, q, nibble, len);
    SameInserted(c, a, b, p, q, nibble, len);
    SameInserted(c, b, a, q, p, nibble, len);
  }

  lemma SamePtr<M>(c: Config<M>, a: State<M>, b: State<M>, p: Place, q: Place, nibble: nat)
    requires Inv(c, a) && TreeOk(c, a) && NoDangling(c, a)
    requires Inv(c, b) && TreeOk(c, b) && NoDangling(c, b) && AllPast(b.calls)
    requires ConfigOk(c) && SameRecs(a, b)
    requires HasNode(a, p) && HasNode(b, q) && IdAt(a, p) == IdAt(b, q)
    ensures PtrSet(c, BitsAt(a, p), nibble) ==> PtrSet(c, BitsAt(b, q), nibble)
  {
    hide Inv, MemoryOk, TreeOk, ConfigOk, AllPast, PtrSet, BitsAt, IdAt, HasNode, NeededChild, Canonical, Pow2,
         IsNodeAt, NoDangling;
    InvMemory(c, a);
    InvMemory(c, b);
    PlaceId(c, a, p);
    PlaceId(c, b, q);
    LevelByOffset(c, BitsAt(a, p).level, BitsAt(b, q).level);
    PtrIff(c, a, p, nibble);
    PtrIff(c, b, q, nibble);
    SameNeeded(c, a, b, BitsAt(a, p).level, IdAt(a, p), nibble);
  }

  lemma SameNeeded<M>(c: Config<M>, a: State<M>, b: State<M>, level: nat, cur: PrefixId, nibble: nat)
    requires ConfigOk(c) && SameRecs(a, b) && level < |c.strides|
    ensures NeededChild(c, a.calls, level, cur, nibble) ==> NeededChild(c, b.calls, level, cur, nibble)
  {
    hide ConfigOk, IsAppended, Needed;
    if NeededChild(c, a.calls, level, cur, nibble) {
      var x :| IsAppended(c, x, level, cur, nibble, c.strides[level]) && Needed(c, a.calls, x);
      NeededStays(c, a, b, x);
    }
  }

  /**
   * The order of the steps does not matter to the tree: any two schedules of the same calls, after which none of them
   * is still in the tree or has given up there, leave the same nodes and bits.
   */
  lemma OrderDoesNotMatter<M>(c: Config<M>, s: State<M>, one: seq<nat>, other: seq<nat>)
    requires Initial(c, s) && IsSchedule(s, one) && IsSchedule(s, other)
    ensures ConfigOk(c) && CanRun(c, s, one) && CanRun(c, s, other)
    ensures var a, b := After(c, s, one), After(c, s, other);
      AllPast(a.calls) && AllPast(b.calls) ==> SameTree(c, a, b)
  {
    hide Initial, Inv, ConfigOk, TreeOk, NodeStored, Needed, Linked, NoDangling, AllPast, PfxSet, PtrSet, BitsAt,
         HasNode, IdAt, Pow2;
    TreeAfter(c, s, one);
    TreeAfter(c, s, other);
    NodesAreNeeded(c, s, one);
    NodesAreNeeded(c, s, other);
    var a, b := After(c, s, one), After(c, s, other);
    if AllPast(a.calls) && AllPast(b.calls) {
      forall p, q, nibble: nat | HasNode(a, p) && HasNode(b, q) && IdAt(a, p) == IdAt(b, q)
        ensures PtrSet(c, BitsAt(a, p), nibble) <==> PtrSet(c, BitsAt(b, q), nibble)
      {
        SamePtr(c, a, b, p, q, nibble);
        SamePtr(c, b, a, q, p, nibble);
      }
      forall p, q, nibble: nat, len: nat |
        HasNode(a, p) && HasNode(b, q) && IdAt(a, p) == IdAt(b, q) && nibble < Pow2(len)
        ensures PfxSet(c, BitsAt(a, p), nibble, len) <==> PfxSet(c, BitsAt(b, q), nibble, len)
      {
        SamePfx(c, a, b, p, q, nibble, len);
      }
    }
  }
}
