/** Every step of every call keeps the invariant, and memory only grows. */
module ProtocolSteps {
  import opened Bits
  import opened Af
  import opened Stride
  import opened Records
  import opened Chain
  import opened PrefixStores
  import opened Protocol
  import opened ProtocolInv

  // ----- Putting a step together --------------------------------------------------------------------

  /** All calls but t are where they were, and t still inserts the same record. */
  ghost predicate OnlyMoves<M>(s: State<M>, s': State<M>, t: nat) {
    && |s'.calls| == |s.calls| && t < |s.calls|
    && s'.calls[t].rec == s.calls[t].rec
    && forall u :: 0 <= u < |s.calls| && u != t ==> s'.calls[u] == s.calls[u]
  }

  lemma CallsGo<M>(c: Config<M>, s: State<M>, s': State<M>, t: nat)
    requires ConfigOk(c) && CallsOk(c, s) && Grows(c, s, s') && OnlyMoves(s, s', t)
    requires CallOk(c, s', s.calls[t].rec.id, s'.calls[t].pc)
    ensures CallsOk(c, s')
  {
    hide Grows, CallOk, ConfigOk;
    forall u | 0 <= u < |s'.calls|
      ensures CallOk(c, s', s'.calls[u].rec.id, s'.calls[u].pc)
    {
      if u != t { CallGrows(c, s, s', s.calls[u].rec.id, s.calls[u].pc); }
    }
  }

  lemma LogSame<M>(c: Config<M>, s: State<M>, s': State<M>, t: nat)
    requires Distinct(s.pfxs) && LogOk(c, s) && OnlyMoves(s, s', t) && s'.pfxs == s.pfxs && s'.log == s.log
    requires s.calls[t].pc != Done(Inserted) && s'.calls[t].pc != Done(Inserted)
    ensures LogOk(c, s')
  {
    hide Prefixes, Run, Distinct, RecMerge, Changed;
    assert forall i :: 0 <= i < |s.log| ==> s'.calls[s.log[i].call].rec == s.calls[s.log[i].call].rec;
    assert Applied(s'.calls, s'.log) == Applied(s.calls, s.log);
  }

  lemma ChangedNext(log: seq<Entry>, e: Entry, u: nat)
    ensures Changed(log + [e], u) <==> Changed(log, u) || u == e.call
  {
    var all := log + [e];
    if Changed(log, u) {
      var i :| 0 <= i < |log| && log[i].call == u;
      assert all[i] == log[i];
    }
    assert all[|log|] == e;
  }

  lemma AppliedNext<M>(s: State<M>, s': State<M>, t: nat, target: PrefixId)
    requires LogInRange(|s.calls|, s.log) && OnlyMoves(s, s', t) && s'.log == s.log + [Entry(t, target)]
    ensures LogInRange(|s'.calls|, s'.log)
    ensures Applied(s'.calls, s'.log) == Applied(s.calls, s.log) + [Record(target, s.calls[t].rec)]
  {
    assert forall i :: 0 <= i < |s.log| ==> s'.calls[s.log[i].call].rec == s.calls[s.log[i].call].rec;
  }

  lemma RunNext<D>(recs: seq<Record<D>>, rec: Record<D>, merge: (D, D) -> D)
    ensures Run(recs + [rec], merge) == Upserted(Run(recs, merge), rec, merge)
  {
    hide Upserted;
    assert (recs + [rec])[..|recs + [rec]| - 1] == recs;
  }

  lemma ChangedMoves<M>(s: State<M>, s': State<M>, t: nat, target: PrefixId)
    requires OnlyMoves(s, s', t) && s'.log == s.log + [Entry(t, target)]
    requires s.calls[t].pc != Done(Inserted) && s'.calls[t].pc == Done(Inserted)
    requires forall u: nat :: Changed(s.log, u) <==> u < |s.calls| && s.calls[u].pc == Done(Inserted)
    requires forall i, j :: 0 <= i < j < |s.log| ==> s.log[i].call != s.log[j].call
    ensures forall u: nat :: Changed(s'.log, u) <==> u < |s'.calls| && s'.calls[u].pc == Done(Inserted)
    ensures forall i, j :: 0 <= i < j < |s'.log| ==> s'.log[i].call != s'.log[j].call
  {
    hide Changed;
    forall u: nat
      ensures Changed(s'.log, u) <==> u < |s'.calls| && s'.calls[u].pc == Done(Inserted)
    {
      ChangedNext(s.log, Entry(t, target), u);
    }
    NewCall(s.log, t);
  }

  /** A call that changes the prefix store and returns Ok is the next one in the log. */
  lemma LogNext<M>(c: Config<M>, s: State<M>, s': State<M>, t: nat, target: PrefixId)
    requires Distinct(s.pfxs) && Distinct(s'.pfxs) && LogOk(c, s) && OnlyMoves(s, s', t)
    requires s.calls[t].pc != Done(Inserted) && s'.calls[t].pc == Done(Inserted)
    requires s'.log == s.log + [Entry(t, target)]
    requires Prefixes(s'.pfxs) == Upserted(Prefixes(s.pfxs), Record(target, s.calls[t].rec), RecMerge(c.merge))
    ensures LogOk(c, s')
  {
    hide Prefixes, Distinct, RecMerge, Changed, Upserted, Run, LogInRange;
    AppliedNext(s, s', t, target);
    RunNext(Applied(s.calls, s.log), Record(target, s.calls[t].rec), RecMerge(c.merge));
    ChangedMoves(s, s', t, target);
  }

  lemma NewCall(log: seq<Entry>, t: nat)
    ensures !Changed(log, t) ==> forall i :: 0 <= i < |log| ==> log[i].call != t
  {
  }

  lemma Reflexive<M>(c: Config<M>, s: State<M>, s': State<M>)
    requires ConfigOk(c) && s'.root == s.root && s'.nodes == s.nodes && s'.pfxs == s.pfxs && s'.versions == s.versions
    ensures Grows(c, s, s')
  {
    hide PtrSet, PfxSet, BitsOk, ConfigOk;
  }

  /** Memory that grew is in order if what is new is in order. */
  lemma MemoryGoes<M>(c: Config<M>, s: State<M>, s': State<M>)
    requires MemoryOk(c, s) && Grows(c, s, s')
    requires SlotsOk(c.bits, c.nodeTable, s'.nodes)
    requires SlotsOk(c.bits, c.pfxTable, s'.pfxs) && s'.versions.Keys == s'.pfxs.Keys
    requires forall p :: p in s'.nodes && p !in s.nodes ==> NodeOk(c, s', p)
    requires forall q :: q in s'.pfxs && q !in s.pfxs ==> Hosted(c, s', s'.pfxs[q].prefix)
    ensures MemoryOk(c, s')
  {
    hide Linked, Hosted, SlotsOk, ConfigOk, PtrSet, PfxSet, BitsOk;
    forall p | p in s'.nodes
      ensures NodeOk(c, s', p)
    {
      if p in s.nodes {
        assert NodeOk(c, s, p);
        LinkedGrows(c, s, s', s.nodes[p].prefix, s.nodes[p].meta.level);
      }
    }
    forall q | q in s'.pfxs
      ensures Hosted(c, s', s'.pfxs[q].prefix)
    {
      if q in s.pfxs { HostedGrows(c, s, s', s.pfxs[q].prefix); }
    }
  }

  lemma TableOf<M>(c: Config<M>, s: State<M>)
    requires MemoryOk(c, s)
    ensures Distinct(s.pfxs) && ConfigOk(c)
  {
  }

  /** A call that only looks keeps the invariant. */
  lemma GoKeeps<M>(c: Config<M>, s: State<M>, t: nat, pc: Pc<M>)
    requires Inv(c, s) && t < |s.calls| && s.calls[t].pc != Done(Inserted) && pc != Done(Inserted)
    requires CallOk(c, s, s.calls[t].rec.id, pc)
    ensures Inv(c, Go(s, t, pc)) && Grows(c, s, Go(s, t, pc))
  {
    hide MemoryOk, CallsOk, LogOk, CallOk, Grows;
    var s' := Go(s, t, pc);
    TableOf(c, s);
    Reflexive(c, s, s');
    MemorySame(c, s, s');
    CallGrows(c, s, s', s.calls[t].rec.id, pc);
    CallsGo(c, s, s', t);
    LogSame(c, s, s', t);
  }

  lemma MemorySame<M>(c: Config<M>, s: State<M>, s': State<M>)
    requires MemoryOk(c, s) && Grows(c, s, s')
    requires s'.root == s.root && s'.nodes == s.nodes && s'.pfxs == s.pfxs && s'.versions == s.versions
    ensures MemoryOk(c, s')
  {
    hide Linked, Hosted, SlotsOk, ConfigOk, Grows, BitsOk;
    MemoryGoes(c, s, s');
  }

  /** The invariant gives every call what its next step relies on. */
  lemma ReadyToStep<M>(c: Config<M>, s: State<M>, t: nat)
    requires Inv(c, s) && t < |s.calls|
    ensures Shaped(c, s, t)
  {
    hide Linked, Hosted, SlotsOk, LogOk, Fits, GoodRow, TakenBefore, TruncateToLen;
    assert CallOk(c, s, s.calls[t].rec.id, s.calls[t].pc);
    match s.calls[t].pc
    case Eval(level, cur, place) => PlaceBits(c, s, place);
    case CasPtr(level, cur, place, seen) => PlaceBits(c, s, place);
    case CasPfx(level, cur, place, seen) => PlaceBits(c, s, place);
    case _ =>
  }

  lemma PlaceBits<M>(c: Config<M>, s: State<M>, place: Place)
    requires MemoryOk(c, s) && HasNode(s, place)
    ensures BitsOk(c, BitsAt(s, place))
  {
    hide Linked, Hosted, SlotsOk, BitsOk, ConfigOk;
    if place.At? { assert NodeOk(c, s, place.slot); }
  }

  // ----- Looking up a node -----------------------------------------------------------------------------

  /** Levels can be told apart by their offsets. */
  lemma LevelByOffset<M>(c: Config<M>, d: nat, e: nat)
    requires ConfigOk(c) && d < |c.strides| && e < |c.strides| && Offset(c.strides, d) == Offset(c.strides, e)
    ensures d == e
  {
    LevelWithin(c, d);
    LevelWithin(c, e);
    if d < e { OffsetMono(c.strides, d, e); } else { OffsetMono(c.strides, e, d); }
  }

  lemma CallAt<M>(c: Config<M>, s: State<M>, t: nat)
    requires Inv(c, s) && t < |s.calls|
    ensures ConfigOk(c) && CallOk(c, s, s.calls[t].rec.id, s.calls[t].pc)
  {
    hide CallOk, LogOk, SlotsOk, NodeOk, Hosted;
  }

  lemma LooksFromTop<M>(c: Config<M>, s: State<M>, level: nat, cur: PrefixId, depth: nat)
    requires ConfigOk(c) && LookingOk(c, s, level, cur, depth)
    ensures LookingOk(c, s, level, cur, 0)
  {
    hide Linked, GoodRow, Canonical;
  }

  /** Giving up or trying again from the top is always in order. */
  lemma RetryKeeps<M>(c: Config<M>, s: State<M>, t: nat, level: nat, cur: PrefixId, tries: nat, depth: nat)
    requires Inv(c, s) && t < |s.calls| && s.calls[t].pc == Retrieve(level, cur, tries, depth)
    ensures Inv(c, Retry(s, t, level, cur, tries)) && Grows(c, s, Retry(s, t, level, cur, tries))
  {
    hide Inv, Grows, Linked, AtLevel, LookingOk;
    CallAt(c, s, t);
    if tries + 1 >= MAX_RETRIES {
      GoKeeps(c, s, t, Done(NodeCreationMaxRetryError));
    } else {
      if level > 0 { LooksFromTop(c, s, level, cur, depth); }
      GoKeeps(c, s, t, Retrieve(level, cur, tries + 1, 0));
    }
  }

  /** The node found in the slot of an id is the node at the id's level. */
  lemma FoundNode<M>(c: Config<M>, s: State<M>, slot: Slot, cur: PrefixId, level: nat)
    requires MemoryOk(c, s) && slot in s.nodes && s.nodes[slot].prefix == cur
    requires level < |c.strides| && cur.len == Offset(c.strides, level)
    ensures IsNodeAt(s, At(slot), cur, level)
  {
    hide Hosted, SlotsOk, LinkedBy;
    assert NodeOk(c, s, slot);
    LevelByOffset(c, s.nodes[slot].meta.level, level);
  }

  lemma AtRoot<M>(c: Config<M>, s: State<M>, id: PrefixId, level: nat, cur: PrefixId)
    requires MemoryOk(c, s) && AtLevel(c, id, level, cur)
    ensures cur.len == Offset(c.strides, level)
    ensures cur.len == 0 ==> level == 0 && IsNodeAt(s, Root, cur, level)
  {
    hide Hosted, SlotsOk, Linked, NodeOk;
    if level > 0 { OffsetMono(c.strides, 0, level); }
  }

  lemma NodeSlots<M>(c: Config<M>, s: State<M>)
    requires MemoryOk(c, s)
    ensures ConfigOk(c) && SlotsOk(c.bits, c.nodeTable, s.nodes) && SlotsOk(c.bits, c.pfxTable, s.pfxs)
  {
  }

  /** On the way down there is always a bucket, and the last slot of an id is never another id's. */
  lemma WayDown<D>(bits: nat, table: Table, slots: Slots<D>, id: PrefixId, depth: nat)
    requires SlotsOk(bits, table, slots) && GoodId(bits, id) && depth < |table[id.len]|
    requires TakenBefore(bits, table, Owners(slots), id, depth)
    ensures HasBucket(slots, Bucket(id.len, PathOf(bits, table, id, depth)))
    ensures var slot := SlotAt(bits, table, id, depth);
      slot in slots && slots[slot].prefix != id ==>
        BitsForLen(table, id.len, depth + 1) > 0 && depth + 1 < |table[id.len]|
        && TakenBefore(bits, table, Owners(slots), id, depth + 1)
  {
    hide HashId, SlotOk, BucketsOk, TruncateToLen;
    OnTheWay(bits, table, slots, id, depth);
    var slot := SlotAt(bits, table, id, depth);
    if slot in slots && slots[slot].prefix != id {
      TakenStep(bits, table, Owners(slots), id, depth);
      OnTheWay(bits, table, slots, id, depth + 1);
      LevelBounds(bits, table, id.len, depth + 1);
    }
  }

  /** A node lookup below the root always has a bucket to look into, and goes on below a node of another id. */
  lemma LooksOn<M>(c: Config<M>, s: State<M>, level: nat, cur: PrefixId, depth: nat)
    requires MemoryOk(c, s) && LookingOk(c, s, level, cur, depth)
    ensures HasBucket(s.nodes, Bucket(cur.len, PathOf(c.bits, c.nodeTable, cur, depth)))
    ensures var slot := SlotAt(c.bits, c.nodeTable, cur, depth);
      slot in s.nodes && s.nodes[slot].prefix != cur ==>
        BitsForLen(c.nodeTable, cur.len, depth + 1) > 0 && LookingOk(c, s, level, cur, depth + 1)
  {
    hide MemoryOk, Linked, SlotsOk, SlotAt, TruncateToLen, GoodRow, PathOf, HasBucket, TakenBefore;
    NodeSlots(c, s);
    WayDown(c.bits, c.nodeTable, s.nodes, cur, depth);
  }

  lemma BelowRoot<M>(c: Config<M>, id: PrefixId, level: nat, cur: PrefixId)
    requires ConfigOk(c) && AtLevel(c, id, level, cur)
    ensures cur.len > 0 ==> level > 0
    ensures level < |c.strides|
  {
    assert Offset(c.strides, 0) == 0;
  }

  lemma RetrieveKeeps<M>(c: Config<M>, s: State<M>, t: nat, level: nat, cur: PrefixId, tries: nat, depth: nat)
    requires Inv(c, s) && t < |s.calls| && s.calls[t].pc == Retrieve(level, cur, tries, depth)
    requires cur.len > 0 ==> NodeSlotOk(c, cur, depth)
    ensures Inv(c, RetrieveStep(c, s, t, level, cur, tries, depth))
    ensures Grows(c, s, RetrieveStep(c, s, t, level, cur, tries, depth))
  {
    hide Inv, Grows, Linked, Hosted, NodeOk, SlotAt, LookingOk, PathOf, HasBucket, BitsForLen, GoodRow, TruncateToLen,
         AtLevel, MemoryOk, NodeSlotOk;
    CallAt(c, s, t);
    InvMemory(c, s);
    AtRoot(c, s, s.calls[t].rec.id, level, cur);
    if cur.len == 0 {
      GoKeeps(c, s, t, Eval(level, cur, Root));
    } else {
      BelowRoot(c, s.calls[t].rec.id, level, cur);
      RetrieveBelow(c, s, t, level, cur, tries, depth);
    }
  }

  lemma RetrieveBelow<M>(c: Config<M>, s: State<M>, t: nat, level: nat, cur: PrefixId, tries: nat, depth: nat)
    requires Inv(c, s) && t < |s.calls| && s.calls[t].pc == Retrieve(level, cur, tries, depth) && level > 0
    requires MemoryOk(c, s) && LookingOk(c, s, level, cur, depth) && NodeSlotOk(c, cur, depth)
    requires GoodId(c.bits, s.calls[t].rec.id) && AtLevel(c, s.calls[t].rec.id, level, cur)
    requires level < |c.strides| && cur.len == Offset(c.strides, level) && cur.len > 0
    ensures Inv(c, RetrieveStep(c, s, t, level, cur, tries, depth))
    ensures Grows(c, s, RetrieveStep(c, s, t, level, cur, tries, depth))
  {
    hide Inv, Grows, SlotAt, LookingOk, PathOf, HasBucket, BitsForLen, GoodRow, TruncateToLen, AtLevel, MemoryOk;
    TableOf(c, s);
    LooksOn(c, s, level, cur, depth);
    var slot := SlotAt(c.bits, c.nodeTable, cur, depth);
    if slot in s.nodes && s.nodes[slot].prefix == cur {
      FoundNode(c, s, slot, cur, level);
      GoKeeps(c, s, t, Eval(level, cur, At(slot)));
    } else if slot in s.nodes && BitsForLen(c.nodeTable, cur.len, depth + 1) > 0 {
      GoKeeps(c, s, t, Retrieve(level, cur, tries, depth + 1));
    } else {
      RetryKeeps(c, s, t, level, cur, tries, depth);
    }
  }

  lemma InvMemory<M>(c: Config<M>, s: State<M>)
    requires Inv(c, s)
    ensures MemoryOk(c, s)
  {
  }

  // ----- Looking at a node's bits --------------------------------------------------------------------------

  /** The id of the child at the nibble of a prefix. */
  lemma ChildId<M>(c: Config<M>, id: PrefixId, level: nat)
    requires ConfigOk(c) && LevelOk(c, id, level) && !IsLast(c, id, level)
    ensures level + 1 < |c.strides| && LevelOk(c, id, level + 1) && Offset(c.strides, level + 1) <= c.bits
    ensures NodeSlotOk(c, Cleaned(c.bits, id.net, Offset(c.strides, level + 1)), 0)
    ensures AtLevel(c, id, level + 1, Cleaned(c.bits, id.net, Offset(c.strides, level + 1)))
    ensures FullNibble(c, Cleaned(c.bits, id.net, Offset(c.strides, level + 1)), level) == Nibble(c, id, level)
  {
    hide TruncateToLen, GetNibble, Pow2;
    LevelWithin(c, level);
    CleanedIsGood(c.bits, id.net, Offset(c.strides, level + 1));
    NibbleOfCleaned(c.bits, id.net, Offset(c.strides, level + 1), Offset(c.strides, level), c.strides[level]);
  }

  /** A node whose pointer bit is set links the child. */
  lemma BitLinksChild<M>(c: Config<M>, s: State<M>, id: PrefixId, level: nat, cur: PrefixId, place: Place)
    requires ConfigOk(c) && AtLevel(c, id, level, cur) && IsNodeAt(s, place, cur, level) && !IsLast(c, id, level)
    requires PtrSet(c, BitsAt(s, place), Nibble(c, id, level))
    ensures Offset(c.strides, level + 1) <= c.bits
    ensures Linked(c, s, Cleaned(c.bits, id.net, Offset(c.strides, level + 1)), level + 1)
  {
    hide TruncateToLen, FullNibble, Nibble, PtrSet, IsNodeAt;
    ChildId(c, id, level);
    LevelWithin(c, level);
    var child := Cleaned(c.bits, id.net, Offset(c.strides, level + 1));
    CleanTwice(c.bits, id.net, Offset(c.strides, level + 1), Offset(c.strides, level));
    IsNodeHere(s, place, cur, level);
    assert LinkedBy(c, s, child, level + 1, place);
  }

  lemma IsNodeHere<M>(s: State<M>, place: Place, cur: PrefixId, level: nat)
    requires IsNodeAt(s, place, cur, level)
    ensures HasNode(s, place) && BitsAt(s, place).level == level
  {
  }

  /** A node whose prefix bit is set hosts the prefix. */
  lemma BitHosts<M>(c: Config<M>, s: State<M>, id: PrefixId, level: nat, cur: PrefixId, place: Place)
    requires ConfigOk(c) && AtLevel(c, id, level, cur) && IsNodeAt(s, place, cur, level) && IsLast(c, id, level)
    requires PfxSet(c, BitsAt(s, place), Nibble(c, id, level), NibbleLen(c, id, level))
    ensures Hosted(c, s, id)
  {
    hide Nibble, PfxSet, Cleaned, NibbleLen;
    assert HostedBy(c, s, id, level, place);
  }

  lemma StartsStoring<M>(c: Config<M>, s: State<M>, id: PrefixId, level: nat)
    requires ConfigOk(c) && LevelOk(c, id, level) && !IsLast(c, id, level) && Offset(c.strides, level + 1) <= c.bits
    requires Linked(c, s, Cleaned(c.bits, id.net, Offset(c.strides, level + 1)), level + 1)
    ensures StoringOk(c, s, id, level, Cleaned(c.bits, id.net, Offset(c.strides, level + 1)), 0)
  {
    hide Linked, TruncateToLen;
    ChildId(c, id, level);
    LevelWithin(c, level);
  }

  lemma StartsLooking<M>(c: Config<M>, s: State<M>, id: PrefixId, level: nat)
    requires ConfigOk(c) && LevelOk(c, id, level) && !IsLast(c, id, level) && Offset(c.strides, level + 1) <= c.bits
    requires Linked(c, s, Cleaned(c.bits, id.net, Offset(c.strides, level + 1)), level + 1)
    ensures LookingOk(c, s, level + 1, Cleaned(c.bits, id.net, Offset(c.strides, level + 1)), 0)
  {
    hide Linked, TruncateToLen;
    ChildId(c, id, level);
  }

  lemma StartsUpserting<M>(c: Config<M>, s: State<M>, id: PrefixId)
    requires ConfigOk(c) && GoodId(c.bits, id) && Hosted(c, s, id)
    ensures UpsertingOk(c, s, id, 0)
  {
    hide Hosted, Canonical;
  }

  /** The pointer test of the evaluation reads the bit of the nibble. */
  lemma PtrTest<M>(c: Config<M>, id: PrefixId, level: nat, b: NodeBits)
    requires ConfigOk(c) && LevelOk(c, id, level) && !IsLast(c, id, level) && BitsOk(c, b) && b.level == level
    ensures IsWidth(PfxWidth(c.strides[level]))
    ensures PtrSet(c, b, Nibble(c, id, level)) <==>
      BitAnd(IntoStrideSize(c.strides[level], b.ptrbitarr), BitPos(c, id, level)) != Zero(PfxWidth(c.strides[level]))
  {
    hide Pow2, BitAnd, IntoStrideSize, GetBitPos, AllBits, Zero, GetNibble, Fits;
    Widths(c.strides[level]);
    TestPtrBit(c.strides[level], b.ptrbitarr, Nibble(c, id, level), c.strides[level]);
  }

  lemma PfxTest<M>(c: Config<M>, id: PrefixId, level: nat, b: NodeBits)
    requires ConfigOk(c) && LevelOk(c, id, level) && BitsOk(c, b) && b.level == level
    ensures IsWidth(PfxWidth(c.strides[level]))
    ensures PfxSet(c, b, Nibble(c, id, level), NibbleLen(c, id, level)) <==>
      BitAnd(b.pfxbitarr, BitPos(c, id, level)) != Zero(PfxWidth(c.strides[level]))
  {
    hide Pow2, BitAnd, GetBitPos, AllBits, Zero, GetNibble, Fits;
    Widths(c.strides[level]);
    TestBit(c.strides[level], b.pfxbitarr, Nibble(c, id, level), NibbleLen(c, id, level));
  }

  lemma EvalKeeps<M>(c: Config<M>, s: State<M>, t: nat, level: nat, cur: PrefixId, place: Place)
    requires Inv(c, s) && t < |s.calls| && s.calls[t].pc == Eval(level, cur, place)
    requires ConfigOk(c) && LevelOk(c, s.calls[t].rec.id, level)
    requires HasNode(s, place) && BitsOk(c, BitsAt(s, place)) && BitsAt(s, place).level == level
    ensures Inv(c, EvalStep(c, s, t, level, cur, place)) && Grows(c, s, EvalStep(c, s, t, level, cur, place))
  {
    hide Inv, Grows, Linked, Hosted, BitAnd, IntoStrideSize, BitPos, Zero, PtrSet, PfxSet, Nibble, Fits, Pow2,
         UpsertingOk, LookingOk, TruncateToLen, GoodRow;
    var id, b := s.calls[t].rec.id, BitsAt(s, place);
    CallAt(c, s, t);
    LevelWithin(c, level);
    if !IsLast(c, id, level) {
      PtrTest(c, id, level, b);
      if PtrSet(c, b, Nibble(c, id, level)) {
        BitLinksChild(c, s, id, level, cur, place);
        ChildId(c, id, level);
        StartsLooking(c, s, id, level);
        GoKeeps(c, s, t, Retrieve(level + 1, Cleaned(c.bits, id.net, Offset(c.strides, level + 1)), 0, 0));
      } else {
        GoKeeps(c, s, t, CasPtr(level, cur, place, b.ptrbitarr));
      }
    } else {
      PfxTest(c, id, level, b);
      if PfxSet(c, b, Nibble(c, id, level), NibbleLen(c, id, level)) {
        BitHosts(c, s, id, level, cur, place);
        StartsUpserting(c, s, id);
        GoKeeps(c, s, t, Lookup(0));
      } else {
        GoKeeps(c, s, t, CasPfx(level, cur, place, b.pfxbitarr));
      }
    }
  }

  // ----- Setting a bit ---------------------------------------------------------------------------------------

  /** Swapping in the bitmap with the pointer bit sets that bit and loses none. */
  lemma PtrBitGrows<M>(c: Config<M>, id: PrefixId, level: nat, b: NodeBits)
    requires ConfigOk(c) && LevelOk(c, id, level) && !IsLast(c, id, level) && BitsOk(c, b) && b.level == level
    ensures var b' := b.(ptrbitarr := WithPtrBit(c, id, level, b.ptrbitarr));
      BitsGrow(c, b, b') && BitsOk(c, b') && PtrSet(c, b', Nibble(c, id, level))
  {
    hide Pow2, BitOr, IntoStrideSize, IntoPtrSize, GetBitPos, AllBits, GetNibble, Fits;
    SetPtrBit(c.strides[level], b.ptrbitarr, Nibble(c, id, level));
  }

  lemma PfxBitGrows<M>(c: Config<M>, id: PrefixId, level: nat, b: NodeBits)
    requires ConfigOk(c) && LevelOk(c, id, level) && BitsOk(c, b) && b.level == level
    ensures var b' := b.(pfxbitarr := BitOr(BitPos(c, id, level), b.pfxbitarr));
      BitsGrow(c, b, b') && BitsOk(c, b') && PfxSet(c, b', Nibble(c, id, level), NibbleLen(c, id, level))
  {
    hide Pow2, BitOr, GetBitPos, AllBits, GetNibble, Fits;
    SetBit(c.strides[level], b.pfxbitarr, Nibble(c, id, level), NibbleLen(c, id, level));
  }

  lemma GrowsSelf<M>(c: Config<M>, b: NodeBits)
    requires ConfigOk(c)
    ensures BitsGrow(c, b, b)
  {
  }

  /** Growing the bits of one node grows the memory, and leaves the nodes where they are. */
  lemma WithBitsGrows<M>(c: Config<M>, s: State<M>, place: Place, b: NodeBits)
    requires MemoryOk(c, s) && HasNode(s, place) && BitsGrow(c, BitsAt(s, place), b)
    ensures Grows(c, s, WithBits(s, place, b)) && MemoryOk(c, WithBits(s, place, b))
    ensures forall id, level :: IsNodeAt(s, place, id, level) ==> IsNodeAt(WithBits(s, place, b), place, id, level)
    ensures HasNode(WithBits(s, place, b), place) && BitsAt(WithBits(s, place, b), place) == b
  {
    hide Linked, Hosted, SlotsOk, BitsGrow, BitsOk;
    var s' := WithBits(s, place, b);
    GrowsSelf(c, s.root);
    forall p | p in s.nodes
      ensures BitsGrow(c, s.nodes[p].meta, s.nodes[p].meta)
    {
      GrowsSelf(c, s.nodes[p].meta);
    }
    if place.At? { NodeSlotsKept(c, s, place.slot, b); }
    StillBits(c, s, place, b);
    hide NodeOk, ConfigOk;
    OnlyBitsGrew(c, s, s');
  }

  lemma NodeSlotsKept<M>(c: Config<M>, s: State<M>, slot: Slot, b: NodeBits)
    requires MemoryOk(c, s) && slot in s.nodes
    ensures SlotsOk(c.bits, c.nodeTable, s.nodes[slot := s.nodes[slot].(meta := b)])
  {
    hide Linked, Hosted, Prefixes;
    ReplaceMeta(c.bits, c.nodeTable, s.nodes, slot, b);
  }

  lemma StillBits<M>(c: Config<M>, s: State<M>, place: Place, b: NodeBits)
    requires MemoryOk(c, s) && HasNode(s, place) && BitsGrow(c, BitsAt(s, place), b)
    ensures BitsOk(c, b) && b.level == BitsAt(s, place).level
  {
    hide SlotsOk;
    PlaceBits(c, s, place);
  }

  /** Memory in which only the bits of nodes grew is in order. */
  lemma OnlyBitsGrew<M>(c: Config<M>, s: State<M>, s': State<M>)
    requires MemoryOk(c, s) && Grows(c, s, s')
    requires SlotsOk(c.bits, c.nodeTable, s'.nodes) && s'.pfxs == s.pfxs && s'.versions == s.versions
    requires s'.nodes.Keys == s.nodes.Keys
    ensures MemoryOk(c, s')
  {
    hide Linked, Hosted, SlotsOk, ConfigOk, PtrSet, PfxSet, BitsOk;
    assert forall p :: p in s'.nodes ==> p in s.nodes;
    MemoryGoes(c, s, s');
  }

  /** A call that changes memory other than the prefix store keeps the invariant if its own part does. */
  lemma ChangeKeeps<M>(c: Config<M>, s: State<M>, m: State<M>, t: nat, pc: Pc<M>)
    requires Inv(c, s) && t < |s.calls| && s.calls[t].pc != Done(Inserted) && pc != Done(Inserted)
    requires MemoryOk(c, m) && Grows(c, s, m) && m.pfxs == s.pfxs && m.calls == s.calls && m.log == s.log
    requires CallOk(c, m, s.calls[t].rec.id, pc)
    ensures Inv(c, Go(m, t, pc)) && Grows(c, s, Go(m, t, pc))
  {
    hide MemoryOk, CallOk, Grows, LogOk;
    var s' := Go(m, t, pc);
    TableOf(c, s);
    TableOf(c, m);
    Reflexive(c, m, s');
    MemorySame(c, m, s');
    CallGrows(c, m, s', s.calls[t].rec.id, pc);
    GrowsOn(c, s, m, s');
    CallsGo(c, s, s', t);
    LogSame(c, s, s', t);
  }

  lemma GrowsOn<M>(c: Config<M>, s: State<M>, m: State<M>, s': State<M>)
    requires ConfigOk(c) && Grows(c, s, m)
    requires s'.root == m.root && s'.nodes == m.nodes && s'.pfxs == m.pfxs && s'.versions == m.versions
    ensures Grows(c, s, s')
  {
    hide BitsGrow, ConfigOk;
  }

  lemma CasPtrKeeps<M>(c: Config<M>, s: State<M>, t: nat, level: nat, cur: PrefixId, place: Place, seen: Bitmap)
    requires Inv(c, s) && t < |s.calls| && s.calls[t].pc == CasPtr(level, cur, place, seen)
    requires ConfigOk(c) && LevelOk(c, s.calls[t].rec.id, level)
    requires HasNode(s, place) && Fits(PtrWidth(c.strides[level]), seen)
    requires !IsLast(c, s.calls[t].rec.id, level)
    ensures Inv(c, CasPtrStep(c, s, t, level, cur, place, seen))
    ensures Grows(c, s, CasPtrStep(c, s, t, level, cur, place, seen))
  {
    hide Inv, MemoryOk, Grows, Linked, Hosted, WithPtrBit, PtrSet, PfxSet, Nibble, Fits, Pow2, TruncateToLen, GoodRow,
         WithBits, BitsGrow, BitsAt, StoringOk;
    var id, b := s.calls[t].rec.id, BitsAt(s, place);
    CallAt(c, s, t);
    InvMemory(c, s);
    PlaceBits(c, s, place);
    LevelWithin(c, level);
    if b.ptrbitarr == seen {
      PtrBitGrows(c, id, level, b);
      var b' := b.(ptrbitarr := WithPtrBit(c, id, level, seen));
      var m := WithBits(s, place, b');
      WithBitsGrows(c, s, place, b');
      BitLinksChild(c, m, id, level, cur, place);
      StartsStoring(c, m, id, level);
      SameRest(s, place, b');
      ChangeKeeps(c, s, m, t, StoreNode(level, Cleaned(c.bits, id.net, Offset(c.strides, level + 1)), 0));
    } else {
      GoKeeps(c, s, t, CasPtr(level, cur, place, b.ptrbitarr));
    }
  }

  lemma SameRest<M>(s: State<M>, place: Place, b: NodeBits)
    requires HasNode(s, place)
    ensures var m := WithBits(s, place, b);
      m.pfxs == s.pfxs && m.calls == s.calls && m.log == s.log && m.versions == s.versions
  {
  }

  /** The bitmap swapped in has the prefix bits it had, and the one of the nibble. */
  lemma OnlyPfxBit<M>(c: Config<M>, id: PrefixId, level: nat, b: NodeBits, nibble: nat, len: nat)
    requires ConfigOk(c) && LevelOk(c, id, level) && BitsOk(c, b) && b.level == level && nibble < Pow2(len)
    ensures var b' := b.(pfxbitarr := BitOr(BitPos(c, id, level), b.pfxbitarr));
      PfxSet(c, b', nibble, len) ==>
        PfxSet(c, b, nibble, len) || (nibble == Nibble(c, id, level) && len == NibbleLen(c, id, level))
  {
    hide Pow2, BitOr, GetBitPos, AllBits, GetNibble, Fits, Pos;
    var own, ownLen := Nibble(c, id, level), NibbleLen(c, id, level);
    SetBit(c.strides[level], b.pfxbitarr, own, ownLen);
    if Pos(nibble, len) == Pos(own, ownLen) { PosInjective(nibble, len, own, ownLen); }
  }

  lemma KeptPfx<M>(c: Config<M>, b: NodeBits, b': NodeBits, nibble: nat, len: nat)
    requires ConfigOk(c) && BitsGrow(c, b, b')
    ensures PfxSet(c, b, nibble, len) ==> PfxSet(c, b', nibble, len)
  {
    hide PfxSet, PtrSet, BitsOk, ConfigOk;
  }

  /** The swap sets the one bit of the prefix if it succeeds, and no bit otherwise. */
  lemma CasPfxSets<M>(c: Config<M>, s: State<M>, t: nat, level: nat, cur: PrefixId, place: Place, seen: Bitmap)
    requires ConfigOk(c) && t < |s.calls| && LevelOk(c, s.calls[t].rec.id, level) && HasNode(s, place)
    requires BitsOk(c, BitsAt(s, place)) && BitsAt(s, place).level == level
    ensures var s', id := CasPfxStep(c, s, t, level, cur, place, seen), s.calls[t].rec.id;
      && HasNode(s', place)
      && forall nibble: nat, len: nat :: nibble < Pow2(len) ==>
           (PfxSet(c, BitsAt(s', place), nibble, len) <==>
             || PfxSet(c, BitsAt(s, place), nibble, len)
             || (s'.calls[t].pc == Lookup(0) && nibble == Nibble(c, id, level) && len == NibbleLen(c, id, level)))
  {
    hide Pow2, BitOr, BitPos, PfxSet, BitsOk, Nibble, GoodTable, Canonical, BitsGrow;
    var id, b := s.calls[t].rec.id, BitsAt(s, place);
    PfxBitGrows(c, id, level, b);
    var b' := b.(pfxbitarr := BitOr(BitPos(c, id, level), b.pfxbitarr));
    forall nibble: nat, len: nat | nibble < Pow2(len)
      ensures PfxSet(c, b', nibble, len) <==>
        PfxSet(c, b, nibble, len) || (nibble == Nibble(c, id, level) && len == NibbleLen(c, id, level))
    {
      KeptPfx(c, b, b', nibble, len);
      OnlyPfxBit(c, id, level, b, nibble, len);
    }
  }

  lemma CasPfxKeeps<M>(c: Config<M>, s: State<M>, t: nat, level: nat, cur: PrefixId, place: Place, seen: Bitmap)
    requires Inv(c, s) && t < |s.calls| && s.calls[t].pc == CasPfx(level, cur, place, seen)
    requires ConfigOk(c) && LevelOk(c, s.calls[t].rec.id, level) && HasNode(s, place)
    ensures Inv(c, CasPfxStep(c, s, t, level, cur, place, seen))
    ensures Grows(c, s, CasPfxStep(c, s, t, level, cur, place, seen))
    ensures var s', id := CasPfxStep(c, s, t, level, cur, place, seen), s.calls[t].rec.id;
      && HasNode(s', place)
      && forall nibble: nat, len: nat :: nibble < Pow2(len) ==>
           (PfxSet(c, BitsAt(s', place), nibble, len) <==>
             || PfxSet(c, BitsAt(s, place), nibble, len)
             || (s'.calls[t].pc == Lookup(0) && nibble == Nibble(c, id, level) && len == NibbleLen(c, id, level)))
  {
    hide Inv, MemoryOk, Grows, Linked, Hosted, BitOr, BitPos, PtrSet, PfxSet, Nibble, Fits, Pow2, TruncateToLen,
         GoodRow, WithBits, BitsGrow, BitsAt, UpsertingOk;
    var id, b := s.calls[t].rec.id, BitsAt(s, place);
    CallAt(c, s, t);
    InvMemory(c, s);
    PlaceBits(c, s, place);
    IsNodeHere(s, place, cur, level);
    CasPfxSets(c, s, t, level, cur, place, seen);
    if b.pfxbitarr == seen {
      PfxBitGrows(c, id, level, b);
      var b' := b.(pfxbitarr := BitOr(BitPos(c, id, level), seen));
      var m := WithBits(s, place, b');
      WithBitsGrows(c, s, place, b');
      BitHosts(c, m, id, level, cur, place);
      StartsUpserting(c, m, id);
      SameRest(s, place, b');
      ChangeKeeps(c, s, m, t, Lookup(0));
    } else {
      GoKeeps(c, s, t, CasPfx(level, cur, place, b.pfxbitarr));
    }
  }

  // ----- Storing a node -----------------------------------------------------------------------------------------

  lemma StoredNode<M>(c: Config<M>, s: State<M>, id: PrefixId, level: nat, nid: PrefixId, depth: nat)
    requires ConfigOk(c) && StoringOk(c, s, id, level, nid, depth)
    ensures CallOk(c, s, id, Retrieve(level + 1, nid, 0, 0))
  {
    hide Linked, TruncateToLen, GoodRow;
  }

  lemma StoreKeeps<M>(c: Config<M>, s: State<M>, t: nat, level: nat, nid: PrefixId, depth: nat)
    requires Inv(c, s) && t < |s.calls| && s.calls[t].pc == StoreNode(level, nid, depth)
    requires ConfigOk(c) && NodeSlotOk(c, nid, depth)
    ensures Inv(c, StoreStep(c, s, t, level, nid, depth)) && Grows(c, s, StoreStep(c, s, t, level, nid, depth))
  {
    hide Inv, MemoryOk, Grows, Linked, SlotsOk, SlotAt, TruncateToLen, GoodRow, PathOf, HasBucket, TakenBefore, LevelOk;
    CallAt(c, s, t);
    InvMemory(c, s);
    NodeSlots(c, s);
    WayDown(c.bits, c.nodeTable, s.nodes, nid, depth);
    var slot := SlotAt(c.bits, c.nodeTable, nid, depth);
    StoredNode(c, s, s.calls[t].rec.id, level, nid, depth);
    if slot !in s.nodes {
      GoKeeps(c, s, t, StoreCas(level, nid, depth));
    } else if s.nodes[slot].prefix == nid {
      GoKeeps(c, s, t, Retrieve(level + 1, nid, 0, 0));
    } else {
      GoKeeps(c, s, t, StoreNode(level, nid, depth + 1));
    }
  }

  lemma EmptyBitsOk<M>(c: Config<M>, level: nat)
    requires ConfigOk(c) && level < |c.strides|
    ensures IsStride(c.strides[level]) && BitsOk(c, EmptyBits(c, level)) && EmptyBits(c, level).level == level
  {
    Widths(c.strides[level]);
    ZeroIsEmpty(PtrWidth(c.strides[level]));
    ZeroIsEmpty(PfxWidth(c.strides[level]));
  }

  lemma EmptyHasNoPtr<M>(c: Config<M>, level: nat, nibble: nat)
    requires ConfigOk(c) && level < |c.strides|
    ensures IsStride(c.strides[level]) && !PtrSet(c, EmptyBits(c, level), nibble)
  {
    Widths(c.strides[level]);
    ZeroIsEmpty(PtrWidth(c.strides[level]));
  }

  lemma EmptyHasNoPfx<M>(c: Config<M>, level: nat, nibble: nat, len: nat)
    requires ConfigOk(c) && level < |c.strides|
    ensures IsStride(c.strides[level]) && !PfxSet(c, EmptyBits(c, level), nibble, len)
  {
    hide Pos;
    Widths(c.strides[level]);
    ZeroIsEmpty(PfxWidth(c.strides[level]));
  }

  /** Publishing a node whose parent points to it. */
  lemma PublishNode<M>(c: Config<M>, s: State<M>, nid: PrefixId, level: nat, depth: nat, m: State<M>)
    requires MemoryOk(c, s) && Linked(c, s, nid, level) && NodeSlotOk(c, nid, depth)
    requires TakenBefore(c.bits, c.nodeTable, Owners(s.nodes), nid, depth)
    requires SlotAt(c.bits, c.nodeTable, nid, depth) !in s.nodes
    requires BitsForLen(c.nodeTable, nid.len, depth + 1) > 0 ==>
      BitsForLen(c.nodeTable, nid.len, depth) <= BitsForLen(c.nodeTable, nid.len, depth + 1)
    requires IsStride(c.strides[level])
    requires var slot, rec := SlotAt(c.bits, c.nodeTable, nid, depth), Record(nid, EmptyBits(c, level));
      m == s.(nodes := s.nodes[slot := NewStored(c.nodeTable, rec, depth)])
    ensures MemoryOk(c, m) && Grows(c, s, m)
  {
    hide Hosted, SlotsOk, EmptyBits, SlotAt, PathOf, TruncateToLen, GoodRow, LinkedBy, TakenBefore, Prefixes,
         PtrSet, PfxSet;
    var slot := SlotAt(c.bits, c.nodeTable, nid, depth);
    EmptyBitsOk(c, level);
    FillSlot(c.bits, c.nodeTable, s.nodes, Record(nid, EmptyBits(c, level)), depth);
    NodesGrow(c, s, m, slot);
    LinkedGrows(c, s, m, nid, level);
    hide Linked, Grows, BitsOk;
    assert forall p :: p in m.nodes && p !in s.nodes ==> p == slot;
    MemoryGoes(c, s, m);
  }

  lemma NodesGrow<M>(c: Config<M>, s: State<M>, m: State<M>, slot: Slot)
    requires ConfigOk(c) && slot !in s.nodes && slot in m.nodes && m == s.(nodes := s.nodes[slot := m.nodes[slot]])
    ensures Grows(c, s, m)
  {
    hide PtrSet, PfxSet, BitsOk, ConfigOk;
  }

  lemma StoreCasKeeps<M>(c: Config<M>, s: State<M>, t: nat, level: nat, nid: PrefixId, depth: nat)
    requires Inv(c, s) && t < |s.calls| && s.calls[t].pc == StoreCas(level, nid, depth)
    requires ConfigOk(c) && NodeSlotOk(c, nid, depth) && level + 1 < |c.strides|
    ensures Inv(c, StoreCasStep(c, s, t, level, nid, depth)) && Grows(c, s, StoreCasStep(c, s, t, level, nid, depth))
    ensures var s' := StoreCasStep(c, s, t, level, nid, depth);
      forall p :: p in s'.nodes && p !in s.nodes ==>
        && s'.nodes[p].prefix == nid
        && (forall nibble: nat :: !PtrSet(c, s'.nodes[p].meta, nibble))
        && (forall nibble: nat, len: nat :: !PfxSet(c, s'.nodes[p].meta, nibble, len))
  {
    hide Inv, MemoryOk, Grows, Linked, SlotsOk, SlotAt, TruncateToLen, GoodRow, PathOf, TakenBefore, EmptyBits,
         NewStored, LevelOk;
    CallAt(c, s, t);
    InvMemory(c, s);
    RowGrows(c.bits, c.nodeTable, nid.len, depth);
    var slot := SlotAt(c.bits, c.nodeTable, nid, depth);
    if slot !in s.nodes {
      var m := s.(nodes := s.nodes[slot := NewStored(c.nodeTable, Record(nid, EmptyBits(c, level + 1)), depth)]);
      PublishNode(c, s, nid, level + 1, depth, m);
      StoredNode(c, s, s.calls[t].rec.id, level, nid, depth);
      CallGrows(c, s, m, s.calls[t].rec.id, Retrieve(level + 1, nid, 0, 0));
      ChangeKeeps(c, s, m, t, Retrieve(level + 1, nid, 0, 0));
    } else {
      GoKeeps(c, s, t, StoreNode(level, nid, depth));
    }
    StoreCasNew(c, s, t, level, nid, depth);
  }

  /** The node that is published, if any, is the call's, without any bit. */
  lemma StoreCasNew<M>(c: Config<M>, s: State<M>, t: nat, level: nat, nid: PrefixId, depth: nat)
    requires ConfigOk(c) && t < |s.calls| && NodeSlotOk(c, nid, depth) && level + 1 < |c.strides|
    ensures var s' := StoreCasStep(c, s, t, level, nid, depth);
      forall p :: p in s'.nodes && p !in s.nodes ==>
        && s'.nodes[p].prefix == nid
        && (forall nibble: nat :: !PtrSet(c, s'.nodes[p].meta, nibble))
        && (forall nibble: nat, len: nat :: !PfxSet(c, s'.nodes[p].meta, nibble, len))
  {
    hide SlotAt, GoodRow, Canonical, EmptyBits, PtrSet, PfxSet, BitsForLen;
    var b := EmptyBits(c, level + 1);
    RowGrows(c.bits, c.nodeTable, nid.len, depth);
    forall nibble: nat
      ensures !PtrSet(c, b, nibble)
    {
      EmptyHasNoPtr(c, level + 1, nibble);
    }
    forall nibble: nat, len: nat
      ensures !PfxSet(c, b, nibble, len)
    {
      EmptyHasNoPfx(c, level + 1, nibble, len);
    }
  }

  // ----- Upserting a prefix -----------------------------------------------------------------------------------------

  lemma LookupKeeps<M>(c: Config<M>, s: State<M>, t: nat, depth: nat)
    requires Inv(c, s) && t < |s.calls| && s.calls[t].pc == Lookup(depth)
    requires ConfigOk(c) && GoodId(c.bits, s.calls[t].rec.id) && depth < |c.pfxTable[s.calls[t].rec.id.len]|
    ensures Inv(c, LookupStep(c, s, t, depth)) && Grows(c, s, LookupStep(c, s, t, depth))
  {
    hide Inv, MemoryOk, Grows, Hosted, SlotsOk, SlotAt, TruncateToLen, GoodRow, PathOf, HasBucket, TakenBefore;
    CallAt(c, s, t);
    InvMemory(c, s);
    NodeSlots(c, s);
    var id := s.calls[t].rec.id;
    WayDown(c.bits, c.pfxTable, s.pfxs, id, depth);
    var slot := SlotAt(c.bits, c.pfxTable, id, depth);
    if slot !in s.pfxs || s.pfxs[slot].prefix == id {
      GoKeeps(c, s, t, Reload(depth));
    } else {
      GoKeeps(c, s, t, Lookup(depth + 1));
    }
  }

  lemma ReloadKeeps<M>(c: Config<M>, s: State<M>, t: nat, depth: nat)
    requires Inv(c, s) && t < |s.calls| && s.calls[t].pc == Reload(depth)
    requires ConfigOk(c) && GoodId(c.bits, s.calls[t].rec.id) && depth < |c.pfxTable[s.calls[t].rec.id.len]|
    ensures Inv(c, ReloadStep(c, s, t, depth)) && Grows(c, s, ReloadStep(c, s, t, depth))
  {
    hide Inv, Grows, UpsertingOk, SlotAt, GoodRow, TruncateToLen;
    CallAt(c, s, t);
    var slot := SlotAt(c.bits, c.pfxTable, s.calls[t].rec.id, depth);
    if slot !in s.pfxs { GoKeeps(c, s, t, Create(depth)); } else { GoKeeps(c, s, t, LoadRecord(slot)); }
  }

  lemma LoadKeeps<M>(c: Config<M>, s: State<M>, t: nat, slot: Slot)
    requires Inv(c, s) && t < |s.calls| && s.calls[t].pc == LoadRecord(slot) && slot in s.pfxs && slot in s.versions
    ensures Inv(c, LoadStep(s, t, slot)) && Grows(c, s, LoadStep(s, t, slot))
  {
    hide Inv, Grows, ConfigOk, GoodId;
    CallAt(c, s, t);
    GoKeeps(c, s, t, Merge(slot, s.versions[slot], s.pfxs[slot].meta.meta));
  }

  /** A call that changes one record of the prefix store, and is logged with it, keeps the invariant. */
  lemma UpsertKeeps<M>(c: Config<M>, s: State<M>, s': State<M>, t: nat, target: PrefixId)
    requires Inv(c, s) && t < |s.calls| && s.calls[t].pc != Done(Inserted)
    requires s'.calls == s.calls[t := s.calls[t].(pc := Done(Inserted))] && s'.log == s.log + [Entry(t, target)]
    requires MemoryOk(c, s') && Grows(c, s, s')
    requires Distinct(s.pfxs) && Distinct(s'.pfxs)
    requires Prefixes(s'.pfxs) == Upserted(Prefixes(s.pfxs), Record(target, s.calls[t].rec), RecMerge(c.merge))
    ensures Inv(c, s')
  {
    hide MemoryOk, Grows, LogOk, Prefixes, Distinct, Upserted, RecMerge;
    CallAt(c, s, t);
    CallsGo(c, s, s', t);
    LogNext(c, s, s', t, target);
  }

  lemma PfxGrows<M>(c: Config<M>, s: State<M>, m: State<M>, slot: Slot)
    requires ConfigOk(c) && m.root == s.root && m.nodes == s.nodes && s.versions.Keys == s.pfxs.Keys
    requires slot in m.pfxs && m.pfxs == s.pfxs[slot := m.pfxs[slot]]
    requires slot in m.versions && m.versions == s.versions[slot := m.versions[slot]]
    requires slot in s.pfxs ==> m.pfxs[slot].prefix == s.pfxs[slot].prefix && m.versions[slot] > s.versions[slot]
    ensures Grows(c, s, m) && m.versions.Keys == m.pfxs.Keys
  {
    hide PtrSet, PfxSet, BitsOk, ConfigOk;
  }

  lemma CreateKeeps<M>(c: Config<M>, s: State<M>, t: nat, depth: nat)
    requires Inv(c, s) && t < |s.calls| && s.calls[t].pc == Create(depth)
    requires ConfigOk(c) && GoodId(c.bits, s.calls[t].rec.id) && depth < |c.pfxTable[s.calls[t].rec.id.len]|
    ensures Inv(c, CreateStep(c, s, t, depth)) && Grows(c, s, CreateStep(c, s, t, depth))
  {
    hide Inv, MemoryOk, Grows, Hosted, SlotsOk, SlotAt, TruncateToLen, GoodRow, PathOf, TakenBefore, Prefixes,
         NewStored, Distinct;
    CallAt(c, s, t);
    InvMemory(c, s);
    var rec := s.calls[t].rec;
    RowGrows(c.bits, c.pfxTable, rec.id.len, depth);
    if SlotAt(c.bits, c.pfxTable, rec.id, depth) !in s.pfxs {
      var s' := CreateStep(c, s, t, depth);
      CreateMemory(c, s, s', rec, depth);
      UpsertKeeps(c, s, s', t, rec.id);
    } else {
      GoKeeps(c, s, t, Done(PrefixAlreadyExist));
    }
  }

  lemma CreateMemory<M>(c: Config<M>, s: State<M>, s': State<M>, rec: Record<M>, depth: nat)
    requires MemoryOk(c, s) && UpsertingOk(c, s, rec.id, depth) && SlotAt(c.bits, c.pfxTable, rec.id, depth) !in s.pfxs
    requires BitsForLen(c.pfxTable, rec.id.len, depth + 1) > 0 ==>
      BitsForLen(c.pfxTable, rec.id.len, depth) <= BitsForLen(c.pfxTable, rec.id.len, depth + 1)
    requires var slot := SlotAt(c.bits, c.pfxTable, rec.id, depth);
      s'.root == s.root && s'.nodes == s.nodes && s'.versions == s.versions[slot := 0]
      && s'.pfxs == s.pfxs[slot := NewStored(c.pfxTable, Record(rec.id, rec), depth)]
    ensures MemoryOk(c, s') && Grows(c, s, s')
    ensures Distinct(s.pfxs) && Distinct(s'.pfxs) && rec.id !in Prefixes(s.pfxs)
    ensures Prefixes(s'.pfxs) == Upserted(Prefixes(s.pfxs), Record(rec.id, rec), RecMerge(c.merge))
  {
    hide Hosted, Prefixes, SlotAt, TruncateToLen, GoodRow, TakenBefore, NodeOk, ChainOk, BucketsOk, Distinct;
    var slot := SlotAt(c.bits, c.pfxTable, rec.id, depth);
    EndSlot(c.bits, c.pfxTable, s.pfxs, rec.id, depth);
    FillSlot(c.bits, c.pfxTable, s.pfxs, Record(rec.id, rec), depth);
    PfxGrows(c, s, s', slot);
    HostedGrows(c, s, s', rec.id);
    hide Grows;
    MemoryGoes(c, s, s');
  }

  lemma MergeKeeps<M>(c: Config<M>, s: State<M>, t: nat, slot: Slot, version: nat, meta: M)
    requires Inv(c, s) && t < |s.calls| && s.calls[t].pc == Merge(slot, version, meta)
    requires slot in s.pfxs && slot in s.versions
    ensures Inv(c, MergeStep(c, s, t, slot, version, meta)) && Grows(c, s, MergeStep(c, s, t, slot, version, meta))
  {
    hide Inv, MemoryOk, Grows, Prefixes, Distinct, ConfigOk, GoodId;
    CallAt(c, s, t);
    InvMemory(c, s);
    if s.versions[slot] == version {
      var s' := MergeStep(c, s, t, slot, version, meta);
      MergeMemory(c, s, s', slot, s.calls[t].rec);
      UpsertKeeps(c, s, s', t, s.pfxs[slot].prefix);
    } else {
      GoKeeps(c, s, t, Merge(slot, s.versions[slot], s.pfxs[slot].meta.meta));
    }
  }

  lemma MergeMemory<M>(c: Config<M>, s: State<M>, s': State<M>, slot: Slot, rec: Record<M>)
    requires MemoryOk(c, s) && slot in s.pfxs && slot in s.versions
    requires s'.root == s.root && s'.nodes == s.nodes && s'.versions == s.versions[slot := s.versions[slot] + 1]
    requires s'.pfxs == s.pfxs[slot := s.pfxs[slot].(meta := Record(rec.id, c.merge(s.pfxs[slot].meta.meta, rec.meta)))]
    ensures MemoryOk(c, s') && Grows(c, s, s')
    ensures Distinct(s.pfxs) && Distinct(s'.pfxs)
    ensures Prefixes(s'.pfxs) == Upserted(Prefixes(s.pfxs), Record(s.pfxs[slot].prefix, rec), RecMerge(c.merge))
  {
    hide Hosted, Prefixes, NodeOk, ChainOk, BucketsOk, Distinct, ConfigOk;
    ReplaceMeta(c.bits, c.pfxTable, s.pfxs, slot, Record(rec.id, c.merge(s.pfxs[slot].meta.meta, rec.meta)));
    AtSlotOk(c, s, slot);
    PfxGrows(c, s, s', slot);
    hide Grows;
    MemoryGoes(c, s, s');
  }

  lemma AtSlotOk<M>(c: Config<M>, s: State<M>, slot: Slot)
    requires MemoryOk(c, s) && slot in s.pfxs
    ensures Distinct(s.pfxs) && s.pfxs[slot].prefix in Prefixes(s.pfxs)
    ensures Prefixes(s.pfxs)[s.pfxs[slot].prefix] == s.pfxs[slot].meta
  {
    hide Hosted, Prefixes, NodeOk, ChainOk, BucketsOk;
    AtSlot(s.pfxs, slot);
  }
}
