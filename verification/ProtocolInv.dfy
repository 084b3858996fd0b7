/** What every step of every interleaving of inserts keeps. */
module ProtocolInv {
  import opened Bits
  import opened Af
  import opened Stride
  import opened Records
  import opened Chain
  import opened PrefixStores
  import opened Protocol

  // ----- Bits in nodes -------------------------------------------------------------------------

  ghost predicate PtrSet<M>(c: Config<M>, b: NodeBits, nibble: nat)
    requires ConfigOk(c)
  {
    BitsOk(c, b) && nibble < Pow2(c.strides[b.level]) && AllBits(PtrWidth(c.strides[b.level]), b.ptrbitarr)[nibble]
  }

  ghost predicate PfxSet<M>(c: Config<M>, b: NodeBits, nibble: nat, len: nat)
    requires ConfigOk(c)
  {
    && BitsOk(c, b)
    && Pos(nibble, len) < PfxWidth(c.strides[b.level])
    && AllBits(PfxWidth(c.strides[b.level]), b.pfxbitarr)[Pos(nibble, len)]
  }

  /** No bit is lost. */
  ghost predicate BitsGrow<M>(c: Config<M>, b: NodeBits, b': NodeBits)
    requires ConfigOk(c)
  {
    && b'.level == b.level
    && (BitsOk(c, b) ==> BitsOk(c, b'))
    && (forall nibble :: PtrSet(c, b, nibble) ==> PtrSet(c, b', nibble))
    && (forall nibble, len :: PfxSet(c, b, nibble, len) ==> PfxSet(c, b', nibble, len))
  }

  /** The place holds the node with the given id, at the given level. */
  ghost predicate IsNodeAt<M>(s: State<M>, place: Place, id: PrefixId, level: nat) {
    && HasNode(s, place)
    && BitsAt(s, place).level == level
    && if place.Root? then id == PrefixId(0, 0) else s.nodes[place.slot].prefix == id
  }

  /** The number of the nibble that id has at a level it fills. */
  ghost function FullNibble<M>(c: Config<M>, id: PrefixId, level: nat): nat
    requires ConfigOk(c) && level < |c.strides| && id.net < Pow2(c.bits)
  {
    LevelWithin(c, level);
    GetNibble(c.bits, id.net, Offset(c.strides, level), c.strides[level])
  }

  /** The parent of a node is stored, and has its pointer bit for it set. */
  ghost predicate Linked<M>(c: Config<M>, s: State<M>, id: PrefixId, level: nat)
    requires ConfigOk(c)
  {
    && 0 < level < |c.strides| && GoodId(c.bits, id) && id.len == Offset(c.strides, level)
    && exists place {:trigger HasNode(s, place)} :: HasNode(s, place) && LinkedBy(c, s, id, level, place)
  }

  ghost predicate LinkedBy<M>(c: Config<M>, s: State<M>, id: PrefixId, level: nat, place: Place)
    requires ConfigOk(c) && 0 < level < |c.strides| && GoodId(c.bits, id) && HasNode(s, place)
  {
    LevelWithin(c, level - 1);
    && IsNodeAt(s, place, Cleaned(c.bits, id.net, Offset(c.strides, level - 1)), level - 1)
    && PtrSet(c, BitsAt(s, place), FullNibble(c, id, level - 1))
  }

  /** The node that hosts a prefix is stored, and has its prefix bit for it set. */
  ghost predicate Hosted<M>(c: Config<M>, s: State<M>, id: PrefixId)
    requires ConfigOk(c)
  {
    exists level, place {:trigger HostedBy(c, s, id, level, place)} :: HostedBy(c, s, id, level, place)
  }

  ghost predicate HostedBy<M>(c: Config<M>, s: State<M>, id: PrefixId, level: nat, place: Place)
    requires ConfigOk(c)
  {
    && LevelOk(c, id, level) && IsLast(c, id, level)
    && HasNode(s, place)
    && (LevelWithin(c, level); IsNodeAt(s, place, Cleaned(c.bits, id.net, Offset(c.strides, level)), level))
    && PfxSet(c, BitsAt(s, place), Nibble(c, id, level), NibbleLen(c, id, level))
  }

  // ----- The invariant ---------------------------------------------------------------------------

  ghost predicate NodeOk<M>(c: Config<M>, s: State<M>, p: Slot)
    requires ConfigOk(c) && p in s.nodes
  {
    BitsOk(c, s.nodes[p].meta) && Linked(c, s, s.nodes[p].prefix, s.nodes[p].meta.level)
  }

  /** Every node has a parent that points to it; every stored prefix has its bit set in its hosting node. */
  ghost predicate MemoryOk<M>(c: Config<M>, s: State<M>) {
    && ConfigOk(c)
    && SlotsOk(c.bits, c.nodeTable, s.nodes)
    && SlotsOk(c.bits, c.pfxTable, s.pfxs)
    && s.versions.Keys == s.pfxs.Keys
    && BitsOk(c, s.root) && s.root.level == 0
    && (forall p :: p in s.nodes ==> NodeOk(c, s, p))
    && (forall q :: q in s.pfxs ==> Hosted(c, s, s.pfxs[q].prefix))
  }

  /** A call that looks for a node below the root knows its parent's bit set, and found only other nodes on the way. */
  ghost predicate LookingOk<M>(c: Config<M>, s: State<M>, level: nat, cur: PrefixId, depth: nat)
    requires ConfigOk(c)
  {
    && NodeSlotOk(c, cur, depth)
    && Linked(c, s, cur, level)
    && TakenBefore(c.bits, c.nodeTable, Owners(s.nodes), cur, depth)
  }

  /** A call that stores a node has set the pointer bit and found only other nodes on the way down. */
  ghost predicate StoringOk<M>(c: Config<M>, s: State<M>, id: PrefixId, level: nat, nid: PrefixId, depth: nat)
    requires ConfigOk(c)
  {
    && LevelOk(c, id, level + 1)
    && (LevelWithin(c, level); nid == Cleaned(c.bits, id.net, Offset(c.strides, level + 1)))
    && Linked(c, s, nid, level + 1)
    && NodeSlotOk(c, nid, depth)
    && TakenBefore(c.bits, c.nodeTable, Owners(s.nodes), nid, depth)
  }

  /** A call that upserts has set the prefix bit and found only other prefixes on the way down. */
  ghost predicate UpsertingOk<M>(c: Config<M>, s: State<M>, id: PrefixId, depth: nat)
    requires ConfigOk(c)
  {
    && GoodId(c.bits, id) && depth < |c.pfxTable[id.len]|
    && Hosted(c, s, id)
    && TakenBefore(c.bits, c.pfxTable, Owners(s.pfxs), id, depth)
  }

  ghost predicate AtLevel<M>(c: Config<M>, id: PrefixId, level: nat, cur: PrefixId)
    requires ConfigOk(c)
  {
    LevelOk(c, id, level) && (LevelWithin(c, level); cur == Cleaned(c.bits, id.net, Offset(c.strides, level)))
  }

  ghost predicate CallOk<M>(c: Config<M>, s: State<M>, id: PrefixId, pc: Pc<M>)
    requires ConfigOk(c)
  {
    GoodId(c.bits, id) &&
    match pc
    case Start => true
    case Retrieve(level, cur, tries, depth) =>
      && AtLevel(c, id, level, cur)
      && (level > 0 ==> LookingOk(c, s, level, cur, depth))
    case Eval(level, cur, place) => AtLevel(c, id, level, cur) && IsNodeAt(s, place, cur, level)
    case CasPtr(level, cur, place, seen) =>
      AtLevel(c, id, level, cur) && IsNodeAt(s, place, cur, level) && !IsLast(c, id, level)
        && Fits(PtrWidth(c.strides[level]), seen)
    case CasPfx(level, cur, place, seen) =>
      AtLevel(c, id, level, cur) && IsNodeAt(s, place, cur, level) && IsLast(c, id, level)
        && Fits(PfxWidth(c.strides[level]), seen)
    case StoreNode(level, nid, depth) => StoringOk(c, s, id, level, nid, depth)
    case StoreCas(level, nid, depth) => StoringOk(c, s, id, level, nid, depth)
    case Lookup(depth) => UpsertingOk(c, s, id, depth)
    case Reload(depth) => UpsertingOk(c, s, id, depth)
    case Create(depth) => UpsertingOk(c, s, id, depth)
    case LoadRecord(slot) => slot in s.pfxs
    case Merge(slot, version, meta) =>
      && slot in s.pfxs && slot in s.versions
      && version <= s.versions[slot] && (version == s.versions[slot] ==> meta == s.pfxs[slot].meta.meta)
    case Done(result) => !result.NodeNotFound? && !result.OutOfLevels? && !result.MissingBucket?
  }

  /** The log names calls only. */
  ghost predicate LogInRange(calls: nat, log: seq<Entry>) {
    forall i :: 0 <= i < |log| ==> log[i].call < calls
  }

  /** The records that the logged changes put, with the prefixes whose records they changed. */
  ghost function Applied<M>(calls: seq<Call<M>>, log: seq<Entry>): (recs: seq<Record<Record<M>>>)
    requires LogInRange(|calls|, log)
    ensures |recs| == |log|
    ensures forall i :: 0 <= i < |log| ==> recs[i] == Record(log[i].target, calls[log[i].call].rec)
  {
    seq(|log|, i requires 0 <= i < |log| => Record(log[i].target, calls[log[i].call].rec))
  }

  /** A change merges the metadata, and leaves a record of the prefix of the call that made it. */
  function RecMerge<M>(merge: (M, M) -> M): (Record<M>, Record<M>) -> Record<M> {
    (a: Record<M>, b: Record<M>) => Record(b.id, merge(a.meta, b.meta))
  }

  /** A change of the log was made by call t. */
  ghost predicate Changed(log: seq<Entry>, t: nat) {
    exists i :: 0 <= i < |log| && log[i].call == t
  }

  /** The log lists the calls that returned Ok, each once, and the store holds what they amount to in that order. */
  ghost predicate LogOk<M>(c: Config<M>, s: State<M>)
    requires Distinct(s.pfxs)
  {
    && LogInRange(|s.calls|, s.log)
    && (forall i, j :: 0 <= i < j < |s.log| ==> s.log[i].call != s.log[j].call)
    && (forall t: nat :: Changed(s.log, t) <==> t < |s.calls| && s.calls[t].pc == Done(Inserted))
    && Prefixes(s.pfxs) == Run(Applied(s.calls, s.log), RecMerge(c.merge))
  }

  ghost predicate CallsOk<M>(c: Config<M>, s: State<M>)
    requires ConfigOk(c)
  {
    forall t :: 0 <= t < |s.calls| ==> CallOk(c, s, s.calls[t].rec.id, s.calls[t].pc)
  }

  ghost predicate Inv<M>(c: Config<M>, s: State<M>) {
    MemoryOk(c, s) && CallsOk(c, s) && LogOk(c, s)
  }

  // ----- Memory only grows -----------------------------------------------------------------------

  /** Taken slots stay with their owners, bits stay set, and a record changes only with its version. */
  ghost predicate Grows<M>(c: Config<M>, s: State<M>, s': State<M>)
    requires ConfigOk(c)
  {
    && BitsGrow(c, s.root, s'.root)
    && (forall p :: p in s.nodes ==>
      p in s'.nodes && s'.nodes[p].prefix == s.nodes[p].prefix && BitsGrow(c, s.nodes[p].meta, s'.nodes[p].meta))
    && (forall q :: q in s.pfxs ==> q in s'.pfxs && s'.pfxs[q].prefix == s.pfxs[q].prefix)
    && (forall q :: q in s.pfxs && q in s.versions ==>
         && q in s'.versions && s.versions[q] <= s'.versions[q]
         && (s.versions[q] == s'.versions[q] ==> s'.pfxs[q].meta == s.pfxs[q].meta))
  }

  lemma PlaceGrows<M>(c: Config<M>, s: State<M>, s': State<M>, place: Place)
    requires ConfigOk(c) && Grows(c, s, s') && HasNode(s, place)
    ensures HasNode(s', place) && BitsGrow(c, BitsAt(s, place), BitsAt(s', place))
    ensures forall id, level :: IsNodeAt(s, place, id, level) ==> IsNodeAt(s', place, id, level)
  {
    hide PtrSet, PfxSet, BitsOk;
  }

  lemma LinkedGrows<M>(c: Config<M>, s: State<M>, s': State<M>, id: PrefixId, level: nat)
    requires ConfigOk(c) && Grows(c, s, s') && Linked(c, s, id, level)
    ensures Linked(c, s', id, level)
  {
    hide PtrSet, PfxSet, Grows, FullNibble, Cleaned, GoodId, IsNodeAt;
    var place :| HasNode(s, place) && LinkedBy(c, s, id, level, place);
    PlaceGrows(c, s, s', place);
    assert LinkedBy(c, s', id, level, place);
  }

  lemma HostedGrows<M>(c: Config<M>, s: State<M>, s': State<M>, id: PrefixId)
    requires ConfigOk(c) && Grows(c, s, s') && Hosted(c, s, id)
    ensures Hosted(c, s', id)
  {
    hide PtrSet, PfxSet, Grows, Cleaned, GoodId, IsNodeAt, Nibble, NibbleLen;
    var level, place :| HostedBy(c, s, id, level, place);
    PlaceGrows(c, s, s', place);
    assert HostedBy(c, s', id, level, place);
  }

  lemma TakenGrows<D>(bits: nat, table: Table, slots: Slots<D>, slots': Slots<D>, id: PrefixId, depth: nat)
    requires GoodTable(bits, table) && GoodId(bits, id) && TakenBefore(bits, table, Owners(slots), id, depth)
    requires forall p :: p in slots ==> p in slots' && slots'[p].prefix == slots[p].prefix
    ensures TakenBefore(bits, table, Owners(slots'), id, depth)
  {
  }

  lemma LookingGrows<M>(c: Config<M>, s: State<M>, s': State<M>, level: nat, cur: PrefixId, depth: nat)
    requires ConfigOk(c) && Grows(c, s, s') && LookingOk(c, s, level, cur, depth)
    ensures LookingOk(c, s', level, cur, depth)
  {
    hide Linked, TakenBefore, BitsGrow, Canonical, GoodRow;
    LinkedGrows(c, s, s', cur, level);
    TakenGrows(c.bits, c.nodeTable, s.nodes, s'.nodes, cur, depth);
  }

  lemma StoringGrows<M>(c: Config<M>, s: State<M>, s': State<M>, id: PrefixId, level: nat, nid: PrefixId, depth: nat)
    requires ConfigOk(c) && Grows(c, s, s') && StoringOk(c, s, id, level, nid, depth)
    ensures StoringOk(c, s', id, level, nid, depth)
  {
    hide Linked, TakenBefore, BitsGrow, Canonical, GoodRow;
    LinkedGrows(c, s, s', nid, level + 1);
    TakenGrows(c.bits, c.nodeTable, s.nodes, s'.nodes, nid, depth);
  }

  lemma UpsertingGrows<M>(c: Config<M>, s: State<M>, s': State<M>, id: PrefixId, depth: nat)
    requires ConfigOk(c) && Grows(c, s, s') && UpsertingOk(c, s, id, depth)
    ensures UpsertingOk(c, s', id, depth)
  {
    hide Hosted, TakenBefore, BitsGrow, Canonical, GoodRow;
    HostedGrows(c, s, s', id);
    TakenGrows(c.bits, c.pfxTable, s.pfxs, s'.pfxs, id, depth);
  }

  lemma RecordGrows<M>(c: Config<M>, s: State<M>, s': State<M>, id: PrefixId, slot: Slot, version: nat, meta: M)
    requires ConfigOk(c) && Grows(c, s, s') && CallOk(c, s, id, Merge(slot, version, meta))
    ensures CallOk(c, s', id, Merge(slot, version, meta))
  {
    hide BitsGrow, GoodId, ConfigOk;
  }

  /** What holds of a call holds whatever the other calls do. */
  lemma CallGrows<M>(c: Config<M>, s: State<M>, s': State<M>, id: PrefixId, pc: Pc<M>)
    requires ConfigOk(c) && Grows(c, s, s') && CallOk(c, s, id, pc)
    ensures CallOk(c, s', id, pc)
  {
    hide Linked, Hosted, IsNodeAt, AtLevel, LookingOk, StoringOk, UpsertingOk, NodeSlotOk, GoodRow, Canonical, IsLast,
         Fits,
         Cleaned;
    match pc
    case Retrieve(level, cur, _, depth) =>
      hide Grows;
      if level > 0 { LookingGrows(c, s, s', level, cur, depth); }
    case Eval(_, _, place) =>
      EvalGrows(c, s, s', place);
    case CasPtr(_, _, place, _) =>
      EvalGrows(c, s, s', place);
    case CasPfx(_, _, place, _) =>
      EvalGrows(c, s, s', place);
    case StoreNode(level, nid, depth) =>
      hide Grows;
      StoringGrows(c, s, s', id, level, nid, depth);
    case StoreCas(level, nid, depth) =>
      hide Grows;
      StoringGrows(c, s, s', id, level, nid, depth);
    case Lookup(depth) =>
      hide Grows;
      UpsertingGrows(c, s, s', id, depth);
    case Reload(depth) =>
      hide Grows;
      UpsertingGrows(c, s, s', id, depth);
    case Create(depth) =>
      hide Grows;
      UpsertingGrows(c, s, s', id, depth);
    case Merge(slot, version, meta) =>
      RecordGrows(c, s, s', id, slot, version, meta);
    case _ =>
  }

  lemma EvalGrows<M>(c: Config<M>, s: State<M>, s': State<M>, place: Place)
    requires ConfigOk(c) && Grows(c, s, s')
    ensures forall id, level :: IsNodeAt(s, place, id, level) ==> IsNodeAt(s', place, id, level)
  {
    hide PtrSet, PfxSet, BitsOk;
    if HasNode(s, place) { PlaceGrows(c, s, s', place); }
  }
}
