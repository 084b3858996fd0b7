/**
 * Concurrent inserts into the tree over the chained stores, as steps. A step is one access to shared
 * memory that another call can change; a schedule is any sequence of calls, so every interleaving is
 * a schedule. A bucket never changes once its slot is taken, so it is looked at together with the slot.
 */
module Protocol {
  import opened Bits
  import opened Af
  import opened Stride
  import opened Records
  import opened Chain
  import opened PrefixStores

  /** The bitmaps of a node; its level tells its stride. */
  datatype NodeBits = NodeBits(level: nat, ptrbitarr: Bitmap, pfxbitarr: Bitmap)

  datatype Config<!M> = Config(bits: nat, strides: seq<nat>, nodeTable: Table, pfxTable: Table, merge: (M, M) -> M)

  /** Where a node was found: the root, or a slot of the node store. */
  datatype Place = Root | At(slot: Slot)

  datatype Result =
    | Inserted
    | NodeCreationMaxRetryError
    | PrefixAlreadyExist
    | NodeNotFound
    | OutOfLevels
    | MissingBucket

  /** Where a call is: what it does next, and what it has read so far. */
  datatype Pc<M> =
    | Start
    | Retrieve(level: nat, cur: PrefixId, tries: nat, depth: nat)
    | Eval(level: nat, cur: PrefixId, place: Place)
    | CasPtr(level: nat, cur: PrefixId, place: Place, seen: Bitmap)
    | CasPfx(level: nat, cur: PrefixId, place: Place, seen: Bitmap)
    | StoreNode(level: nat, id: PrefixId, depth: nat)
    | StoreCas(level: nat, id: PrefixId, depth: nat)
    | Lookup(depth: nat)
    | Reload(depth: nat)
    | Create(depth: nat)
    | LoadRecord(slot: Slot)
    | Merge(slot: Slot, version: nat, meta: M)
    | Done(result: Result)

  /** One insert call. */
  datatype Call<M> = Call(rec: Record<M>, pc: Pc<M>)

  /** A change of the prefix store: the call that made it, and the prefix whose record it changed. */
  datatype Entry = Entry(call: nat, target: PrefixId)

  /** The shared memory, the calls, and the changes of the prefix store, in their order. */
  datatype State<M> = State(
    root: NodeBits,
    nodes: Slots<NodeBits>,
    pfxs: Slots<Record<M>>,
    versions: map<Slot, nat>,
    calls: seq<Call<M>>,
    log: seq<Entry>)

  const MAX_RETRIES: nat := 8

  ghost predicate ConfigOk<M>(c: Config<M>) {
    && c.bits > 0
    && (forall d :: 0 <= d < |c.strides| ==> 3 <= c.strides[d] <= 5)
    && Offset(c.strides, |c.strides|) == c.bits
    && GoodTable(c.bits, c.nodeTable)
    && GoodTable(c.bits, c.pfxTable)
  }

  /** The stride list is not exhausted before the prefix is. */
  lemma LevelWithin<M>(c: Config<M>, level: nat)
    requires ConfigOk(c) && level < |c.strides|
    ensures Offset(c.strides, level) + c.strides[level] == Offset(c.strides, level + 1) <= c.bits
    ensures IsStride(c.strides[level])
    ensures level + 1 == |c.strides| ==> Offset(c.strides, level + 1) == c.bits
  {
    OffsetMono(c.strides, level + 1, |c.strides|);
  }

  // ----- What the insertion loop computes per level --------------------------------------------

  predicate IsLast<M>(c: Config<M>, id: PrefixId, level: nat)
    requires level < |c.strides|
  {
    id.len <= Offset(c.strides, level + 1)
  }

  function NibbleLen<M>(c: Config<M>, id: PrefixId, level: nat): (n: nat)
    requires level < |c.strides| && Offset(c.strides, level) <= id.len
    ensures n <= c.strides[level] && Offset(c.strides, level) + n <= id.len
    ensures !IsLast(c, id, level) ==> n == c.strides[level]
    ensures IsLast(c, id, level) ==> Offset(c.strides, level) + n == id.len
  {
    var strideEnd := Offset(c.strides, level + 1);
    if id.len < strideEnd then c.strides[level] + id.len - strideEnd else c.strides[level]
  }

  function Nibble<M>(c: Config<M>, id: PrefixId, level: nat): (n: nat)
    requires ConfigOk(c) && GoodId(c.bits, id) && level < |c.strides| && Offset(c.strides, level) < id.len
    ensures n < Pow2(NibbleLen(c, id, level))
  {
    NibbleIsSlice(c.bits, id.net, Offset(c.strides, level), NibbleLen(c, id, level));
    GetNibble(c.bits, id.net, Offset(c.strides, level), NibbleLen(c, id, level))
  }

  function BitPos<M>(c: Config<M>, id: PrefixId, level: nat): Bitmap
    requires ConfigOk(c) && GoodId(c.bits, id) && level < |c.strides| && Offset(c.strides, level) < id.len
  {
    GetBitPos(c.strides[level], Nibble(c, id, level), NibbleLen(c, id, level))
  }

  function EmptyBits<M>(c: Config<M>, level: nat): NodeBits
    requires level < |c.strides| && IsStride(c.strides[level])
  {
    Widths(c.strides[level]);
    NodeBits(level, Zero(PtrWidth(c.strides[level])), Zero(PfxWidth(c.strides[level])))
  }

  // ----- Shared memory -----------------------------------------------------------------------------

  predicate HasNode<M>(s: State<M>, place: Place) {
    place.At? ==> place.slot in s.nodes
  }

  function BitsAt<M>(s: State<M>, place: Place): NodeBits
    requires HasNode(s, place)
  {
    if place.Root? then s.root else s.nodes[place.slot].meta
  }

  /** The same calls insert the same records. */
  ghost predicate SameRecs<M>(s: State<M>, s': State<M>) {
    |s'.calls| == |s.calls| && forall u :: 0 <= u < |s.calls| ==> s'.calls[u].rec == s.calls[u].rec
  }

  function WithBits<M>(s: State<M>, place: Place, b: NodeBits): (s': State<M>)
    requires HasNode(s, place)
    ensures SameRecs(s, s')
  {
    if place.Root? then s.(root := b) else s.(nodes := s.nodes[place.slot := s.nodes[place.slot].(meta := b)])
  }

  function Go<M>(s: State<M>, t: nat, pc: Pc<M>): (s': State<M>)
    requires t < |s.calls|
    ensures SameRecs(s, s')
  {
    s.(calls := s.calls[t := s.calls[t].(pc := pc)])
  }

  // ----- The shapes that the steps rely on ------------------------------------------------------------

  /** The level is one that the prefix goes beyond, and the bitmaps have the widths of its stride. */
  ghost predicate LevelOk<M>(c: Config<M>, id: PrefixId, level: nat)
    requires ConfigOk(c)
  {
    GoodId(c.bits, id) && level < |c.strides| && Offset(c.strides, level) < id.len
  }

  ghost predicate BitsOk<M>(c: Config<M>, b: NodeBits)
    requires ConfigOk(c)
  {
    && b.level < |c.strides| && IsStride(c.strides[b.level])
    && Fits(PtrWidth(c.strides[b.level]), b.ptrbitarr) && Fits(PfxWidth(c.strides[b.level]), b.pfxbitarr)
  }

  ghost predicate NodeSlotOk<M>(c: Config<M>, id: PrefixId, depth: nat)
    requires ConfigOk(c)
  {
    GoodId(c.bits, id) && depth < |c.nodeTable[id.len]|
  }

  ghost predicate Shaped<M>(c: Config<M>, s: State<M>, t: nat) {
    && ConfigOk(c) && t < |s.calls|
    && var call := s.calls[t];
       var id := call.rec.id;
       GoodId(c.bits, id) &&
       match call.pc
       case Start => true
       case Retrieve(level, cur, _, depth) => LevelOk(c, id, level) && (cur.len > 0 ==> NodeSlotOk(c, cur, depth))
       case Eval(level, _, place) => LevelOk(c, id, level) && HasNode(s, place) && BitsOk(c, BitsAt(s, place))
         && BitsAt(s, place).level == level
       case CasPtr(level, _, place, seen) => LevelOk(c, id, level) && !IsLast(c, id, level)
         && HasNode(s, place) && BitsAt(s, place).level == level && Fits(PtrWidth(c.strides[level]), seen)
       case CasPfx(level, _, place, seen) => LevelOk(c, id, level) && HasNode(s, place)
         && BitsAt(s, place).level == level && Fits(PfxWidth(c.strides[level]), seen)
       case StoreNode(level, nid, depth) => level + 1 < |c.strides| && NodeSlotOk(c, nid, depth)
       case StoreCas(level, nid, depth) => level + 1 < |c.strides| && NodeSlotOk(c, nid, depth)
       case Lookup(depth) => depth < |c.pfxTable[id.len]|
       case Reload(depth) => depth < |c.pfxTable[id.len]|
       case Create(depth) => depth < |c.pfxTable[id.len]|
       case LoadRecord(slot) => slot in s.pfxs && slot in s.versions
       case Merge(slot, _, _) => slot in s.pfxs && slot in s.versions
       case Done(_) => true
  }

  // ----- The steps ---------------------------------------------------------------------------------------

  /** A failed lookup is tried again from the top, a limited number of times. */
  function Retry<M>(s: State<M>, t: nat, level: nat, cur: PrefixId, tries: nat): (s': State<M>)
    requires t < |s.calls|
    ensures SameRecs(s, s')
  {
    if tries + 1 >= MAX_RETRIES then Go(s, t, Done(NodeCreationMaxRetryError))
    else Go(s, t, Retrieve(level, cur, tries + 1, 0))
  }

  /** One load of the node lookup. */
  function RetrieveStep<M>(c: Config<M>, s: State<M>, t: nat, level: nat, cur: PrefixId, tries: nat,
                           depth: nat): (s': State<M>)
    requires ConfigOk(c) && t < |s.calls| && (cur.len > 0 ==> NodeSlotOk(c, cur, depth))
    ensures SameRecs(s, s')
  {
    if cur.len == 0 then Go(s, t, Eval(level, cur, Root))
    else
      var slot := SlotAt(c.bits, c.nodeTable, cur, depth);
      if !HasBucket(s.nodes, Bucket(cur.len, PathOf(c.bits, c.nodeTable, cur, depth)))
        then Go(s, t, Done(MissingBucket))
      else if slot !in s.nodes then Retry(s, t, level, cur, tries)
      else if s.nodes[slot].prefix == cur then Go(s, t, Eval(level, cur, At(slot)))
      else if BitsForLen(c.nodeTable, cur.len, depth + 1) > 0 then Go(s, t, Retrieve(level, cur, tries, depth + 1))
      else Retry(s, t, level, cur, tries)
  }

  /** Loads the bitmap and tests the nibble's bit. */
  function EvalStep<M>(c: Config<M>, s: State<M>, t: nat, level: nat, cur: PrefixId, place: Place): (s': State<M>)
    requires ConfigOk(c) && t < |s.calls| && LevelOk(c, s.calls[t].rec.id, level)
    requires HasNode(s, place) && BitsOk(c, BitsAt(s, place)) && BitsAt(s, place).level == level
    ensures SameRecs(s, s')
  {
    var id, stride, b := s.calls[t].rec.id, c.strides[level], BitsAt(s, place);
    Widths(stride);
    LevelWithin(c, level);
    if !IsLast(c, id, level) then
      if BitAnd(IntoStrideSize(stride, b.ptrbitarr), BitPos(c, id, level)) == Zero(PfxWidth(stride))
      then Go(s, t, CasPtr(level, cur, place, b.ptrbitarr))
      else
        var base := PrefixId(id.net, Offset(c.strides, level));
        Go(s, t, Retrieve(level + 1, Cleaned(c.bits, base.net, base.len + stride), 0, 0))
    else
      if BitAnd(b.pfxbitarr, BitPos(c, id, level)) == Zero(PfxWidth(stride))
      then Go(s, t, CasPfx(level, cur, place, b.pfxbitarr))
      else Go(s, t, Lookup(0))
  }

  /** The pointer bitmap with the bit of the nibble set, by way of the layout of the prefix bitmap. */
  function WithPtrBit<M>(c: Config<M>, id: PrefixId, level: nat, seen: Bitmap): Bitmap
    requires ConfigOk(c) && LevelOk(c, id, level) && !IsLast(c, id, level) && Fits(PtrWidth(c.strides[level]), seen)
  {
    LevelWithin(c, level);
    SetPtrBit(c.strides[level], seen, Nibble(c, id, level));
    IntoPtrSize(c.strides[level], BitOr(BitPos(c, id, level), IntoStrideSize(c.strides[level], seen)))
  }

  /** Tries to set the pointer bit on top of the bitmap seen last. */
  function CasPtrStep<M>(c: Config<M>, s: State<M>, t: nat, level: nat, cur: PrefixId, place: Place,
                         seen: Bitmap): (s': State<M>)
    requires ConfigOk(c) && t < |s.calls| && LevelOk(c, s.calls[t].rec.id, level)
    requires HasNode(s, place) && Fits(PtrWidth(c.strides[level]), seen)
    requires !IsLast(c, s.calls[t].rec.id, level)
    ensures SameRecs(s, s')
  {
    var id, b := s.calls[t].rec.id, BitsAt(s, place);
    LevelWithin(c, level);
    if b.ptrbitarr == seen then
      Go(WithBits(s, place, b.(ptrbitarr := WithPtrBit(c, id, level, seen))), t,
         StoreNode(level, Cleaned(c.bits, id.net, Offset(c.strides, level) + NibbleLen(c, id, level)), 0))
    else Go(s, t, CasPtr(level, cur, place, b.ptrbitarr))
  }

  /** Tries to set the prefix bit on top of the bitmap seen last. */
  function CasPfxStep<M>(c: Config<M>, s: State<M>, t: nat, level: nat, cur: PrefixId, place: Place,
                         seen: Bitmap): (s': State<M>)
    requires ConfigOk(c) && t < |s.calls| && LevelOk(c, s.calls[t].rec.id, level) && HasNode(s, place)
    ensures SameRecs(s, s')
  {
    var b := BitsAt(s, place);
    if b.pfxbitarr == seen
    then Go(WithBits(s, place, b.(pfxbitarr := BitOr(BitPos(c, s.calls[t].rec.id, level), seen))), t, Lookup(0))
    else Go(s, t, CasPfx(level, cur, place, b.pfxbitarr))
  }

  /** One level of storing a node: looks at the slot. */
  function StoreStep<M>(c: Config<M>, s: State<M>, t: nat, level: nat, id: PrefixId, depth: nat): (s': State<M>)
    requires ConfigOk(c) && t < |s.calls| && NodeSlotOk(c, id, depth)
    ensures SameRecs(s, s')
  {
    var slot := SlotAt(c.bits, c.nodeTable, id, depth);
    if !HasBucket(s.nodes, Bucket(id.len, PathOf(c.bits, c.nodeTable, id, depth))) then Go(s, t, Done(NodeNotFound))
    else if slot !in s.nodes then Go(s, t, StoreCas(level, id, depth))
    else if s.nodes[slot].prefix == id then Go(s, t, Retrieve(level + 1, id, 0, 0))
    else if BitsForLen(c.nodeTable, id.len, depth + 1) > 0 then Go(s, t, StoreNode(level, id, depth + 1))
    else Go(s, t, Done(OutOfLevels))
  }

  /** Publishes the node if the slot is still empty; otherwise looks at the slot again. */
  function StoreCasStep<M>(c: Config<M>, s: State<M>, t: nat, level: nat, id: PrefixId, depth: nat): (s': State<M>)
    requires ConfigOk(c) && t < |s.calls| && NodeSlotOk(c, id, depth) && level + 1 < |c.strides|
    ensures SameRecs(s, s')
  {
    var slot := SlotAt(c.bits, c.nodeTable, id, depth);
    RowGrows(c.bits, c.nodeTable, id.len, depth);
    if slot !in s.nodes
    then Go(s.(nodes := s.nodes[slot := NewStored(c.nodeTable, Record(id, EmptyBits(c, level + 1)), depth)]), t,
      Retrieve(level + 1, id, 0, 0))
    else Go(s, t, StoreNode(level, id, depth))
  }

  /** One level of the prefix lookup of an upsert: it ends at the prefix's own slot, or at an empty one. */
  function LookupStep<M>(c: Config<M>, s: State<M>, t: nat, depth: nat): (s': State<M>)
    requires ConfigOk(c) && t < |s.calls| && GoodId(c.bits, s.calls[t].rec.id)
    requires depth < |c.pfxTable[s.calls[t].rec.id.len]|
    ensures SameRecs(s, s')
  {
    var id := s.calls[t].rec.id;
    var slot := SlotAt(c.bits, c.pfxTable, id, depth);
    if !HasBucket(s.pfxs, Bucket(id.len, PathOf(c.bits, c.pfxTable, id, depth))) then Go(s, t, Done(MissingBucket))
    else if slot !in s.pfxs || s.pfxs[slot].prefix == id then Go(s, t, Reload(depth))
    else if BitsForLen(c.pfxTable, id.len, depth + 1) > 0 then Go(s, t, Lookup(depth + 1))
    else Go(s, t, Done(OutOfLevels))
  }

  /** The upsert loads the slot once more, and takes what it finds there for its own record. */
  function ReloadStep<M>(c: Config<M>, s: State<M>, t: nat, depth: nat): (s': State<M>)
    requires ConfigOk(c) && t < |s.calls| && GoodId(c.bits, s.calls[t].rec.id)
    requires depth < |c.pfxTable[s.calls[t].rec.id.len]|
    ensures SameRecs(s, s')
  {
    var slot := SlotAt(c.bits, c.pfxTable, s.calls[t].rec.id, depth);
    if slot !in s.pfxs then Go(s, t, Create(depth)) else Go(s, t, LoadRecord(slot))
  }

  /** Creates the record if the slot is still empty. */
  function CreateStep<M>(c: Config<M>, s: State<M>, t: nat, depth: nat): (s': State<M>)
    requires ConfigOk(c) && t < |s.calls| && GoodId(c.bits, s.calls[t].rec.id)
    requires depth < |c.pfxTable[s.calls[t].rec.id.len]|
    ensures SameRecs(s, s')
  {
    var rec := s.calls[t].rec;
    var slot := SlotAt(c.bits, c.pfxTable, rec.id, depth);
    RowGrows(c.bits, c.pfxTable, rec.id.len, depth);
    if slot !in s.pfxs then
      Go(s.(pfxs := s.pfxs[slot := NewStored(c.pfxTable, Record(rec.id, rec), depth)],
            versions := s.versions[slot := 0], log := s.log + [Entry(t, rec.id)]),
         t, Done(Inserted))
    else Go(s, t, Done(PrefixAlreadyExist))
  }

  function LoadStep<M>(s: State<M>, t: nat, slot: Slot): (s': State<M>)
    requires t < |s.calls| && slot in s.pfxs && slot in s.versions
    ensures SameRecs(s, s')
  {
    Go(s, t, Merge(slot, s.versions[slot], s.pfxs[slot].meta.meta))
  }

  /**
   * Swaps in a record of the call's own prefix with the merged metadata, if the record is still the one that was
   * read.
   */
  function MergeStep<M>(c: Config<M>, s: State<M>, t: nat, slot: Slot, version: nat, meta: M): (s': State<M>)
    requires t < |s.calls| && slot in s.pfxs && slot in s.versions
    ensures SameRecs(s, s')
  {
    if s.versions[slot] == version then
      var rec := s.calls[t].rec;
      Go(s.(pfxs := s.pfxs[slot := s.pfxs[slot].(meta := Record(rec.id, c.merge(meta, rec.meta)))],
            versions := s.versions[slot := version + 1], log := s.log + [Entry(t, s.pfxs[slot].prefix)]),
         t, Done(Inserted))
    else Go(s, t, Merge(slot, s.versions[slot], s.pfxs[slot].meta.meta))
  }

  /** The next step of call t. */
  function Step<M>(c: Config<M>, s: State<M>, t: nat): (s': State<M>)
    requires Shaped(c, s, t)
    ensures SameRecs(s, s')
  {
    match s.calls[t].pc
    case Start => Go(s, t, Retrieve(0, PrefixId(0, 0), 0, 0))
    case Retrieve(level, cur, tries, depth) => RetrieveStep(c, s, t, level, cur, tries, depth)
    case Eval(level, cur, place) => EvalStep(c, s, t, level, cur, place)
    case CasPtr(level, cur, place, seen) => CasPtrStep(c, s, t, level, cur, place, seen)
    case CasPfx(level, cur, place, seen) => CasPfxStep(c, s, t, level, cur, place, seen)
    case StoreNode(level, id, depth) => StoreStep(c, s, t, level, id, depth)
    case StoreCas(level, id, depth) => StoreCasStep(c, s, t, level, id, depth)
    case Lookup(depth) => LookupStep(c, s, t, depth)
    case Reload(depth) => ReloadStep(c, s, t, depth)
    case Create(depth) => CreateStep(c, s, t, depth)
    case LoadRecord(slot) => LoadStep(s, t, slot)
    case Merge(slot, version, meta) => MergeStep(c, s, t, slot, version, meta)
    case Done(_) => s
  }

  lemma RowGrows(bits: nat, table: Table, len: nat, depth: nat)
    requires GoodTable(bits, table) && 0 < len <= bits && depth < |table[len]|
    ensures BitsForLen(table, len, depth + 1) > 0 ==> BitsForLen(table, len, depth) <= BitsForLen(table, len, depth + 1)
  {
    if depth + 1 < |table[len]| { LevelBounds(bits, table, len, depth + 1); }
  }
}
