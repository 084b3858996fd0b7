/** The chained hash store for prefixes, and the map it stands for. */
module PrefixStores {
  import opened Wrappers
  import opened Bits
  import opened Af
  import opened Records
  import opened Chain

  /** A bucket of slots, by the indices that lead to it; the empty path is the root bucket of a length. */
  datatype Bucket = Bucket(len: nat, path: seq<nat>)

  /** A stored prefix, and the size of the bucket that hangs below it, if there is one. */
  datatype Stored<M> = Stored(prefix: PrefixId, meta: M, nextBucket: Option<nat>)

  type Slots<M> = map<Slot, Stored<M>>

  /** Where a lookup ended: the level, the slot there, and a stack of parents with room for every level. */
  datatype Position = Position(level: nat, slot: Slot, parents: seq<Option<Slot>>)

  ghost function Owners<M>(slots: Slots<M>): (o: map<Slot, PrefixId>)
    ensures o.Keys == slots.Keys && forall s :: s in slots ==> o[s] == slots[s].prefix
  {
    map s | s in slots :: slots[s].prefix
  }

  /** The bucket exists: it is a root bucket, or hangs below a stored prefix. */
  predicate HasBucket<M>(slots: Slots<M>, b: Bucket) {
    b.path == [] || (Slot(b.len, b.path) in slots && slots[Slot(b.len, b.path)].nextBucket.Some?)
  }

  /** The number of slots of a bucket: those of a root bucket follow from the table. */
  function BucketSize<M>(table: Table, slots: Slots<M>, b: Bucket): nat
    requires b.len < |table| && HasBucket(slots, b)
  {
    if b.path == [] then Pow2(BitsForLen(table, b.len, 0)) else slots[Slot(b.len, b.path)].nextBucket.value
  }

  /** A new record, with room for the next level unless this is the last one. */
  function NewStored<M>(table: Table, rec: Record<M>, level: nat): Stored<M>
    requires rec.id.len < |table|
    requires BitsForLen(table, rec.id.len, level + 1) > 0 ==>
      BitsForLen(table, rec.id.len, level) <= BitsForLen(table, rec.id.len, level + 1)
  {
    var thisLevel, nextLevel := BitsForLen(table, rec.id.len, level), BitsForLen(table, rec.id.len, level + 1);
    Stored(rec.id, rec.meta, if nextLevel > 0 then Some(Pow2(nextLevel - thisLevel)) else None)
  }

  /** The bits that the level of a bucket handles. */
  function LevelWidth(table: Table, len: nat, level: nat): nat
    requires len < |table|
  {
    var last, this_ := LastLevel(table, len, level), BitsForLen(table, len, level);
    if last <= this_ then this_ - last else 0
  }

  /** Every slot but one at the last level carries a bucket of the right size. */
  ghost predicate BucketsOk<M>(table: Table, slots: Slots<M>) {
    forall s :: s in slots ==>
      && s.len < |table|
      && slots[s].nextBucket == if |s.path| < |table[s.len]| then Some(Pow2(LevelWidth(table, s.len, |s.path|)))
        else None
  }

  ghost predicate SlotsOk<M>(bits: nat, table: Table, slots: Slots<M>) {
    ChainOk(bits, table, Owners(slots)) && Distinct(slots) && BucketsOk(table, slots)
  }

  /** No prefix is stored twice. */
  ghost predicate Distinct<M>(slots: Slots<M>) {
    forall s, t :: s in slots && t in slots && slots[s].prefix == slots[t].prefix ==> s == t
  }

  /** The map from prefixes to metadata. */
  ghost function Prefixes<M>(slots: Slots<M>): (m: map<PrefixId, M>)
    requires Distinct(slots)
  {
    map s | s in slots :: slots[s].prefix := slots[s].meta
  }

  lemma AtSlot<M>(slots: Slots<M>, s: Slot)
    requires Distinct(slots) && s in slots
    ensures slots[s].prefix in Prefixes(slots) && Prefixes(slots)[slots[s].prefix] == slots[s].meta
  {
  }

  lemma SlotOf<M>(slots: Slots<M>, id: PrefixId) returns (s: Slot)
    requires Distinct(slots) && id in Prefixes(slots)
    ensures s in slots && slots[s].prefix == id && Prefixes(slots)[id] == slots[s].meta
  {
    s :| s in slots && slots[s].prefix == id;
  }

  lemma PrefixIsOwner<M>(slots: Slots<M>, id: PrefixId)
    requires Distinct(slots)
    ensures id in Prefixes(slots) ==> id in Owners(slots).Values
  {
    if id in Prefixes(slots) {
      var s := SlotOf(slots, id);
      assert Owners(slots)[s] == id;
    }
  }

  lemma ChainDistinct<M>(bits: nat, table: Table, slots: Slots<M>)
    requires ChainOk(bits, table, Owners(slots))
    ensures Distinct(slots)
  {
    forall s, t | s in slots && t in slots && slots[s].prefix == slots[t].prefix
      ensures s == t
    {
      assert Owners(slots)[s] == Owners(slots)[t];
    }
  }

  /** Slots on the path of an id exist as long as those above them hold other ids. */
  lemma OnTheWay<M>(bits: nat, table: Table, slots: Slots<M>, id: PrefixId, level: nat)
    requires SlotsOk(bits, table, slots) && GoodId(bits, id) && level <= |table[id.len]|
    requires TakenBefore(bits, table, Owners(slots), id, level)
    ensures level < |table[id.len]|
    ensures HasBucket(slots, Bucket(id.len, PathOf(bits, table, id, level)))
    ensures BucketSize(table, slots, Bucket(id.len, PathOf(bits, table, id, level))) ==
      Pow2(LevelWidth(table, id.len, level))
  {
    hide HashId, SlotOk;
    if level > 0 {
      assert SlotAt(bits, table, id, level - 1) in Owners(slots);
      LastSlotIsOwn(bits, table, Owners(slots), id, level - 1);
    }
  }

  /** The index at a level is within the bucket. */
  lemma IndexInBucket(bits: nat, table: Table, id: PrefixId, level: nat)
    requires GoodTable(bits, table) && GoodId(bits, id) && level < |table[id.len]|
    ensures LastLevel(table, id.len, level) < BitsForLen(table, id.len, level) <= bits
    ensures HashId(bits, table, id, level) < Pow2(LevelWidth(table, id.len, level))
    ensures PathOf(bits, table, id, level) + [HashId(bits, table, id, level)] == PathOf(bits, table, id, level + 1)
  {
    HashIsSlice(bits, table, id, level);
  }

  /** The stack of parents has room for every level of a row. */
  lemma LevelOnStack(bits: nat, table: Table, id: PrefixId, level: nat)
    requires GoodTable(bits, table) && GoodId(bits, id) && level < |table[id.len]|
    ensures level < MAX_LEVELS
  {
  }

  lemma TakenStep(bits: nat, table: Table, owner: map<Slot, PrefixId>, id: PrefixId, level: nat)
    requires GoodTable(bits, table) && GoodId(bits, id) && level < |table[id.len]|
    requires TakenBefore(bits, table, owner, id, level)
    requires SlotAt(bits, table, id, level) in owner && owner[SlotAt(bits, table, id, level)] != id
    ensures TakenBefore(bits, table, owner, id, level + 1)
  {
  }

  /** The slot where the search for an id ends tells whether it is stored. */
  lemma EndSlot<M>(bits: nat, table: Table, slots: Slots<M>, id: PrefixId, level: nat)
    requires SlotsOk(bits, table, slots) && GoodId(bits, id) && level < |table[id.len]|
    requires TakenBefore(bits, table, Owners(slots), id, level)
    requires var s := SlotAt(bits, table, id, level); s in slots ==> slots[s].prefix == id
    ensures var s := SlotAt(bits, table, id, level);
      if s in slots then id in Prefixes(slots) && Prefixes(slots)[id] == slots[s].meta else id !in Prefixes(slots)
  {
    hide SlotOk, Prefixes;
    var s := SlotAt(bits, table, id, level);
    if s in slots {
      AtSlot(slots, s);
    } else {
      FreeMeansAbsent(bits, table, Owners(slots), id, level);
      PrefixIsOwner(slots, id);
    }
  }

  lemma FillSlot<M>(bits: nat, table: Table, slots: Slots<M>, rec: Record<M>, level: nat)
    requires SlotsOk(bits, table, slots) && GoodId(bits, rec.id) && level < |table[rec.id.len]|
    requires TakenBefore(bits, table, Owners(slots), rec.id, level) && SlotAt(bits, table, rec.id, level) !in slots
    ensures BitsForLen(table, rec.id.len, level + 1) > 0 ==>
      BitsForLen(table, rec.id.len, level) <= BitsForLen(table, rec.id.len, level + 1)
    ensures var slots' := slots[SlotAt(bits, table, rec.id, level) := NewStored(table, rec, level)];
      SlotsOk(bits, table, slots') && Prefixes(slots') == Prefixes(slots)[rec.id := rec.meta]
  {
    hide SlotOk, Prefixes, TruncateToLen, HashId, PathOf, TakenBefore, LevelWidth, Pow2, GoodRow;
    var s := SlotAt(bits, table, rec.id, level);
    var x := FirstStored(bits, table, rec, level);
    FreeMeansAbsent(bits, table, Owners(slots), rec.id, level);
    TakeSlot(bits, table, Owners(slots), rec.id, level);
    var slots' := slots[s := x];
    assert Owners(slots') == Owners(slots)[s := rec.id];
    ChainDistinct(bits, table, slots');
    PrefixesUpdate(slots, s, x);
  }

  /** The record of a fresh slot has a bucket of the right size. */
  lemma FirstStored<M>(bits: nat, table: Table, rec: Record<M>, level: nat) returns (x: Stored<M>)
    requires GoodTable(bits, table) && GoodId(bits, rec.id) && level < |table[rec.id.len]|
    ensures BitsForLen(table, rec.id.len, level + 1) > 0 ==>
      BitsForLen(table, rec.id.len, level) <= BitsForLen(table, rec.id.len, level + 1)
    ensures x == NewStored(table, rec, level)
    ensures x.nextBucket == if level + 1 < |table[rec.id.len]|
      then Some(Pow2(LevelWidth(table, rec.id.len, level + 1))) else None
  {
    if level + 1 < |table[rec.id.len]| { LevelBounds(bits, table, rec.id.len, level + 1); }
    x := NewStored(table, rec, level);
  }

  lemma PrefixesUpdate<M>(slots: Slots<M>, s: Slot, x: Stored<M>)
    requires Distinct(slots) && Distinct(slots[s := x])
    requires s in slots ==> slots[s].prefix == x.prefix
    ensures Prefixes(slots[s := x]) == Prefixes(slots)[x.prefix := x.meta]
  {
    hide Prefixes;
    var slots' := slots[s := x];
    var m, m' := Prefixes(slots)[x.prefix := x.meta], Prefixes(slots');
    AtSlot(slots', s);
    assert slots'[s] == x;
    forall id
      ensures id in m' <==> id in m
      ensures id in m' ==> m'[id] == m[id]
    {
      if id != x.prefix {
        if id in Prefixes(slots) {
          var t := SlotOf(slots, id);
          AtSlot(slots', t);
        }
        if id in m' {
          var t := SlotOf(slots', id);
          AtSlot(slots, t);
        }
      }
    }
  }

  lemma ReplaceMeta<M>(bits: nat, table: Table, slots: Slots<M>, s: Slot, meta: M)
    requires SlotsOk(bits, table, slots) && s in slots
    ensures var slots' := slots[s := slots[s].(meta := meta)];
      SlotsOk(bits, table, slots') && Prefixes(slots') == Prefixes(slots)[slots[s].prefix := meta]
  {
    hide SlotOk, Prefixes;
    var slots' := slots[s := slots[s].(meta := meta)];
    assert Owners(slots') == Owners(slots);
    ChainDistinct(bits, table, slots');
    PrefixesUpdate(slots, s, slots[s].(meta := meta));
  }

  class PrefixStore<M> {
    const bits: nat
    const table: Table
    const merge: (M, M) -> M
    var slots: Slots<M>

    ghost predicate Valid()
      reads this
    {
      SlotsOk(bits, table, slots)
    }

    /** The map that the store stands for. */
    ghost function Contents(): map<PrefixId, M>
      requires Valid()
      reads this
    {
      Prefixes(slots)
    }

    constructor (bits: nat, table: Table, merge: (M, M) -> M)
      requires GoodTable(bits, table)
      ensures Valid() && Contents() == map[]
      ensures this.bits == bits && this.table == table && this.merge == merge
    {
      this.bits, this.table, this.merge := bits, table, merge;
      slots := map[];
    }

    /** Follows the chain of an id down to the slot that holds it, or to the first free one. */
    method RetrieveMut(id: PrefixId) returns (slot: Slot, level: nat)
      requires Valid() && GoodId(bits, id)
      ensures level < |table[id.len]| && slot == SlotAt(bits, table, id, level)
      ensures TakenBefore(bits, table, Owners(slots), id, level)
      ensures slot in slots ==> slots[slot].prefix == id
    {
      hide HashId, SlotOk, BucketsOk, TruncateToLen;
      var bucket := Bucket(id.len, []);
      level := 0;
      while true
        invariant GoodTable(bits, table) && level <= |table[id.len]|
        invariant TakenBefore(bits, table, Owners(slots), id, level)
        invariant bucket == Bucket(id.len, PathOf(bits, table, id, level))
        decreases |table[id.len]| - level
      {
        OnTheWay(bits, table, slots, id, level);
        IndexInBucket(bits, table, id, level);
        var index := HashId(bits, table, id, level);
        assert HasBucket(slots, bucket) && index < BucketSize(table, slots, bucket);
        slot := Slot(bucket.len, bucket.path + [index]);
        if slot !in slots { return; }
        if slots[slot].prefix == id { return; }
        TakenStep(bits, table, Owners(slots), id, level);
        level, bucket := level + 1, Bucket(slot.len, slot.path);
      }
    }

    /** Stores a new prefix in the first free slot of its chain, or merges into its record. */
    method Upsert(rec: Record<M>)
      requires Valid() && GoodId(bits, rec.id)
      modifies this
      ensures Valid() && Contents() == Upserted(old(Contents()), rec, merge)
      ensures forall s :: s in old(slots) && old(slots)[s].prefix != rec.id ==> s in slots && slots[s] == old(slots)[s]
    {
      hide HashId, SlotOk, BucketsOk, TruncateToLen, SlotAt, Prefixes;
      var slot, level := RetrieveMut(rec.id);
      EndSlot(bits, table, slots, rec.id, level);
      if slot !in slots {
        FillSlot(bits, table, slots, rec, level);
        slots := slots[slot := NewStored(table, rec, level)];
      } else {
        var meta := merge(slots[slot].meta, rec.meta);
        ReplaceMeta(bits, table, slots, slot, meta);
        slots := slots[slot := slots[slot].(meta := meta)];
      }
    }

    /** Looks an id up, level by level, and tells where the lookup ended. */
    method Retrieve(id: PrefixId) returns (r: Option<Record<M>>, at: Position)
      requires Valid() && GoodId(bits, id)
      ensures r == if id in Contents() then Some(Record(id, Contents()[id])) else None
      ensures at.level < |table[id.len]| && at.slot == SlotAt(bits, table, id, at.level)
      ensures TakenBefore(bits, table, Owners(slots), id, at.level)
      ensures if at.slot in slots then slots[at.slot].prefix == id && r.Some? else r.None?
      ensures at.parents == seq(MAX_LEVELS, l => if l == at.level then Some(at.slot) else None)
    {
      hide HashId, SlotOk, BucketsOk, TruncateToLen, Prefixes;
      var bucket, level := Bucket(id.len, []), 0;
      var parents: seq<Option<Slot>> := seq(MAX_LEVELS, _ => None);
      while true
        invariant level <= |table[id.len]|
        invariant TakenBefore(bits, table, Owners(slots), id, level)
        invariant bucket == Bucket(id.len, PathOf(bits, table, id, level))
        decreases |table[id.len]| - level
      {
        OnTheWay(bits, table, slots, id, level);
        IndexInBucket(bits, table, id, level);
        LevelOnStack(bits, table, id, level);
        var index := HashId(bits, table, id, level);
        assert HasBucket(slots, bucket) && index < BucketSize(table, slots, bucket);
        var slot := Slot(bucket.len, bucket.path + [index]);
        if slot in slots {
          if slots[slot].prefix == id {
            EndSlot(bits, table, slots, id, level);
            parents := parents[level := Some(slot)];
            return Some(Record(slots[slot].prefix, slots[slot].meta)), Position(level, slot, parents);
          }
          TakenStep(bits, table, Owners(slots), id, level);
          bucket, level := Bucket(slot.len, slot.path), level + 1;
        } else {
          EndSlot(bits, table, slots, id, level);
          parents := parents[level := Some(slot)];
          return None, Position(level, slot, parents);
        }
      }
    }
  }

  /** Whole runs: a fresh store after any inserts, in order, holds what the run of inserts amounts to. */
  method UpsertAll<M>(store: PrefixStore<M>, inserts: seq<Record<M>>)
    requires store.Valid() && store.Contents() == map[]
    requires forall i :: 0 <= i < |inserts| ==> GoodId(store.bits, inserts[i].id)
    modifies store
    ensures store.Valid() && store.Contents() == Run(inserts, store.merge)
  {
    hide SlotsOk, Prefixes, GoodId;
    assert inserts[..0] == [];
    for i := 0 to |inserts|
      invariant store.Valid() && store.Contents() == Run(inserts[..i], store.merge)
    {
      store.Upsert(inserts[i]);
      assert inserts[..i + 1][..i] == inserts[..i];
    }
    assert inserts[..|inserts|] == inserts;
  }
}
