/** The resumable depth-first iterator over all stored prefixes, and the recursive count. */
module PrefixIters {
  import opened Wrappers
  import opened Bits
  import opened Af
  import opened Records
  import opened Chain
  import opened PrefixStores
  import opened Walk

  /** A bucket on the way down, and the slot at which it was left. */
  datatype Parent = Parent(bucket: Bucket, cursor: nat)

  /** The stack holds the buckets above the current one. */
  ghost predicate StackOk(parents: seq<Option<Parent>>, len: nat, path: seq<nat>) {
    && |parents| == MAX_LEVELS && |path| < MAX_LEVELS
    && forall l :: 0 < l <= |path| ==> parents[l] == Some(Parent(Bucket(len, path[..l - 1]), path[l - 1]))
  }

  /** What a position leaves to be walked. */
  ghost function Left<M>(table: Table, slots: Slots<M>, len: nat, path: seq<nat>, cursor: nat): seq<Slot> {
    if len >= |table| then []
    else WalkFrom(table, slots, len, path, cursor) + Up(table, slots, len, path) + Later(table, slots, len + 1)
  }

  lemma LeftAtSlot<M>(table: Table, slots: Slots<M>, len: nat, path: seq<nat>, cursor: nat)
    requires len < |table| && cursor < Pow2(LevelWidth(table, len, |path|))
    ensures Left(table, slots, len, path, cursor)
      == Here(table, slots, len, path, cursor)
        + (Below(table, slots, len, path, cursor) + Left(table, slots, len, path, cursor + 1))
  {
    hide Here, Below, Up, Later, Pow2, LevelWidth;
  }

  lemma LeftDescend<M>(table: Table, slots: Slots<M>, len: nat, path: seq<nat>, cursor: nat)
    requires len < |table| && Slot(len, path + [cursor]) in slots && |path| + 1 < |table[len]|
    ensures Below(table, slots, len, path, cursor) + Left(table, slots, len, path, cursor + 1)
      == Left(table, slots, len, path + [cursor], 0)
  {
    hide WalkFrom, Later;
    var p := path + [cursor];
    assert p[..|path|] == path && p[|path|] == cursor;
  }

  lemma LeftAscend<M>(table: Table, slots: Slots<M>, len: nat, path: seq<nat>, cursor: nat)
    requires len < |table| && path != [] && cursor >= Pow2(LevelWidth(table, len, |path|))
    ensures Left(table, slots, len, path, cursor) == Left(table, slots, len, path[..|path| - 1], path[|path| - 1] + 1)
  {
    hide Later, Pow2, LevelWidth;
  }

  lemma LeftNextLen<M>(table: Table, slots: Slots<M>, len: nat, cursor: nat)
    requires len < |table| && cursor >= Pow2(LevelWidth(table, len, 0))
    ensures Left(table, slots, len, [], cursor) == Left(table, slots, len + 1, [], 0)
  {
    hide Pow2, LevelWidth;
  }

  /** Nothing is stored at length 0. */
  lemma LeftLenZero<M>(bits: nat, table: Table, slots: Slots<M>)
    requires SlotsOk(bits, table, slots) && 0 < |table|
    ensures Left(table, slots, 0, [], 0) == Left(table, slots, 1, [], 0)
  {
    hide WalkFrom, SlotsOk;
    var w := WalkFrom(table, slots, 0, [], 0);
    if w != [] {
      var s := w[0];
      WalkMeets(bits, table, slots, 0, [], 0, s);
      SlotLength(bits, table, slots, s);
    }
  }

  /** The size of the current bucket, as the iterator computes it. */
  lemma WidthOfLevel(bits: nat, table: Table, len: nat, level: nat)
    requires GoodTable(bits, table) && 0 < len <= bits && level < |table[len]|
    ensures LastLevel(table, len, level) < BitsForLen(table, len, level)
    ensures LevelWidth(table, len, level) == BitsForLen(table, len, level) - LastLevel(table, len, level) > 0
  {
    LevelBounds(bits, table, len, level);
  }

  lemma BucketBelow<M>(bits: nat, table: Table, slots: Slots<M>, s: Slot)
    requires SlotsOk(bits, table, slots) && s in slots
    ensures slots[s].nextBucket.Some? <==> s.len < |table| && |s.path| < |table[s.len]|
  {
  }

  class PrefixIter<M> {
    const store: PrefixStore<M>
    var curLen: nat
    var curBucket: Bucket
    var curLevel: nat
    var parents: array<Option<Parent>>
    var cursor: nat

    ghost predicate Valid()
      reads this, store, parents
    {
      && store.Valid()
      && StackOk(parents[..], curLen, curBucket.path)
      && curLevel == |curBucket.path| && curBucket.len == curLen
      && PositionOk(store.bits, store.table, store.slots, curBucket, cursor)
    }

    /** The slots still to come. */
    ghost function Remaining(): seq<Slot>
      reads this, store
    {
      Left(store.table, store.slots, curLen, curBucket.path, cursor)
    }

    constructor (store: PrefixStore<M>)
      requires store.Valid()
      ensures Valid() && this.store == store && fresh(parents)
      ensures Remaining() == Later(store.table, store.slots, 0)
    {
      this.store, curLen, curBucket, curLevel, cursor := store, 0, Bucket(0, []), 0, 0;
      parents := new Option<Parent>[MAX_LEVELS](_ => None);
    }

    /** Starts the next length at its root bucket, with an empty stack. */
    method NextLen()
      requires store.Valid() && curLen <= store.bits
      modifies this
      ensures fresh(parents) && StackOk(parents[..], curLen, [])
      ensures curLen == old(curLen) + 1 && curLevel == 0 && cursor == 0 && curBucket == Bucket(curLen, [])
    {
      curLen, curLevel, cursor := curLen + 1, 0, 0;
      parents := new Option<Parent>[MAX_LEVELS](_ => None);
      curBucket := Bucket(curLen, []);
    }

    /** Goes back to the slot behind the one where the bucket above was left. */
    method Ascend()
      requires Valid() && 0 < curLen <= store.bits && curLevel > 0 && curLen < |store.table|
      requires cursor >= Pow2(LevelWidth(store.table, curLen, curLevel))
      modifies this
      ensures Valid() && parents == old(parents) && curLen == old(curLen) && curLevel == old(curLevel) - 1
      ensures Remaining() == old(Remaining())
    {
      hide SlotsOk, Left, Pow2, LevelWidth, PositionOk;
      StackPop(parents[..], curLen, curBucket.path);
      var parent := parents[curLevel];
      assert parent == parents[..][curLevel];
      LeftAscend(store.table, store.slots, curLen, curBucket.path, cursor);
      AscendOk(store.bits, store.table, store.slots, curBucket, cursor, parent.value.cursor + 1);
      curLevel, curBucket, cursor := curLevel - 1, parent.value.bucket, parent.value.cursor + 1;
    }

    /** Leaves the bucket at a slot, and goes on in the bucket below it. */
    method Descend(slot: Slot)
      requires Valid() && 0 < curLen <= store.bits && curLen < |store.table|
      requires slot == Slot(curLen, curBucket.path + [cursor])
      requires slot in store.slots && store.slots[slot].nextBucket.Some?
      modifies this, parents
      ensures Valid() && parents == old(parents) && curLen == old(curLen)
      ensures Remaining() == Left(store.table, store.slots, slot.len, slot.path, 0)
    {
      hide SlotsOk, Left, PositionOk;
      SlotHere(store.bits, store.table, store.slots, curBucket, cursor);
      ghost var before := parents[..];
      SlotHasRoom(store.bits, store.table, store.slots, curBucket, cursor);
      parents[curLevel + 1] := Some(Parent(curBucket, cursor));
      assert parents[..] == before[curLevel + 1 := Some(Parent(curBucket, cursor))];
      StackPush(before, curLen, curBucket.path, cursor);
      curBucket, curLevel, cursor := Bucket(slot.len, slot.path), curLevel + 1, 0;
    }

    /** The next prefix in depth-first order, or None after the last one. */
    method Next() returns (r: Option<Record<M>>)
      requires Valid()
      modifies this, parents
      ensures Valid() && (parents == old(parents) || fresh(parents))
      ensures r.None? ==> old(Remaining()) == [] && Remaining() == []
      ensures r.Some? ==> old(Remaining()) != [] && Remaining() == old(Remaining())[1..]
      ensures r.Some? ==> var s := old(Remaining())[0];
        s in store.slots && r.value == Record(store.slots[s].prefix, store.slots[s].meta)
    {
      hide SlotsOk, Left, Pow2, LevelWidth, GoodRow, WalkFrom, StackOk;
      ghost var bits, table, slots := store.bits, store.table, store.slots;
      while true
        invariant Valid() && Remaining() == old(Remaining())
        invariant parents == old(parents) || fresh(parents)
        decreases if curLen <= bits then bits + 1 - curLen else 0, curLevel, SlotsLeft(table, curBucket, cursor)
      {
        TableSize(bits, table, slots);
        if curLen > store.bits {
          NothingLeft(table, slots, curLen, curBucket.path, cursor);
          return None;
        }
        LevelHere(bits, table, slots, curBucket, cursor);
        if BitsForLen(store.table, curLen, curLevel) == 0 {
          LeftLenZero(bits, table, slots);
          NextLen();
          StartOk(bits, table, slots, curLen);
          continue;
        }
        var bucketSize := Pow2(if curLevel > 0
          then BitsForLen(store.table, curLen, curLevel) - BitsForLen(store.table, curLen, curLevel - 1)
          else BitsForLen(store.table, curLen, curLevel));
        if cursor >= bucketSize {
          if curLevel == 0 {
            LeftNextLen(table, slots, curLen, cursor);
            NextLen();
            StartOk(bits, table, slots, curLen);
            if curLen > store.bits {
              NothingLeft(table, slots, curLen, curBucket.path, cursor);
              return None;
            }
          } else {
            Ascend();
            continue;
          }
        }
        LevelHere(bits, table, slots, curBucket, cursor);
        LeftAtSlot(table, slots, curLen, curBucket.path, cursor);
        assert HasBucket(store.slots, curBucket) && cursor < BucketSize(store.table, store.slots, curBucket);
        var slot := Slot(curBucket.len, curBucket.path + [cursor]);
        SlotHere(bits, table, slots, curBucket, cursor);
        if slot in store.slots {
          r := Some(Record(store.slots[slot].prefix, store.slots[slot].meta));
          if store.slots[slot].nextBucket.Some? {
            LeftDescend(table, slots, curLen, curBucket.path, cursor);
            Descend(slot);
            return;
          }
          cursor := cursor + 1;
          return;
        }
        cursor := cursor + 1;
      }
    }
  }

  /** Whether the level handles any bits tells length 0 from the others. */
  lemma LevelHere<M>(bits: nat, table: Table, slots: Slots<M>, b: Bucket, cursor: nat)
    requires SlotsOk(bits, table, slots) && PositionOk(bits, table, slots, b, cursor) && b.len <= bits
    ensures b.len < |table| && (BitsForLen(table, b.len, |b.path|) == 0 <==> b.len == 0)
    ensures b.len > 0 ==> LastLevel(table, b.len, |b.path|) < BitsForLen(table, b.len, |b.path|)
    ensures b.len > 0 ==>
      LevelWidth(table, b.len, |b.path|) == BitsForLen(table, b.len, |b.path|) - LastLevel(table, b.len, |b.path|) > 0
    ensures b.len > 0 ==> HasBucket(slots, b) && BucketSize(table, slots, b) == Pow2(LevelWidth(table, b.len, |b.path|))
  {
    hide Pow2, LevelWidth, GoodRow, ChainOk;
    TableSize(bits, table, slots);
    GoodTableOf(bits, table, slots);
    if b.len > 0 { WidthOfLevel(bits, table, b.len, |b.path|); }
    RootWidth(table, b.len);
  }

  lemma RootWidth(table: Table, len: nat)
    requires len < |table|
    ensures LevelWidth(table, len, 0) == BitsForLen(table, len, 0)
  {
  }

  lemma GoodTableOf<M>(bits: nat, table: Table, slots: Slots<M>)
    requires SlotsOk(bits, table, slots)
    ensures GoodTable(bits, table)
  {
  }

  lemma StartOk<M>(bits: nat, table: Table, slots: Slots<M>, len: nat)
    requires SlotsOk(bits, table, slots)
    ensures PositionOk(bits, table, slots, Bucket(len, []), 0)
  {
  }

  /** The parent of the current bucket is a bucket, too. */
  lemma AscendOk<M>(bits: nat, table: Table, slots: Slots<M>, b: Bucket, cursor: nat, c: nat)
    requires SlotsOk(bits, table, slots) && PositionOk(bits, table, slots, b, cursor)
    requires 0 < b.len <= bits && b.path != []
    ensures PositionOk(bits, table, slots, Bucket(b.len, b.path[..|b.path| - 1]), c)
  {
    hide ChainOk;
    var up := Slot(b.len, b.path[..|b.path| - 1]);
    if up.path != [] {
      ParentIn(bits, table, slots, Slot(b.len, b.path));
      BucketBelow(bits, table, slots, up);
    }
  }

  lemma StackPop(parents: seq<Option<Parent>>, len: nat, path: seq<nat>)
    requires StackOk(parents, len, path) && path != []
    ensures StackOk(parents, len, path[..|path| - 1])
    ensures parents[|path|] == Some(Parent(Bucket(len, path[..|path| - 1]), path[|path| - 1]))
  {
    var path' := path[..|path| - 1];
    forall l | 0 < l <= |path'|
      ensures parents[l] == Some(Parent(Bucket(len, path'[..l - 1]), path'[l - 1]))
    {
      assert path'[..l - 1] == path[..l - 1];
    }
  }

  lemma StackPush(parents: seq<Option<Parent>>, len: nat, path: seq<nat>, cursor: nat)
    requires StackOk(parents, len, path) && |path| + 1 < MAX_LEVELS
    ensures StackOk(parents[|path| + 1 := Some(Parent(Bucket(len, path), cursor))], len, path + [cursor])
  {
    var parents', path' := parents[|path| + 1 := Some(Parent(Bucket(len, path), cursor))], path + [cursor];
    forall l | 0 < l <= |path'|
      ensures parents'[l] == Some(Parent(Bucket(len, path'[..l - 1]), path'[l - 1]))
    {
      if l <= |path| {
        assert path'[..l - 1] == path[..l - 1];
      } else {
        assert path'[..l - 1] == path;
      }
    }
  }

  lemma SlotHasRoom<M>(bits: nat, table: Table, slots: Slots<M>, b: Bucket, cursor: nat)
    requires SlotsOk(bits, table, slots) && PositionOk(bits, table, slots, b, cursor) && 0 < b.len <= bits
    requires Slot(b.len, b.path + [cursor]) in slots && slots[Slot(b.len, b.path + [cursor])].nextBucket.Some?
    ensures |b.path| + 1 < MAX_LEVELS
  {
    SlotHere(bits, table, slots, b, cursor);
  }

  /** A slot that carries a bucket can be descended into. */
  lemma SlotHere<M>(bits: nat, table: Table, slots: Slots<M>, b: Bucket, cursor: nat)
    requires SlotsOk(bits, table, slots) && PositionOk(bits, table, slots, b, cursor) && 0 < b.len <= bits
    ensures b.len < |table| && |table[b.len]| <= MAX_LEVELS && |b.path| < |table[b.len]|
    ensures var s := Slot(b.len, b.path + [cursor]);
      s in slots ==> (slots[s].nextBucket.Some? <==> |b.path| + 1 < |table[b.len]|)
    ensures var s := Slot(b.len, b.path + [cursor]);
      s in slots && slots[s].nextBucket.Some? ==> PositionOk(bits, table, slots, Bucket(b.len, b.path + [cursor]), 0)
  {
    hide ChainOk;
    TableSize(bits, table, slots);
    var s := Slot(b.len, b.path + [cursor]);
    if s in slots { BucketBelow(bits, table, slots, s); }
  }

  /** The current bucket exists; at length 0 nothing has been looked at, and after the last length nothing is left. */
  ghost predicate PositionOk<M>(bits: nat, table: Table, slots: Slots<M>, b: Bucket, cursor: nat) {
    if b.len == 0 || b.len > bits then b.path == [] && cursor == 0
    else b.len < |table| && |b.path| < |table[b.len]| && HasBucket(slots, b)
  }

  ghost function SlotsLeft(table: Table, b: Bucket, cursor: nat): nat {
    if b.len < |table| && cursor < Pow2(LevelWidth(table, b.len, |b.path|))
      then Pow2(LevelWidth(table, b.len, |b.path|)) - cursor else 0
  }

  lemma NothingLeft<M>(table: Table, slots: Slots<M>, len: nat, path: seq<nat>, cursor: nat)
    requires len >= |table|
    ensures Left(table, slots, len, path, cursor) == []
  {
  }

  // ----- Running the iterator to its end -----------------------------------------------------------

  /** The records in the given slots. */
  ghost predicate RecordsAt<M>(slots: Slots<M>, walk: seq<Slot>, recs: seq<Record<M>>) {
    |recs| == |walk| && forall i :: 0 <= i < |walk| ==>
      walk[i] in slots && recs[i] == Record(slots[walk[i]].prefix, slots[walk[i]].meta)
  }

  lemma RecordsStep<M>(slots: Slots<M>, all: seq<Slot>, rest: seq<Slot>, recs: seq<Record<M>>, rec: Record<M>)
    requires |recs| + |rest| == |all| && all[|recs|..] == rest && rest != []
    requires RecordsAt(slots, all[..|recs|], recs)
    requires rest[0] in slots && rec == Record(slots[rest[0]].prefix, slots[rest[0]].meta)
    ensures all[|recs| + 1..] == rest[1..] && RecordsAt(slots, all[..|recs| + 1], recs + [rec])
  {
    assert all[..|recs| + 1] == all[..|recs|] + [rest[0]];
    assert rest[1..] == all[|recs|..][1..];
  }

  /** The walk over all lengths, as records: every stored prefix once, with its metadata. */
  lemma WalkIsContents<M>(bits: nat, table: Table, slots: Slots<M>, recs: seq<Record<M>>)
    requires SlotsOk(bits, table, slots) && RecordsAt(slots, Later(table, slots, 0), recs)
    ensures ListsExactly(IdsOf(recs), Prefixes(slots).Keys)
    ensures forall rec :: rec in recs ==> IsStored(Prefixes(slots), rec)
    ensures |recs| == |Prefixes(slots)|
  {
    hide Prefixes, Later, ChainOk, BucketsOk;
    var walk, ids := Later(table, slots, 0), IdsOf(recs);
    LaterOnce(bits, table, slots, 0);
    forall i | 0 <= i < |recs|
      ensures IsStored(Prefixes(slots), recs[i])
    {
      AtSlot(slots, walk[i]);
    }
    forall i, j | 0 <= i < j < |ids|
      ensures ids[i] != ids[j]
    {
      assert walk[i] != walk[j];
    }
    forall id | id in Prefixes(slots)
      ensures id in ids
    {
      var s := SlotOf(slots, id);
      LaterMeets(bits, table, slots, 0, s);
      var i :| 0 <= i < |walk| && walk[i] == s;
      assert ids[i] == id;
    }
    ListSize(ids, Prefixes(slots).Keys);
  }

  lemma {:induction false} ListSize(ids: seq<PrefixId>, all: set<PrefixId>)
    requires ListsExactly(ids, all)
    ensures |ids| == |all|
  {
    if ids == [] {
      assert all == {};
    } else {
      var rest, last := ids[..|ids| - 1], ids[|ids| - 1];
      assert ids == rest + [last];
      ListSize(rest, all - {last});
    }
  }

  /** The records collected and the slots still to come make up the whole walk. */
  ghost predicate SoFar<M>(slots: Slots<M>, all: seq<Slot>, rest: seq<Slot>, recs: seq<Record<M>>) {
    |recs| + |rest| == |all| && all[|recs|..] == rest && RecordsAt(slots, all[..|recs|], recs)
  }

  lemma SoFarStart<M>(slots: Slots<M>, all: seq<Slot>)
    ensures SoFar(slots, all, all, [])
  {
  }

  lemma SoFarStep<M>(slots: Slots<M>, all: seq<Slot>, rest: seq<Slot>, recs: seq<Record<M>>, rec: Record<M>)
    requires SoFar(slots, all, rest, recs) && rest != []
    requires rest[0] in slots && rec == Record(slots[rest[0]].prefix, slots[rest[0]].meta)
    ensures SoFar(slots, all, rest[1..], recs + [rec])
  {
    hide RecordsAt;
    RecordsStep(slots, all, rest, recs, rec);
  }

  lemma SoFarEnd<M>(slots: Slots<M>, all: seq<Slot>, recs: seq<Record<M>>)
    requires SoFar(slots, all, [], recs)
    ensures RecordsAt(slots, all, recs)
  {
    hide RecordsAt;
    assert all[..|recs|] == all;
  }

  /** Every stored prefix once, in the order of the walk; after that the iterator stays at its end. */
  method AllPrefixes<M>(store: PrefixStore<M>) returns (recs: seq<Record<M>>)
    requires store.Valid()
    ensures RecordsAt(store.slots, Later(store.table, store.slots, 0), recs)
    ensures ListsExactly(IdsOf(recs), store.Contents().Keys)
    ensures forall rec :: rec in recs ==> IsStored(store.Contents(), rec)
    ensures |recs| == |store.Contents()|
  {
    hide Later, SlotsOk, RecordsAt, PositionOk, StackOk, Left, Prefixes, ListsExactly, IsStored, SoFar;
    var iter := new PrefixIter<M>(store);
    ghost var all := Later(store.table, store.slots, 0);
    recs := [];
    SoFarStart(store.slots, all);
    while true
      invariant iter.Valid() && iter.store == store && fresh(iter) && fresh(iter.parents)
      invariant SoFar(store.slots, all, iter.Remaining(), recs)
      decreases |iter.Remaining()|
    {
      ghost var rest := iter.Remaining();
      var rec := iter.Next();
      if rec.None? {
        SoFarEnd(store.slots, all, recs);
        WalkIsContents(store.bits, store.table, store.slots, recs);
        return;
      }
      SoFarStep(store.slots, all, rest, recs, rec.value);
      recs := recs + [rec.value];
    }
  }

  // ----- Counting ---------------------------------------------------------------------------------

  lemma WalkLength<M>(table: Table, slots: Slots<M>, len: nat, path: seq<nat>, i: nat)
    requires len < |table| && i < Pow2(LevelWidth(table, len, |path|))
    ensures |WalkFrom(table, slots, len, path, i)|
      == |Here(table, slots, len, path, i)| + |Below(table, slots, len, path, i)|
        + |WalkFrom(table, slots, len, path, i + 1)|
  {
    hide Pow2, LevelWidth, Here, Below;
  }

  /** Counts the taken slots of a bucket and of all buckets below it. */
  method GetLenRecursive<M>(store: PrefixStore<M>, b: Bucket) returns (size: nat)
    requires store.Valid() && b.len <= store.bits && PositionOk(store.bits, store.table, store.slots, b, 0)
    ensures b.len < |store.table| && size == |WalkFrom(store.table, store.slots, b.len, b.path, 0)|
    decreases if b.len < |store.table| && |b.path| <= |store.table[b.len]| then |store.table[b.len]| - |b.path| else 0
  {
    hide SlotsOk, WalkFrom, LevelWidth, Pow2, GoodRow;
    TableSize(store.bits, store.table, store.slots);
    BucketHere(store.bits, store.table, store.slots, b);
    size := 0;
    for i := 0 to BucketSize(store.table, store.slots, b)
      invariant size + |WalkFrom(store.table, store.slots, b.len, b.path, i)| ==
        |WalkFrom(store.table, store.slots, b.len, b.path, 0)|
    {
      var slot := Slot(b.len, b.path + [i]);
      WalkLength(store.table, store.slots, b.len, b.path, i);
      if slot in store.slots {
        TakenLength(store.bits, store.table, store.slots, slot);
        SlotHere(store.bits, store.table, store.slots, b, i);
        size := size + 1;
        if store.slots[slot].nextBucket.Some? {
          var below := GetLenRecursive(store, Bucket(slot.len, slot.path));
          size := size + below;
        }
      }
    }
    WalkDone(store.table, store.slots, b.len, b.path);
  }

  lemma TakenLength<M>(bits: nat, table: Table, slots: Slots<M>, s: Slot)
    requires SlotsOk(bits, table, slots) && s in slots
    ensures 0 < s.len <= bits
  {
    SlotLength(bits, table, slots, s);
  }

  lemma WalkDone<M>(table: Table, slots: Slots<M>, len: nat, path: seq<nat>)
    requires len < |table|
    ensures WalkFrom(table, slots, len, path, Pow2(LevelWidth(table, len, |path|))) == []
  {
  }

  /** Every bucket has as many slots as its level has bit patterns. */
  lemma BucketHere<M>(bits: nat, table: Table, slots: Slots<M>, b: Bucket)
    requires SlotsOk(bits, table, slots) && PositionOk(bits, table, slots, b, 0) && b.len <= bits
    ensures b.len < |table| && HasBucket(slots, b)
    ensures BucketSize(table, slots, b) == Pow2(LevelWidth(table, b.len, |b.path|))
  {
    hide Pow2, LevelWidth, GoodRow, ChainOk;
    LevelHere(bits, table, slots, b, 0);
    RootWidth(table, b.len);
  }

  /** The counts of all lengths add up to the number of stored prefixes. */
  method GetPrefixesLen<M>(store: PrefixStore<M>) returns (size: nat)
    requires store.Valid()
    ensures size == |Later(store.table, store.slots, 0)| == |store.Contents()|
  {
    hide SlotsOk, WalkFrom, Prefixes, PositionOk;
    TableSize(store.bits, store.table, store.slots);
    size := 0;
    for len := 0 to store.bits + 1
      invariant size + |Later(store.table, store.slots, len)| == |Later(store.table, store.slots, 0)|
    {
      StartOk(store.bits, store.table, store.slots, len);
      var n := GetLenRecursive(store, Bucket(len, []));
      size := size + n;
    }
    WalkAsRecords(store.bits, store.table, store.slots);
  }

  lemma WalkAsRecords<M>(bits: nat, table: Table, slots: Slots<M>)
    requires SlotsOk(bits, table, slots)
    ensures |Later(table, slots, 0)| == |Prefixes(slots)|
  {
    hide Later, Prefixes, SlotsOk;
    var walk := Later(table, slots, 0);
    forall i | 0 <= i < |walk|
      ensures walk[i] in slots
    {
      LaterMeets(bits, table, slots, 0, walk[i]);
    }
    var recs := seq(|walk|, i requires 0 <= i < |walk| => Record(slots[walk[i]].prefix, slots[walk[i]].meta));
    WalkIsContents(bits, table, slots, recs);
  }
}
