/** Walking down the prefix lengths of the chained store, and the direct query built on it. */
module LessSpecifics {
  import opened Wrappers
  import opened Bits
  import opened Af
  import opened Records
  import opened Chain
  import opened PrefixStores

  /** A prefix of length len that covers s is s cleaned to len. */
  lemma CoverIsCleaned(bits: nat, q: PrefixId, s: PrefixId)
    requires s.net < Pow2(bits) && s.len <= bits
    ensures Covers(bits, q, s) <==> q.len <= s.len && q == Cleaned(bits, s.net, q.len)
  {
  }

  /** No stored prefix with a length in the given range, upper end included, covers s. */
  ghost predicate NoCover<M>(bits: nat, m: map<PrefixId, M>, s: PrefixId, lo: nat, hi: nat)
    requires s.net < Pow2(bits)
  {
    forall q :: q in m && lo < q.len <= hi ==> !Covers(bits, q, s)
  }

  lemma NoCoverStep<M>(bits: nat, m: map<PrefixId, M>, s: PrefixId, len: nat, hi: nat)
    requires s.net < Pow2(bits) && s.len <= bits && 0 < len <= bits && NoCover(bits, m, s, len, hi)
    requires Cleaned(bits, s.net, len) !in m
    ensures NoCover(bits, m, s, len - 1, hi)
  {
    forall q | q in m && len - 1 < q.len <= hi
      ensures !Covers(bits, q, s)
    {
      CoverIsCleaned(bits, q, s);
    }
  }

  class LessSpecificPrefixIter<M> {
    const store: PrefixStore<M>
    ghost const search: PrefixId
    var curLen: nat
    var curLevel: nat
    var curBucket: Bucket
    var curPrefixId: PrefixId

    /** Between two calls, the iterator stands at the root bucket of the next length to look at. */
    ghost predicate Valid()
      reads this, store
    {
      && store.Valid()
      && search.net < Pow2(store.bits) && curLen < search.len <= store.bits
      && curLevel == 0 && curBucket == Bucket(curLen, [])
      && curPrefixId.net < Pow2(store.bits)
      && forall l :: 0 <= l <= curLen ==> Cleaned(store.bits, curPrefixId.net, l) == Cleaned(store.bits, search.net, l)
    }

    constructor (store: PrefixStore<M>, start: PrefixId)
      requires store.Valid() && start.net < Pow2(store.bits) && 0 < start.len <= store.bits
      ensures Valid() && this.store == store && search == start && curLen == start.len - 1
    {
      this.store, search, curPrefixId := store, start, start;
      curLen, curLevel, curBucket := start.len - 1, 0, Bucket(start.len - 1, []);
    }

    /** The stored cover of the greatest length not above the current one. */
    method Next() returns (r: Option<Record<M>>)
      requires Valid()
      modifies this
      ensures Valid() && curLen <= old(curLen)
      ensures r.Some? ==> IsStored(store.Contents(), r.value) && Covers(store.bits, r.value.id, search)
      ensures r.Some? ==> curLen + 1 == r.value.id.len <= old(curLen)
      ensures NoCover(store.bits, store.Contents(), search, if r.Some? then curLen + 1 else 0, old(curLen))
      ensures r.None? ==> curLen == 0
    {
      hide GoodRow, HashId, SlotOk, BucketsOk, TruncateToLen, Prefixes, Canonical, NoCover, PathOf, Pow2,
           TakenBefore, LevelWidth, Covers;
      ghost var bits, table, m := store.bits, store.table, store.Contents();
      NothingBetween(bits, m, search, curLen);
      WalkStart(bits, table, store.slots, search.net, curLen);
      while true
        invariant store.Valid() && GoodTable(bits, table) && curLen <= old(curLen) < search.len <= bits
        invariant curPrefixId.net < Pow2(bits)
        invariant forall l :: 0 <= l <= curLen ==> Cleaned(bits, curPrefixId.net, l) == Cleaned(bits, search.net, l)
        invariant Walking(bits, table, store.slots, Cleaned(bits, search.net, curLen), curLevel, curBucket)
        invariant NoCover(bits, m, search, curLen, old(curLen))
        decreases curLen, if curLen > 0 then |table[curLen]| - curLevel else 0
      {
        if curLen == 0 { return None; }
        ghost var cand := Cleaned(bits, search.net, curLen);
        StillCleaned(bits, curPrefixId.net, search.net, curLen);
        curPrefixId := PrefixId(TruncateToLen(store.bits, curPrefixId.net, curLen), curLen);
        WalkStep(bits, table, store.slots, cand, curLevel, curBucket);
        var index := HashId(store.bits, store.table, curPrefixId, curLevel);
        assert HasBucket(store.slots, curBucket) && index < BucketSize(table, store.slots, curBucket);
        var slot := Slot(curBucket.len, curBucket.path + [index]);
        if slot in store.slots && store.slots[slot].prefix != curPrefixId {
          assert store.slots[slot].nextBucket.Some?;
          curBucket, curLevel := Bucket(slot.len, slot.path), curLevel + 1;
        } else {
          r := if slot in store.slots then Some(Record(store.slots[slot].prefix, store.slots[slot].meta)) else None;
          if r.None? { NoCoverStep(bits, m, search, curLen, old(curLen)); }
          curLen, curLevel := curLen - 1, 0;
          curBucket := Bucket(curLen, []);
          WalkStart(bits, table, store.slots, search.net, curLen);
          if r.Some? {
            CoverIsCleaned(bits, r.value.id, search);
            return;
          }
        }
      }
    }
  }

  lemma NothingBetween<M>(bits: nat, m: map<PrefixId, M>, s: PrefixId, len: nat)
    requires s.net < Pow2(bits)
    ensures NoCover(bits, m, s, len, len)
  {
  }

  /** The iterator has followed the chain of an id down to a level. */
  ghost predicate Walking<M>(bits: nat, table: Table, slots: Slots<M>, id: PrefixId, level: nat, bucket: Bucket)
    requires GoodTable(bits, table)
  {
    if id.len == 0 then level == 0 && bucket == Bucket(0, [])
    else
      && GoodId(bits, id) && level <= |table[id.len]|
      && TakenBefore(bits, table, Owners(slots), id, level)
      && bucket == Bucket(id.len, PathOf(bits, table, id, level))
  }

  lemma WalkStart<M>(bits: nat, table: Table, slots: Slots<M>, net: nat, len: nat)
    requires GoodTable(bits, table) && net < Pow2(bits) && len <= bits
    ensures Walking(bits, table, slots, Cleaned(bits, net, len), 0, Bucket(len, []))
  {
    CleanedIsGood(bits, net, len);
  }

  /** One level: the slot is in range, and holds the id, another one with a bucket below it, or nothing. */
  lemma WalkStep<M>(bits: nat, table: Table, slots: Slots<M>, id: PrefixId, level: nat, bucket: Bucket)
    requires SlotsOk(bits, table, slots) && 0 < id.len <= bits && Walking(bits, table, slots, id, level, bucket)
    ensures level < |table[id.len]| && id.net < Pow2(bits) && bucket.len == id.len
    ensures LastLevel(table, id.len, level) < BitsForLen(table, id.len, level) <= bits
    ensures HasBucket(slots, bucket) && HashId(bits, table, id, level) < BucketSize(table, slots, bucket)
    ensures var slot := Slot(bucket.len, bucket.path + [HashId(bits, table, id, level)]);
      if slot in slots && slots[slot].prefix != id then
        slots[slot].nextBucket.Some? && Walking(bits, table, slots, id, level + 1, Bucket(slot.len, slot.path))
      else if slot in slots then id in Prefixes(slots) && Prefixes(slots)[id] == slots[slot].meta
      else id !in Prefixes(slots)
  {
    hide HashId, SlotOk, BucketsOk, Prefixes, Pow2, TruncateToLen, LevelWidth, GoodRow;
    OnTheWay(bits, table, slots, id, level);
    IndexInBucket(bits, table, id, level);
    var slot := Slot(bucket.len, bucket.path + [HashId(bits, table, id, level)]);
    if slot in slots && slots[slot].prefix != id {
      TakenStep(bits, table, Owners(slots), id, level);
      OnTheWay(bits, table, slots, id, level + 1);
    } else {
      EndSlot(bits, table, slots, id, level);
    }
  }

  lemma StillCleaned(bits: nat, net: nat, search: nat, len: nat)
    requires net < Pow2(bits) && search < Pow2(bits) && len <= bits
    requires forall l :: 0 <= l <= len ==> Cleaned(bits, net, l) == Cleaned(bits, search, l)
    ensures TruncateToLen(bits, net, len) < Pow2(bits)
    ensures Cleaned(bits, net, len) == Cleaned(bits, search, len)
    ensures forall l :: 0 <= l <= len ==> Cleaned(bits, TruncateToLen(bits, net, len), l) == Cleaned(bits, search, l)
  {
    forall l | 0 <= l <= len
      ensures Cleaned(bits, TruncateToLen(bits, net, len), l) == Cleaned(bits, search, l)
    {
      CleanTwice(bits, net, len, l);
    }
  }

  // ----- Collecting, and the direct query -------------------------------------------------------

  /** The covers found so far: those longer than the current length, longest first. */
  ghost predicate CoversFound<M>(bits: nat, m: map<PrefixId, M>, s: PrefixId, found: seq<Record<M>>, lo: nat)
    requires s.net < Pow2(bits)
  {
    && (forall i, j :: 0 <= i < j < |found| ==> found[j].id.len < found[i].id.len)
    && (forall rec :: rec in found ==> IsStored(m, rec) && Covers(bits, rec.id, s) && lo < rec.id.len < s.len)
    && (forall q :: q in m && lo < q.len < s.len && Covers(bits, q, s) ==> q in IdsOf(found))
  }

  lemma CoversStep<M>(bits: nat, m: map<PrefixId, M>, s: PrefixId, found: seq<Record<M>>, hi: nat, rec: Record<M>)
    requires s.net < Pow2(bits) && s.len <= bits && CoversFound(bits, m, s, found, hi) && 0 < rec.id.len <= hi < s.len
    requires IsStored(m, rec) && Covers(bits, rec.id, s) && NoCover(bits, m, s, rec.id.len, hi)
    ensures CoversFound(bits, m, s, found + [rec], rec.id.len - 1)
  {
    hide TruncateToLen, NoCover, Covers, IsStored, Pow2, IdsOf;
    var all := found + [rec];
    IdsAppend(found, rec);
    forall i, j | 0 <= i < j < |all|
      ensures all[j].id.len < all[i].id.len
    {
      assert all[i] == found[i] && found[i] in found;
      if j < |found| { assert all[j] == found[j]; }
    }
    forall q | q in m && rec.id.len - 1 < q.len < s.len && Covers(bits, q, s)
      ensures q in IdsOf(all)
    {
      StillFound(bits, m, s, found, hi, rec, q);
    }
  }

  lemma IdsAppend<M>(found: seq<Record<M>>, rec: Record<M>)
    ensures IdsOf(found + [rec]) == IdsOf(found) + [rec.id]
  {
  }

  lemma StillFound<M>(bits: nat, m: map<PrefixId, M>, s: PrefixId, found: seq<Record<M>>, hi: nat, rec: Record<M>,
                      q: PrefixId)
    requires s.net < Pow2(bits) && s.len <= bits && CoversFound(bits, m, s, found, hi) && 0 < rec.id.len <= hi < s.len
    requires Covers(bits, rec.id, s) && NoCover(bits, m, s, rec.id.len, hi)
    requires q in m && rec.id.len - 1 < q.len < s.len && Covers(bits, q, s)
    ensures q in IdsOf(found) + [rec.id]
  {
    hide TruncateToLen, NoCover, Covers, IsStored, IdsOf;
    if q.len <= hi {
      OnlyCover(bits, m, s, hi, rec.id, q);
      assert q in [rec.id];
    } else {
      assert q in IdsOf(found);
    }
  }

  /** With nothing between, a cover of at least the length of another one is that one. */
  lemma OnlyCover<M>(bits: nat, m: map<PrefixId, M>, s: PrefixId, hi: nat, id: PrefixId, q: PrefixId)
    requires s.net < Pow2(bits) && s.len <= bits && Covers(bits, id, s) && NoCover(bits, m, s, id.len, hi)
    requires q in m && id.len <= q.len <= hi && Covers(bits, q, s)
    ensures q == id
  {
    CoverIsCleaned(bits, q, s);
    CoverIsCleaned(bits, id, s);
  }

  /** All stored prefixes less specific than p, longest first. */
  method LessSpecificsFrom<M>(store: PrefixStore<M>, p: PrefixId) returns (found: seq<Record<M>>)
    requires store.Valid() && p.net < Pow2(store.bits) && p.len <= store.bits
    ensures CoversFound(store.bits, store.Contents(), p, found, 0)
  {
    hide SlotsOk, Prefixes, CoversFound, NoCover, TruncateToLen, Covers;
    ghost var bits, m := store.bits, store.Contents();
    found := [];
    NoneFound(bits, m, p);
    if p.len < 1 { return; }
    var iter := new LessSpecificPrefixIter<M>(store, p);
    while true
      invariant iter.Valid() && iter.store == store && iter.search == p
      invariant CoversFound(bits, m, p, found, iter.curLen)
      decreases iter.curLen
    {
      label before:
      var rec := iter.Next();
      if rec.None? {
        NoMoreFound(bits, m, p, found, old@before(iter.curLen));
        return;
      }
      CoversStep(bits, m, p, found, old@before(iter.curLen), rec.value);
      found := found + [rec.value];
    }
  }

  lemma NoneFound<M>(bits: nat, m: map<PrefixId, M>, s: PrefixId)
    requires s.net < Pow2(bits)
    ensures CoversFound(bits, m, s, [], if s.len > 0 then s.len - 1 else 0)
  {
  }

  lemma NoMoreFound<M>(bits: nat, m: map<PrefixId, M>, s: PrefixId, found: seq<Record<M>>, hi: nat)
    requires s.net < Pow2(bits) && CoversFound(bits, m, s, found, hi) && NoCover(bits, m, s, 0, hi)
    ensures CoversFound(bits, m, s, found, 0)
  {
  }

  /** The last of the longest records. */
  method MaxByLen<M>(recs: seq<Record<M>>) returns (r: Option<Record<M>>)
    ensures r.None? <==> recs == []
    ensures r.Some? ==> r.value in recs && forall rec :: rec in recs ==> rec.id.len <= r.value.id.len
  {
    r := None;
    for i := 0 to |recs|
      invariant r.None? <==> i == 0
      invariant r.Some? ==> r.value in recs && forall j :: 0 <= j < i ==> recs[j].id.len <= r.value.id.len
    {
      if r.None? || recs[i].id.len >= r.value.id.len { r := Some(recs[i]); }
    }
  }

  lemma ExactIsLongest<M>(bits: nat, m: map<PrefixId, M>, s: PrefixId)
    requires s.len <= bits && Canonical(bits, s) && 0 < s.len && s in m
    ensures IsLongestMatch(bits, m, s, Some(s))
  {
  }

  lemma LongestCoverIsMatch<M>(bits: nat, m: map<PrefixId, M>, s: PrefixId, found: seq<Record<M>>, r: Option<Record<M>>)
    requires s.len <= bits && Canonical(bits, s) && s !in m && CoversFound(bits, m, s, found, 0)
    requires r.None? <==> found == []
    requires r.Some? ==> r.value in found && forall rec :: rec in found ==> rec.id.len <= r.value.id.len
    ensures IsLongestMatch(bits, m, s, if r.Some? then Some(r.value.id) else None)
    ensures r.Some? ==> r.value.id != s
  {
    hide TruncateToLen;
    forall q | q in m && 1 <= q.len && Covers(bits, q, s)
      ensures r.Some? && q.len <= r.value.id.len
    {
      if q.len == s.len { SameLength(bits, q, s); }
      assert q in IdsOf(found);
      var i :| 0 <= i < |found| && IdsOf(found)[i] == q;
      assert found[i] in found;
    }
  }

  lemma SameLength(bits: nat, q: PrefixId, s: PrefixId)
    requires s.len <= bits && Canonical(bits, s) && Covers(bits, q, s) && q.len == s.len
    ensures q == s
  {
  }

  /** What covers a cover is what covers s and is not longer than the cover. */
  lemma CoversOfCover(bits: nat, p: PrefixId, q: PrefixId, s: PrefixId)
    requires s.net < Pow2(bits) && s.len <= bits && Covers(bits, p, s) && q.len <= p.len
    ensures p.net < Pow2(bits) && p.len <= s.len
    ensures Covers(bits, q, p) <==> Covers(bits, q, s)
  {
    CleanTwice(bits, s.net, p.len, q.len);
  }

  /** Listing the less specifics of the prefix found: they come longest first, and are the shorter covers of s. */
  ghost predicate ShorterCovers<M>(bits: nat, m: map<PrefixId, M>, s: PrefixId, limit: nat, less: seq<Record<M>>)
    requires s.net < Pow2(bits)
  {
    && (forall i, j :: 0 <= i < j < |less| ==> less[j].id.len < less[i].id.len)
    && (forall rec :: rec in less ==> IsStored(m, rec))
    && forall q :: q in IdsOf(less) <==> q in m && 1 <= q.len < limit && Covers(bits, q, s)
  }

  lemma FoundAreShorter<M>(bits: nat, m: map<PrefixId, M>, s: PrefixId, p: PrefixId, less: seq<Record<M>>)
    requires s.net < Pow2(bits) && s.len <= bits && Covers(bits, p, s)
    requires p.net < Pow2(bits) && CoversFound(bits, m, p, less, 0)
    ensures ShorterCovers(bits, m, s, p.len, less)
  {
    hide Covers, TruncateToLen;
    forall q
      ensures q in IdsOf(less) <==> q in m && 1 <= q.len < p.len && Covers(bits, q, s)
    {
      if q.len <= p.len { CoversOfCover(bits, p, q, s); }
      if q in IdsOf(less) {
        var i :| 0 <= i < |less| && IdsOf(less)[i] == q;
        assert less[i] in less;
      }
    }
  }

  /**
   * The exact match if it is stored; otherwise, unless only that was asked for, the longest cover. The less specifics
   * are those of the prefix found, or of the one searched for if none is found; none for an exact match that is not.
   */
  method MatchPrefixByStoreDirect<M>(store: PrefixStore<M>, s: PrefixId, matchType: MatchType,
                                     includeLessSpecifics: bool)
    returns (prefix: Option<Record<M>>, resultType: MatchType, less: Option<seq<Record<M>>>)
    requires store.Valid() && GoodId(store.bits, s)
    ensures prefix.Some? ==> IsStored(store.Contents(), prefix.value)
    ensures var id := if prefix.Some? then Some(prefix.value.id) else None;
      && (if matchType.ExactMatch? then id == (if s in store.Contents() then Some(s) else None)
          else IsLongestMatch(store.bits, store.Contents(), s, id))
      && resultType == if id.None? then EmptyMatch else if id.value == s then ExactMatch else LongestMatch
    ensures less.Some? <==> includeLessSpecifics
    ensures includeLessSpecifics ==>
      if matchType.ExactMatch? && prefix.None? then less.value == []
      else
        var limit := if prefix.Some? then prefix.value.id.len else s.len;
        ShorterCovers(store.bits, store.Contents(), s, limit, less.value)
  {
    hide SlotsOk, Prefixes, CoversFound, TruncateToLen, Covers, IsLongestMatch, Key, ShorterCovers;
    ghost var bits, m := store.bits, store.Contents();
    less := if includeLessSpecifics then Some([]) else None;
    var at;
    prefix, at := store.Retrieve(s);
    if prefix.Some? {
      ExactIsLongest(bits, m, s);
      resultType := MatchType.ExactMatch;
    } else {
      match matchType
      case ExactMatch =>
        return prefix, MatchType.EmptyMatch, less;
      case LongestMatch | EmptyMatch =>
        var covers := LessSpecificsFrom(store, s);
        prefix := MaxByLen(covers);
        LongestCoverIsMatch(bits, m, s, covers, prefix);
        CoversAreStored(bits, m, s, covers);
        resultType := if prefix.Some? then MatchType.LongestMatch else MatchType.EmptyMatch;
    }
    if includeLessSpecifics {
      var base := if prefix.Some? then prefix.value.id else s;
      BaseCovers(bits, m, s, if prefix.Some? then Some(prefix.value.id) else None);
      var found := LessSpecificsFrom(store, base);
      FoundAreShorter(bits, m, s, base, found);
      less := Some(found);
    }
  }

  lemma BaseCovers<M>(bits: nat, m: map<PrefixId, M>, s: PrefixId, id: Option<PrefixId>)
    requires s.len <= bits && Canonical(bits, s) && IsLongestMatch(bits, m, s, id)
    ensures var p := if id.Some? then id.value else s; Covers(bits, p, s) && p.net < Pow2(bits) && p.len <= bits
  {
  }

  lemma CoversAreStored<M>(bits: nat, m: map<PrefixId, M>, s: PrefixId, found: seq<Record<M>>)
    requires s.net < Pow2(bits) && CoversFound(bits, m, s, found, 0)
    ensures forall rec :: rec in found ==> IsStored(m, rec)
  {
  }
}
