/** The order in which the slots of the chained store are walked: a slot, all below it, then the next one. */
module Walk {
  import opened Bits
  import opened Chain
  import opened PrefixStores

  /** The taken slots of a bucket from a cursor on, each followed by those below it. */
  ghost function WalkFrom<M>(table: Table, slots: Slots<M>, len: nat, path: seq<nat>, cursor: nat): seq<Slot>
    requires len < |table|
    decreases if |path| <= |table[len]| then |table[len]| - |path| else 0, Pow2(LevelWidth(table, len, |path|)) - cursor
  {
    if cursor >= Pow2(LevelWidth(table, len, |path|)) then []
    else
      Here(table, slots, len, path, cursor)
      + Below(table, slots, len, path, cursor)
      + WalkFrom(table, slots, len, path, cursor + 1)
  }

  ghost function Here<M>(table: Table, slots: Slots<M>, len: nat, path: seq<nat>, cursor: nat): seq<Slot> {
    if Slot(len, path + [cursor]) in slots then [Slot(len, path + [cursor])] else []
  }

  ghost function Below<M>(table: Table, slots: Slots<M>, len: nat, path: seq<nat>, cursor: nat): seq<Slot>
    requires len < |table|
    decreases if |path| <= |table[len]| then |table[len]| - |path| else 0, -1
  {
    if Slot(len, path + [cursor]) in slots && |path| + 1 < |table[len]|
    then WalkFrom(table, slots, len, path + [cursor], 0) else []
  }

  /** What is left to walk above a bucket, once it is done. */
  ghost function Up<M>(table: Table, slots: Slots<M>, len: nat, path: seq<nat>): seq<Slot>
    requires len < |table|
  {
    if path == [] then []
    else
      var n := |path| - 1;
      WalkFrom(table, slots, len, path[..n], path[n] + 1) + Up(table, slots, len, path[..n])
  }

  /** All slots of the given length and the longer ones. */
  ghost function Later<M>(table: Table, slots: Slots<M>, len: nat): seq<Slot>
    decreases |table| - len
  {
    if len >= |table| then [] else WalkFrom(table, slots, len, [], 0) + Later(table, slots, len + 1)
  }

  // ----- The walk meets every taken slot once --------------------------------------------------

  /** The taken slots below a bucket, from a cursor on. */
  ghost predicate InRange<M>(slots: Slots<M>, len: nat, path: seq<nat>, cursor: nat, s: Slot) {
    s in slots && s.len == len && path < s.path && cursor <= s.path[|path|]
  }

  ghost predicate NoRepeats(walk: seq<Slot>) {
    forall i, j :: 0 <= i < j < |walk| ==> walk[i] != walk[j]
  }

  lemma NoRepeatsAppend(a: seq<Slot>, b: seq<Slot>)
    requires NoRepeats(a) && NoRepeats(b) && forall s :: s in a ==> s !in b
    ensures NoRepeats(a + b)
  {
    forall i, j | 0 <= i < j < |a + b|
      ensures (a + b)[i] != (a + b)[j]
    {
      if i < |a| <= j { assert a[i] in a && b[j - |a|] in b; }
    }
  }

  /** The indices on the path of a taken slot are within their buckets. */
  lemma IndexBound<M>(bits: nat, table: Table, slots: Slots<M>, s: Slot, l: nat)
    requires SlotsOk(bits, table, slots) && s in slots && l < |s.path|
    ensures 0 < s.len <= bits && |s.path| <= |table[s.len]|
    ensures s.path[l] < Pow2(LevelWidth(table, s.len, l))
  {
    hide HashId, Pow2;
    var o := Owners(slots);
    assert SlotOk(bits, table, o, s);
    IndexInBucket(bits, table, o[s], l);
    PathPrefix(bits, table, o[s], l + 1, |s.path|);
    assert s.path[..l + 1][l] == s.path[l];
  }

  lemma ParentIn<M>(bits: nat, table: Table, slots: Slots<M>, s: Slot)
    requires SlotsOk(bits, table, slots) && s in slots && |s.path| > 1
    ensures Slot(s.len, s.path[..|s.path| - 1]) in slots
  {
    hide SlotAt, GoodId, BucketsOk;
    assert SlotOk(bits, table, Owners(slots), s);
  }

  /** Above a taken slot, all slots are taken. */
  lemma {:induction false} AncestorIn<M>(bits: nat, table: Table, slots: Slots<M>, s: Slot, n: nat)
    requires SlotsOk(bits, table, slots) && s in slots && 0 < n <= |s.path|
    ensures Slot(s.len, s.path[..n]) in slots
    decreases |s.path|
  {
    hide SlotsOk;
    if n == |s.path| {
      assert s.path[..n] == s.path;
    } else {
      ParentIn(bits, table, slots, s);
      var up := Slot(s.len, s.path[..|s.path| - 1]);
      AncestorIn(bits, table, slots, up, n);
      assert up.path[..n] == s.path[..n];
    }
  }

  /** A path goes on at an index or later: it ends at the index, goes on beyond it, or takes a later one. */
  lemma PathSplits(path: seq<nat>, p: seq<nat>, index: nat)
    ensures path < p && index <= p[|path|] <==>
      p == path + [index] || path + [index] < p || (path < p && index + 1 <= p[|path|])
  {
    if path < p && p[|path|] == index {
      assert p[..|path| + 1] == path + [index];
      if |p| == |path| + 1 { assert p == p[..|path| + 1]; }
    }
  }

  /** A slot in the range of a bucket is at the cursor, below the slot at the cursor, or in the rest. */
  lemma RangeSplits<M>(slots: Slots<M>, len: nat, path: seq<nat>, cursor: nat, s: Slot)
    ensures InRange(slots, len, path, cursor, s) <==>
      || (s == Slot(len, path + [cursor]) && s in slots)
      || InRange(slots, len, path + [cursor], 0, s)
      || InRange(slots, len, path, cursor + 1, s)
  {
    PathSplits(path, s.path, cursor);
  }

  /** A taken slot below a bucket is reached through taken slots. */
  lemma BelowIsReached<M>(bits: nat, table: Table, slots: Slots<M>, len: nat, path: seq<nat>, cursor: nat, s: Slot)
    requires SlotsOk(bits, table, slots) && InRange(slots, len, path + [cursor], 0, s)
    ensures len < |table| && Slot(len, path + [cursor]) in slots && |path| + 1 < |table[len]|
  {
    hide SlotsOk;
    TableSize(bits, table, slots);
    AncestorIn(bits, table, slots, s, |path| + 1);
    assert s.path[..|path| + 1] == path + [cursor];
    IndexBound(bits, table, slots, s, |path|);
  }

  /** The walk from a cursor on, part by part. */
  lemma WalkParts<M>(table: Table, slots: Slots<M>, len: nat, path: seq<nat>, cursor: nat, s: Slot)
    requires len < |table|
    ensures s in Here(table, slots, len, path, cursor) <==> s == Slot(len, path + [cursor]) && s in slots
    ensures s in WalkFrom(table, slots, len, path, cursor) <==>
      cursor < Pow2(LevelWidth(table, len, |path|)) &&
      (s in Here(table, slots, len, path, cursor) || s in Below(table, slots, len, path, cursor)
       || s in WalkFrom(table, slots, len, path, cursor + 1))
  {
    hide Pow2, LevelWidth, Below;
  }

  lemma {:induction false} WalkMeets<M>(bits: nat, table: Table, slots: Slots<M>, len: nat, path: seq<nat>,
                                        cursor: nat, s: Slot)
    requires SlotsOk(bits, table, slots) && len <= bits
    ensures s in WalkFrom(table, slots, len, path, cursor) <==> InRange(slots, len, path, cursor, s)
    decreases if |path| <= |table[len]| then |table[len]| - |path| else 0, Pow2(LevelWidth(table, len, |path|)) - cursor
  {
    hide SlotsOk, Pow2, LevelWidth, InRange, WalkFrom, Here;
    TableSize(bits, table, slots);
    WalkParts(table, slots, len, path, cursor, s);
    if cursor >= Pow2(LevelWidth(table, len, |path|)) {
      PastTheEnd(bits, table, slots, len, path, cursor, s);
    } else {
      RangeSplits(slots, len, path, cursor, s);
      if InRange(slots, len, path + [cursor], 0, s) { BelowIsReached(bits, table, slots, len, path, cursor, s); }
      WalkMeets(bits, table, slots, len, path, cursor + 1, s);
      if Slot(len, path + [cursor]) in slots && |path| + 1 < |table[len]| {
        WalkMeets(bits, table, slots, len, path + [cursor], 0, s);
      }
    }
  }

  lemma PastTheEnd<M>(bits: nat, table: Table, slots: Slots<M>, len: nat, path: seq<nat>, cursor: nat, s: Slot)
    requires SlotsOk(bits, table, slots) && len <= bits && cursor >= Pow2(LevelWidth(table, len, |path|))
    ensures !InRange(slots, len, path, cursor, s)
  {
    if InRange(slots, len, path, cursor, s) { IndexBound(bits, table, slots, s, |path|); }
  }

  lemma WalkSplits<M>(table: Table, slots: Slots<M>, len: nat, path: seq<nat>, cursor: nat)
    requires len < |table|
    ensures WalkFrom(table, slots, len, path, cursor) ==
      if cursor >= Pow2(LevelWidth(table, len, |path|)) then []
      else Here(table, slots, len, path, cursor) + Below(table, slots, len, path, cursor)
           + WalkFrom(table, slots, len, path, cursor + 1)
  {
  }

  lemma {:induction false} WalkOnce<M>(bits: nat, table: Table, slots: Slots<M>, len: nat, path: seq<nat>, cursor: nat)
    requires SlotsOk(bits, table, slots) && len <= bits
    ensures NoRepeats(WalkFrom(table, slots, len, path, cursor))
    decreases if |path| <= |table[len]| then |table[len]| - |path| else 0, Pow2(LevelWidth(table, len, |path|)) - cursor
  {
    hide SlotsOk, Pow2, LevelWidth, WalkFrom;
    TableSize(bits, table, slots);
    WalkSplits(table, slots, len, path, cursor);
    if cursor < Pow2(LevelWidth(table, len, |path|)) {
      WalkOnce(bits, table, slots, len, path, cursor + 1);
      if Slot(len, path + [cursor]) in slots && |path| + 1 < |table[len]| {
        WalkOnce(bits, table, slots, len, path + [cursor], 0);
      }
      PartsApart(bits, table, slots, len, path, cursor);
      NoRepeatsAppend(Here(table, slots, len, path, cursor), Below(table, slots, len, path, cursor));
      NoRepeatsAppend(Here(table, slots, len, path, cursor) + Below(table, slots, len, path, cursor),
        WalkFrom(table, slots, len, path, cursor + 1));
    }
  }

  lemma PartsApart<M>(bits: nat, table: Table, slots: Slots<M>, len: nat, path: seq<nat>, cursor: nat)
    requires SlotsOk(bits, table, slots) && len <= bits
    ensures forall s :: s in Here(table, slots, len, path, cursor) ==> s !in Below(table, slots, len, path, cursor)
    ensures forall s :: s in Here(table, slots, len, path, cursor) + Below(table, slots, len, path, cursor) ==>
      s !in WalkFrom(table, slots, len, path, cursor + 1)
  {
    hide SlotsOk, WalkFrom;
    TableSize(bits, table, slots);
    forall s: Slot
      ensures s in Below(table, slots, len, path, cursor) ==> path + [cursor] < s.path
      ensures s in WalkFrom(table, slots, len, path, cursor + 1) ==> path < s.path && cursor < s.path[|path|]
    {
      WalkMeets(bits, table, slots, len, path + [cursor], 0, s);
      WalkMeets(bits, table, slots, len, path, cursor + 1, s);
    }
  }

  /** The whole walk meets exactly the taken slots of the lengths left, each once. */
  lemma {:induction false} LaterMeets<M>(bits: nat, table: Table, slots: Slots<M>, len: nat, s: Slot)
    requires SlotsOk(bits, table, slots)
    ensures s in Later(table, slots, len) <==> s in slots && len <= s.len
    decreases |table| - len
  {
    hide SlotsOk, WalkFrom;
    TableSize(bits, table, slots);
    if s in slots { SlotLength(bits, table, slots, s); }
    if len < |table| {
      WalkMeets(bits, table, slots, len, [], 0, s);
      LaterMeets(bits, table, slots, len + 1, s);
    }
  }

  lemma TableSize<M>(bits: nat, table: Table, slots: Slots<M>)
    requires SlotsOk(bits, table, slots)
    ensures |table| == bits + 1 && table[0] == []
    ensures forall len :: 0 < len <= bits ==> 0 < |table[len]| <= MAX_LEVELS
  {
  }

  lemma SlotLength<M>(bits: nat, table: Table, slots: Slots<M>, s: Slot)
    requires SlotsOk(bits, table, slots) && s in slots
    ensures 0 < s.len <= bits && s.path != []
  {
    assert SlotOk(bits, table, Owners(slots), s);
  }

  lemma {:induction false} LaterOnce<M>(bits: nat, table: Table, slots: Slots<M>, len: nat)
    requires SlotsOk(bits, table, slots)
    ensures NoRepeats(Later(table, slots, len))
    decreases |table| - len
  {
    hide SlotsOk, WalkFrom;
    TableSize(bits, table, slots);
    if len < |table| {
      WalkOnce(bits, table, slots, len, [], 0);
      LaterOnce(bits, table, slots, len + 1);
      forall s: Slot
        ensures s in WalkFrom(table, slots, len, [], 0) ==> s !in Later(table, slots, len + 1)
      {
        WalkMeets(bits, table, slots, len, [], 0, s);
        LaterMeets(bits, table, slots, len + 1, s);
      }
      NoRepeatsAppend(WalkFrom(table, slots, len, [], 0), Later(table, slots, len + 1));
    }
  }
}
