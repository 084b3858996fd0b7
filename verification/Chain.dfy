/**
 * The chained hash store. Every length has a tree of buckets; a slice of the address bits picks
 * the slot at each level, and an id that finds its slot taken goes on in the bucket below it.
 */
module Chain {
  import opened Bits
  import opened Af

  /** A slot, by the indices that lead to it from the root bucket of its length. */
  datatype Slot = Slot(len: nat, path: seq<nat>)

  /** Rows of cumulative bits per level, by length. */
  type Table = seq<seq<nat>>

  /** No length needs more levels than this. */
  const MAX_LEVELS: nat := 26

  /** The bits handled up to and including a level; 0 beyond the last level. */
  function BitsForLen(table: Table, len: nat, level: nat): nat
    requires len < |table|
  {
    if level < |table[len]| then table[len][level] else 0
  }

  /** The bits handled before a level. */
  function LastLevel(table: Table, len: nat, level: nat): nat
    requires len < |table|
  {
    if level > 0 then BitsForLen(table, len, level - 1) else 0
  }

  /** The row increases strictly up to the length, by at most 32 bits a level. */
  ghost predicate GoodRow(row: seq<nat>, len: nat) {
    && 0 < |row| <= MAX_LEVELS
    && row[|row| - 1] == len
    && 0 < row[0] <= 32
    && forall l :: 0 < l < |row| ==> row[l - 1] < row[l] <= row[l - 1] + 32
  }

  ghost predicate GoodTable(bits: nat, table: Table) {
    && |table| == bits + 1
    && table[0] == []
    && forall len :: 0 < len <= bits ==> GoodRow(table[len], len)
  }

  lemma {:induction false} RowMono(row: seq<nat>, len: nat, i: nat, j: nat)
    requires GoodRow(row, len) && i <= j < |row|
    ensures 0 < row[i] <= row[j] <= len
    ensures i < j ==> row[i] < row[j]
    decreases |row| - i
  {
    if i < j {
      RowMono(row, len, i + 1, j);
    } else if j + 1 < |row| {
      RowMono(row, len, j + 1, |row| - 1);
    }
    if i > 0 { RowStart(row, len, i); }
  }

  lemma {:induction false} RowStart(row: seq<nat>, len: nat, i: nat)
    requires GoodRow(row, len) && i < |row|
    ensures 0 < row[i]
  {
    if i > 0 { RowStart(row, len, i - 1); }
  }

  /** What a level handles: at least one bit, at most 32, within the length. */
  lemma LevelBounds(bits: nat, table: Table, len: nat, level: nat)
    requires GoodTable(bits, table) && 0 < len <= bits && level < |table[len]|
    ensures LastLevel(table, len, level) < BitsForLen(table, len, level) <= len
    ensures BitsForLen(table, len, level) - LastLevel(table, len, level) <= 32
    ensures level + 1 == |table[len]| ==> BitsForLen(table, len, level) == len
  {
    RowMono(table[len], len, level, level);
    if level > 0 { RowMono(table[len], len, level - 1, level); }
  }

  /** The slice of the address that a level looks at, cast to 32 bits. */
  function HashId(bits: nat, table: Table, id: PrefixId, level: nat): nat
    requires id.len < |table| && id.net < Pow2(bits)
    requires LastLevel(table, id.len, level) < BitsForLen(table, id.len, level) <= bits
  {
    var last, this_ := LastLevel(table, id.len, level), BitsForLen(table, id.len, level);
    Val(ToBits(Shr(Shl(id.net, last, bits), WrapShift(bits - (this_ - last), bits)), 32))
  }

  /** The index at a level, as the number that the bits of the key spell. */
  lemma HashIsSlice(bits: nat, table: Table, id: PrefixId, level: nat)
    requires GoodTable(bits, table) && 0 < id.len <= bits && level < |table[id.len]| && id.net < Pow2(bits)
    ensures LastLevel(table, id.len, level) < BitsForLen(table, id.len, level) <= id.len
    ensures HashId(bits, table, id, level) ==
      Val(Key(bits, id)[LastLevel(table, id.len, level)..BitsForLen(table, id.len, level)])
    ensures HashId(bits, table, id, level) < Pow2(BitsForLen(table, id.len, level) - LastLevel(table, id.len, level))
  {
    hide Pow2, Val, ToBits, Shr, Shl;
    LevelBounds(bits, table, id.len, level);
    var last, this_ := LastLevel(table, id.len, level), BitsForLen(table, id.len, level);
    NibbleIsSlice(bits, id.net, last, this_ - last);
    assert Key(bits, id)[last..this_] == ToBits(id.net, bits)[last..this_];
    Truncate32(GetNibble(bits, id.net, last, this_ - last), this_ - last);
  }

  lemma Truncate32(w: nat, n: nat)
    requires w < Pow2(n) && n <= 32
    ensures Val(ToBits(w, 32)) == w
  {
    Pow2Mono(n, 32);
    ValToBits(w, 32);
  }

  /** The indices of the first n levels. */
  function PathOf(bits: nat, table: Table, id: PrefixId, n: nat): (p: seq<nat>)
    requires GoodTable(bits, table) && 0 < id.len <= bits && n <= |table[id.len]| && id.net < Pow2(bits)
    ensures |p| == n
  {
    if n == 0 then []
    else
      LevelBounds(bits, table, id.len, n - 1);
      PathOf(bits, table, id, n - 1) + [HashId(bits, table, id, n - 1)]
  }

  lemma {:induction false} PathPrefix(bits: nat, table: Table, id: PrefixId, m: nat, n: nat)
    requires GoodTable(bits, table) && 0 < id.len <= bits && m <= n <= |table[id.len]| && id.net < Pow2(bits)
    ensures PathOf(bits, table, id, n)[..m] == PathOf(bits, table, id, m)
    decreases n
  {
    if m < n { PathPrefix(bits, table, id, m, n - 1); }
  }

  /** Equal indices mean equal address bits. */
  lemma {:induction false} PathDeterminesBits(bits: nat, table: Table, p: PrefixId, q: PrefixId, n: nat)
    requires GoodTable(bits, table) && 0 < p.len == q.len <= bits && n <= |table[p.len]|
    requires p.net < Pow2(bits) && q.net < Pow2(bits)
    requires PathOf(bits, table, p, n) == PathOf(bits, table, q, n)
    ensures LastLevel(table, p.len, n) <= p.len
    ensures Key(bits, p)[..LastLevel(table, p.len, n)] == Key(bits, q)[..LastLevel(table, p.len, n)]
  {
    hide Key, HashId, Val;
    if n > 0 {
      LevelBounds(bits, table, p.len, n - 1);
      SameLastIndex(bits, table, p, q, n);
      PathDeterminesBits(bits, table, p, q, n - 1);
      HashIsSlice(bits, table, p, n - 1);
      HashIsSlice(bits, table, q, n - 1);
      var last, this_ := LastLevel(table, p.len, n - 1), BitsForLen(table, p.len, n - 1);
      var k, m := Key(bits, p), Key(bits, q);
      ValInjective(k[last..this_], m[last..this_]);
      assert k[..this_] == k[..last] + k[last..this_];
      assert m[..this_] == m[..last] + m[last..this_];
    }
  }

  lemma SameLastIndex(bits: nat, table: Table, p: PrefixId, q: PrefixId, n: nat)
    requires GoodTable(bits, table) && 0 < p.len == q.len <= bits && 0 < n <= |table[p.len]|
    requires p.net < Pow2(bits) && q.net < Pow2(bits)
    requires PathOf(bits, table, p, n) == PathOf(bits, table, q, n)
    ensures PathOf(bits, table, p, n - 1) == PathOf(bits, table, q, n - 1)
    ensures LastLevel(table, p.len, n - 1) < BitsForLen(table, p.len, n - 1) <= bits
    ensures HashId(bits, table, p, n - 1) == HashId(bits, table, q, n - 1)
  {
    hide HashId;
    LevelBounds(bits, table, p.len, n - 1);
    assert PathOf(bits, table, p, n)[n - 1] == PathOf(bits, table, q, n)[n - 1];
    PathPrefix(bits, table, p, n - 1, n);
    PathPrefix(bits, table, q, n - 1, n);
  }

  /** Two ids of equal length with equal indices at every level are equal. */
  lemma PathInjective(bits: nat, table: Table, p: PrefixId, q: PrefixId)
    requires GoodTable(bits, table) && 0 < p.len == q.len <= bits && Canonical(bits, p) && Canonical(bits, q)
    requires PathOf(bits, table, p, |table[p.len]|) == PathOf(bits, table, q, |table[p.len]|)
    ensures p == q
  {
    var n := |table[p.len]|;
    PathDeterminesBits(bits, table, p, q, n);
    LevelBounds(bits, table, p.len, n - 1);
    assert Key(bits, p)[..p.len] == Key(bits, p) && Key(bits, q)[..p.len] == Key(bits, q);
    KeyInjective(bits, p, q);
  }

  // ----- The invariant of a chained store -----------------------------------------------------

  ghost predicate GoodId(bits: nat, id: PrefixId) {
    0 < id.len <= bits && Canonical(bits, id)
  }

  lemma CleanedIsGood(bits: nat, net: nat, len: nat)
    requires net < Pow2(bits) && len <= bits
    ensures Canonical(bits, Cleaned(bits, net, len))
    ensures len > 0 ==> GoodId(bits, Cleaned(bits, net, len))
  {
    TruncateIsKeyPrefix(bits, net, len);
  }

  /** The slot of an id at a level. */
  function SlotAt(bits: nat, table: Table, id: PrefixId, level: nat): Slot
    requires GoodTable(bits, table) && 0 < id.len <= bits && level < |table[id.len]| && id.net < Pow2(bits)
  {
    Slot(id.len, PathOf(bits, table, id, level + 1))
  }

  /** The slot stands on the path of the id it holds, and the slot above it is taken. */
  ghost predicate SlotOk(bits: nat, table: Table, owner: map<Slot, PrefixId>, s: Slot)
    requires GoodTable(bits, table) && s in owner
  {
    var id := owner[s];
    && GoodId(bits, id)
    && 0 < |s.path| <= |table[id.len]|
    && s == SlotAt(bits, table, id, |s.path| - 1)
    && (|s.path| > 1 ==> Slot(s.len, s.path[..|s.path| - 1]) in owner)
  }

  /** Which id each taken slot holds: every id on its own path, in one slot only, with no gaps above it. */
  ghost predicate ChainOk(bits: nat, table: Table, owner: map<Slot, PrefixId>) {
    && GoodTable(bits, table)
    && (forall s :: s in owner ==> SlotOk(bits, table, owner, s))
    && (forall s, t :: s in owner && t in owner && owner[s] == owner[t] ==> s == t)
  }

  /** All slots of an id before a level hold other ids. */
  ghost predicate TakenBefore(bits: nat, table: Table, owner: map<Slot, PrefixId>, id: PrefixId, level: nat)
    requires GoodTable(bits, table) && 0 < id.len <= bits && id.net < Pow2(bits)
  {
    forall l {:trigger SlotAt(bits, table, id, l)} :: 0 <= l < level && l < |table[id.len]| ==>
      SlotAt(bits, table, id, l) in owner && owner[SlotAt(bits, table, id, l)] != id
  }

  /** The last slot on the path of an id holds the id itself or nothing. */
  lemma LastSlotIsOwn(bits: nat, table: Table, owner: map<Slot, PrefixId>, id: PrefixId, level: nat)
    requires ChainOk(bits, table, owner) && GoodId(bits, id) && level < |table[id.len]|
    requires SlotAt(bits, table, id, level) in owner && owner[SlotAt(bits, table, id, level)] != id
    ensures level + 1 < |table[id.len]|
  {
    var s := SlotAt(bits, table, id, level);
    assert SlotOk(bits, table, owner, s);
    if level + 1 == |table[id.len]| {
      PathInjective(bits, table, owner[s], id);
    }
  }

  /** Everything on the path above a taken slot is taken. */
  lemma {:induction false} NoGaps(bits: nat, table: Table, owner: map<Slot, PrefixId>, id: PrefixId, l: nat, level: nat)
    requires ChainOk(bits, table, owner) && GoodId(bits, id) && l <= level < |table[id.len]|
    requires SlotAt(bits, table, id, level) in owner
    ensures SlotAt(bits, table, id, l) in owner
    decreases level
  {
    if l < level {
      assert SlotOk(bits, table, owner, SlotAt(bits, table, id, level));
      PathPrefix(bits, table, id, level, level + 1);
      NoGaps(bits, table, owner, id, l, level - 1);
    }
  }

  /** A stored id is found at the first slot of its path that does not hold another id. */
  lemma StoredAtLevel(bits: nat, table: Table, owner: map<Slot, PrefixId>, id: PrefixId, s: Slot)
    requires ChainOk(bits, table, owner) && s in owner && owner[s] == id
    ensures GoodId(bits, id) && 0 < |s.path| <= |table[id.len]| && s == SlotAt(bits, table, id, |s.path| - 1)
    ensures TakenBefore(bits, table, owner, id, |s.path| - 1)
  {
    assert SlotOk(bits, table, owner, s);
    forall l | 0 <= l < |s.path| - 1
      ensures SlotAt(bits, table, id, l) in owner && owner[SlotAt(bits, table, id, l)] != id
    {
      NoGaps(bits, table, owner, id, l, |s.path| - 1);
      assert |SlotAt(bits, table, id, l).path| == l + 1;
    }
  }

  /** An id is not stored before a level up to which its slots hold other ids. */
  lemma StoredBeyond(bits: nat, table: Table, owner: map<Slot, PrefixId>, id: PrefixId, level: nat, s: Slot)
    requires ChainOk(bits, table, owner) && GoodId(bits, id) && level < |table[id.len]|
    requires TakenBefore(bits, table, owner, id, level) && s in owner && owner[s] == id
    ensures |s.path| > level && SlotAt(bits, table, id, level) in owner
  {
    StoredAtLevel(bits, table, owner, id, s);
    if |s.path| > level { NoGaps(bits, table, owner, id, level, |s.path| - 1); }
  }

  /** If all slots before a level hold other ids and the slot at that level is free, the id is not stored. */
  lemma FreeMeansAbsent(bits: nat, table: Table, owner: map<Slot, PrefixId>, id: PrefixId, level: nat)
    requires ChainOk(bits, table, owner) && GoodId(bits, id) && level < |table[id.len]|
    requires TakenBefore(bits, table, owner, id, level) && SlotAt(bits, table, id, level) !in owner
    ensures id !in owner.Values
  {
    if id in owner.Values {
      var s :| s in owner && owner[s] == id;
      StoredBeyond(bits, table, owner, id, level, s);
    }
  }

  /** Putting an absent id into the first free slot of its path keeps the invariant. */
  lemma TakeSlot(bits: nat, table: Table, owner: map<Slot, PrefixId>, id: PrefixId, level: nat)
    requires ChainOk(bits, table, owner) && GoodId(bits, id) && level < |table[id.len]|
    requires TakenBefore(bits, table, owner, id, level) && SlotAt(bits, table, id, level) !in owner
    ensures ChainOk(bits, table, owner[SlotAt(bits, table, id, level) := id])
  {
    hide SlotOk, SlotAt, TakenBefore, GoodRow, TruncateToLen;
    var s := SlotAt(bits, table, id, level);
    var owner' := owner[s := id];
    FreeMeansAbsent(bits, table, owner, id, level);
    NewSlot(bits, table, owner, id, level);
    forall t | t in owner'
      ensures SlotOk(bits, table, owner', t)
    {
      if t != s { SlotStays(bits, table, owner, s, id, t); }
    }
    assert forall t :: t in owner ==> owner[t] in owner.Values;
  }

  lemma NewSlot(bits: nat, table: Table, owner: map<Slot, PrefixId>, id: PrefixId, level: nat)
    requires GoodTable(bits, table) && GoodId(bits, id) && level < |table[id.len]|
    requires TakenBefore(bits, table, owner, id, level)
    ensures SlotOk(bits, table, owner[SlotAt(bits, table, id, level) := id], SlotAt(bits, table, id, level))
  {
    hide HashId, TruncateToLen, GoodRow;
    PathPrefix(bits, table, id, level, level + 1);
    if level > 0 { assert SlotAt(bits, table, id, level - 1) in owner; }
  }

  lemma SlotStays(bits: nat, table: Table, owner: map<Slot, PrefixId>, s: Slot, id: PrefixId, t: Slot)
    requires GoodTable(bits, table) && t in owner && t != s && SlotOk(bits, table, owner, t)
    ensures SlotOk(bits, table, owner[s := id], t)
  {
    hide SlotAt, GoodTable, Canonical;
  }
}
