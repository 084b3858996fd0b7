/** Dense vectors indexed by the rank of a bit in a bitmap. */
module Rank {
  import opened Bits

  /** A sort key for the local vector and an index into a global one. */
  datatype NodeId = NodeId(sort: nat, part: nat)

  /** The global indices. */
  ghost function Parts(ids: seq<NodeId>): (p: seq<nat>)
    ensures |p| == |ids| && forall i :: 0 <= i < |ids| ==> p[i] == ids[i].part
  {
    seq(|ids|, i requires 0 <= i < |ids| => ids[i].part)
  }

  lemma PartsAppend(a: seq<NodeId>, b: seq<NodeId>)
    ensures Parts(a + b) == Parts(a) + Parts(b)
  {
  }

  predicate AtMost(a: NodeId, b: NodeId) {
    a.sort < b.sort || (a.sort == b.sort && a.part <= b.part)
  }

  /** Puts x behind all elements that are at most x. */
  function Insert(v: seq<NodeId>, x: NodeId): (r: seq<NodeId>)
    ensures |r| == |v| + 1
  {
    if v == [] then [x]
    else if AtMost(v[|v| - 1], x) then v + [x]
    else Insert(v[..|v| - 1], x) + [v[|v| - 1]]
  }

  /** The sorted vector. */
  function Sort(v: seq<NodeId>): (r: seq<NodeId>)
    ensures |r| == |v|
  {
    if v == [] then [] else Insert(Sort(v[..|v| - 1]), v[|v| - 1])
  }

  ghost predicate StrictlySorted(v: seq<NodeId>) {
    forall i, j :: 0 <= i < j < |v| ==> v[i].sort < v[j].sort
  }

  /** One entry per set bit, in bit order, and the entry's sort key names the bit. */
  ghost predicate Dense(bits: seq<bool>, v: seq<NodeId>, base: nat) {
    && |v| == Count(bits)
    && forall p {:trigger bits[p]} :: 0 <= p < |bits| && bits[p] ==>
         Count(bits[..p]) < |v| && v[Count(bits[..p])].sort == base + p
  }

  /** The entry of a set bit. */
  function Entry(bits: seq<bool>, v: seq<NodeId>, p: nat): NodeId
    requires p < |bits| && Count(bits[..p]) < |v|
  {
    v[Count(bits[..p])]
  }

  // ----- Sorting ---------------------------------------------------------------

  lemma {:induction false} InsertBetween(v: seq<NodeId>, x: NodeId, r: nat)
    requires r <= |v|
    requires forall i :: 0 <= i < r ==> v[i].sort < x.sort
    requires forall i :: r <= i < |v| ==> v[i].sort > x.sort
    ensures Insert(v, x) == v[..r] + [x] + v[r..]
  {
    if r == |v| {
      assert v[..r] == v;
    } else {
      var t := v[..|v| - 1];
      InsertBetween(t, x, r);
      assert v[..r] + [x] + v[r..] == (t[..r] + [x] + t[r..]) + [v[|v| - 1]];
    }
  }

  lemma {:induction false} SortSorted(v: seq<NodeId>)
    requires StrictlySorted(v)
    ensures Sort(v) == v
  {
    if v != [] {
      var t := v[..|v| - 1];
      SortSorted(t);
      InsertBetween(t, v[|v| - 1], |t|);
      assert v == t + [v[|v| - 1]];
    }
  }

  // ----- Rank and select ----------------------------------------------------------

  /** The bit with a given rank. */
  ghost function Select(bits: seq<bool>, i: nat): (p: nat)
    requires i < Count(bits)
    ensures p < |bits| && bits[p] && Count(bits[..p]) == i
  {
    var t := bits[..|bits| - 1];
    if i < Count(t) then
      var p := Select(t, i);
      assert t[..p] == bits[..p];
      p
    else
      |bits| - 1
  }

  lemma RankOrder(bits: seq<bool>, p: nat, q: nat)
    requires p < |bits| && q < |bits| && bits[p]
    ensures p < q ==> Count(bits[..p]) < Count(bits[..q])
    ensures q <= p ==> Count(bits[..q]) <= Count(bits[..p])
    ensures Count(bits[..p]) < Count(bits)
  {
    CountMono(bits, p, |bits|);
    assert bits[..|bits|] == bits;
    if p < q { CountMono(bits, p, q); } else { CountMono(bits, q, p); }
  }

  lemma SelectOrder(bits: seq<bool>, i: nat, q: nat)
    requires i < Count(bits) && q < |bits|
    ensures i < Count(bits[..q]) ==> Select(bits, i) < q
    ensures i >= Count(bits[..q]) ==> Select(bits, i) >= q
  {
    RankOrder(bits, Select(bits, i), q);
  }

  lemma SelectRank(bits: seq<bool>, p: nat)
    requires p < |bits| && bits[p]
    ensures Count(bits[..p]) < Count(bits)
    ensures Select(bits, Count(bits[..p])) == p
  {
    RankOrder(bits, p, p);
    var q := Select(bits, Count(bits[..p]));
    RankOrder(bits, p, q);
    RankOrder(bits, q, p);
  }

  /** Every entry of a dense vector belongs to a set bit. */
  lemma DenseSelect(bits: seq<bool>, v: seq<NodeId>, base: nat, i: nat)
    requires Dense(bits, v, base) && i < |v|
    ensures v[i].sort == base + Select(bits, i)
  {
    var p := Select(bits, i);
    assert bits[p];
  }

  lemma DenseIsSorted(bits: seq<bool>, v: seq<NodeId>, base: nat)
    requires Dense(bits, v, base)
    ensures StrictlySorted(v)
  {
    forall i, j | 0 <= i < j < |v|
      ensures v[i].sort < v[j].sort
    {
      DenseSelect(bits, v, base, i);
      DenseSelect(bits, v, base, j);
      RankOrder(bits, Select(bits, j), Select(bits, i));
    }
  }

  lemma DenseAround(bits: seq<bool>, v: seq<NodeId>, base: nat, p: nat, i: nat)
    requires Dense(bits, v, base) && p < |bits| && !bits[p] && i < |v|
    ensures i < Count(bits[..p]) ==> v[i].sort < base + p
    ensures i >= Count(bits[..p]) ==> v[i].sort > base + p
  {
    DenseSelect(bits, v, base, i);
    SelectOrder(bits, i, p);
  }

  lemma SortPush(v: seq<NodeId>, x: NodeId, r: nat)
    requires StrictlySorted(v) && r <= |v|
    requires forall i :: 0 <= i < r ==> v[i].sort < x.sort
    requires forall i :: r <= i < |v| ==> v[i].sort > x.sort
    ensures Sort(v + [x]) == v[..r] + [x] + v[r..]
  {
    hide StrictlySorted, Insert;
    SortSorted(v);
    assert (v + [x])[..|v|] == v;
    InsertBetween(v, x, r);
  }

  lemma DenseSize(bits: seq<bool>, v: seq<NodeId>, base: nat, p: nat)
    requires Dense(bits, v, base) && p <= |bits|
    ensures Count(bits[..p]) <= |v|
  {
    hide Count;
    CountMono(bits, p, |bits|);
    assert bits[..|bits|] == bits;
  }

  /** Pushing the entry of a newly set bit and sorting puts it at the bit's rank. */
  lemma PushAndSort(bits: seq<bool>, v: seq<NodeId>, base: nat, p: nat, x: NodeId)
    requires Dense(bits, v, base) && p < |bits| && !bits[p] && x.sort == base + p
    ensures Count(bits[..p]) <= |v|
    ensures Sort(v + [x]) == v[..Count(bits[..p])] + [x] + v[Count(bits[..p])..]
  {
    hide Count, Sort, Dense, StrictlySorted;
    var r := Count(bits[..p]);
    DenseSize(bits, v, base, p);
    DenseIsSorted(bits, v, base);
    forall i | 0 <= i < |v|
      ensures i < r ==> v[i].sort < x.sort
      ensures i >= r ==> v[i].sort > x.sort
    {
      DenseAround(bits, v, base, p, i);
    }
    SortPush(v, x, r);
  }

  lemma EntryAfterSet(bits: seq<bool>, v: seq<NodeId>, base: nat, p: nat, x: NodeId, q: nat)
    requires Dense(bits, v, base) && p < |bits| && !bits[p] && x.sort == base + p
    requires q < |bits| && (bits[q] || q == p)
    ensures Count(bits[p := true][..q]) < |v| + 1
    ensures Entry(bits[p := true], Sort(v + [x]), q) == if q == p then x else Entry(bits, v, q)
    ensures q != p ==> Count(bits[..q]) < |v|
  {
    hide Count, Sort, Dense;
    var r := Count(bits[..p]);
    PushAndSort(bits, v, base, p, x);
    CountSet(bits, p, q);
    if q != p {
      DenseAt(bits, v, base, q);
      RankOrder(bits, q, p);
      Between(v, x, r, Count(bits[..q]));
    }
  }

  lemma DenseAt(bits: seq<bool>, v: seq<NodeId>, base: nat, q: nat)
    requires Dense(bits, v, base) && q < |bits| && bits[q]
    ensures Count(bits[..q]) < |v|
  {
    hide Count;
  }

  lemma Between(v: seq<NodeId>, x: NodeId, r: nat, i: nat)
    requires r <= |v| && i < |v|
    ensures (v[..r] + [x] + v[r..])[if i < r then i else i + 1] == v[i]
  {
  }

  /** Setting a bit together with its entry keeps a vector dense and moves no other entry. */
  lemma SetKeepsDense(bits: seq<bool>, v: seq<NodeId>, base: nat, p: nat, x: NodeId)
    requires Dense(bits, v, base) && p < |bits| && !bits[p] && x.sort == base + p
    ensures Dense(bits[p := true], Sort(v + [x]), base)
    ensures forall q {:trigger bits[p := true][q]} :: 0 <= q < |bits| && bits[p := true][q] ==>
      Entry(bits[p := true], Sort(v + [x]), q) == if q == p then x else Entry(bits, v, q)
  {
    var bits', v' := bits[p := true], Sort(v + [x]);
    CountSet(bits, p, |bits|);
    assert bits[..|bits|] == bits && bits'[..|bits|] == bits';
    forall q | 0 <= q < |bits| && bits'[q]
      ensures Count(bits'[..q]) < |v'| && v'[Count(bits'[..q])].sort == base + q
      ensures q != p ==> Count(bits[..q]) < |v|
      ensures Entry(bits', v', q) == if q == p then x else Entry(bits, v, q)
    {
      EntryAfterSet(bits, v, base, p, x, q);
    }
  }

  lemma EmptyIsDense(n: nat, base: nat)
    ensures Dense(Zeros(n), [], base)
  {
    CountZeros(n);
  }
}
