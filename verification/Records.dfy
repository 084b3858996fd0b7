/** Stored prefixes with their metadata, and what inserts and queries promise about them. */
module Records {
  import opened Wrappers
  import opened Bits
  import opened Af

  datatype Record<M> = Record(id: PrefixId, meta: M)

  // ----- Inserts ------------------------------------------------------------------

  /** One insert: a new prefix gets the metadata, a known one has it merged in. */
  function Upserted<M>(m: map<PrefixId, M>, rec: Record<M>, merge: (M, M) -> M): map<PrefixId, M> {
    m[rec.id := if rec.id in m then merge(m[rec.id], rec.meta) else rec.meta]
  }

  /** What a fresh store holds after a run of inserts. */
  function Run<M>(inserts: seq<Record<M>>, merge: (M, M) -> M): map<PrefixId, M> {
    if inserts == [] then map[]
    else Upserted(Run(inserts[..|inserts| - 1], merge), inserts[|inserts| - 1], merge)
  }

  /** The metadata inserted for one prefix, in order. */
  function MetasOf<M>(inserts: seq<Record<M>>, id: PrefixId): seq<M> {
    if inserts == [] then []
    else
      var last := inserts[|inserts| - 1];
      MetasOf(inserts[..|inserts| - 1], id) + if last.id == id then [last.meta] else []
  }

  /** The first value, with the later ones merged in one by one. */
  function Folded<M>(metas: seq<M>, merge: (M, M) -> M): M
    requires metas != []
  {
    if |metas| == 1 then metas[0]
    else merge(Folded(metas[..|metas| - 1], merge), metas[|metas| - 1])
  }

  lemma {:induction false} RunHas<M>(inserts: seq<Record<M>>, merge: (M, M) -> M, id: PrefixId)
    ensures id in Run(inserts, merge) <==> exists i :: 0 <= i < |inserts| && inserts[i].id == id
  {
    if inserts != [] {
      var rest, last := inserts[..|inserts| - 1], inserts[|inserts| - 1];
      RunHas(rest, merge, id);
      if last.id == id {
        assert inserts[|inserts| - 1].id == id;
      } else {
        assert forall i :: 0 <= i < |rest| ==> inserts[i] == rest[i];
      }
    }
  }

  /** A prefix is stored exactly if it was inserted, and its metadata is the fold of what was inserted for it. */
  lemma {:induction false} RunFolds<M>(inserts: seq<Record<M>>, merge: (M, M) -> M, id: PrefixId)
    ensures id in Run(inserts, merge) <==> exists i :: 0 <= i < |inserts| && inserts[i].id == id
    ensures id in Run(inserts, merge) <==> MetasOf(inserts, id) != []
    ensures id in Run(inserts, merge) ==> Run(inserts, merge)[id] == Folded(MetasOf(inserts, id), merge)
  {
    RunHas(inserts, merge, id);
    RunMetas(inserts, merge, id);
  }

  lemma {:induction false} RunMetas<M>(inserts: seq<Record<M>>, merge: (M, M) -> M, id: PrefixId)
    ensures id in Run(inserts, merge) <==> MetasOf(inserts, id) != []
    ensures id in Run(inserts, merge) ==> Run(inserts, merge)[id] == Folded(MetasOf(inserts, id), merge)
  {
    if inserts != [] {
      var rest, last := inserts[..|inserts| - 1], inserts[|inserts| - 1];
      RunMetas(rest, merge, id);
      if last.id == id {
        assert MetasOf(inserts, id)[..|MetasOf(rest, id)|] == MetasOf(rest, id);
      } else {
        assert MetasOf(inserts, id) == MetasOf(rest, id);
      }
    }
  }

  /** What is stored after some of the inserts is stored after all of them. */
  lemma {:induction false} RunGrows<M>(inserts: seq<Record<M>>, i: nat, merge: (M, M) -> M)
    requires i <= |inserts|
    ensures Run(inserts[..i], merge).Keys <= Run(inserts, merge).Keys
    ensures |Run(inserts[..i], merge)| <= |Run(inserts, merge)|
    decreases |inserts| - i
  {
    if i == |inserts| {
      assert inserts[..i] == inserts;
    } else {
      RunGrows(inserts, i + 1, merge);
      assert inserts[..i + 1][..i] == inserts[..i];
    }
    SubsetSize(Run(inserts[..i], merge).Keys, Run(inserts, merge).Keys);
    assert |Run(inserts[..i], merge)| == |Run(inserts[..i], merge).Keys|;
    assert |Run(inserts, merge)| == |Run(inserts, merge).Keys|;
  }

  /** One more insert adds a prefix if it was not stored yet. */
  lemma RunStep<M>(inserts: seq<Record<M>>, i: nat, merge: (M, M) -> M)
    requires i < |inserts|
    ensures Run(inserts[..i + 1], merge) == Upserted(Run(inserts[..i], merge), inserts[i], merge)
    ensures |Run(inserts[..i + 1], merge)| ==
      |Run(inserts[..i], merge)| + if inserts[i].id in Run(inserts[..i], merge) then 0 else 1
  {
    assert inserts[..i + 1][..i] == inserts[..i];
    var m, m' := Run(inserts[..i], merge), Run(inserts[..i + 1], merge);
    assert m'.Keys == m.Keys + {inserts[i].id};
    assert |m'| == |m'.Keys| && |m| == |m.Keys|;
  }

  lemma SubsetSize<T>(a: set<T>, b: set<T>)
    requires a <= b
    ensures |a| <= |b|
  {
    assert |b| == |a| + |b - a| by { assert b == a + (b - a); }
  }

  // ----- Queries --------------------------------------------------------------------

  datatype MatchType = ExactMatch | LongestMatch | EmptyMatch

  ghost function IdsOf<M>(recs: seq<Record<M>>): (ids: seq<PrefixId>)
    ensures |ids| == |recs| && forall i :: 0 <= i < |recs| ==> ids[i] == recs[i].id
  {
    seq(|recs|, i requires 0 <= i < |recs| => recs[i].id)
  }

  /** r is the longest stored prefix that covers s, the empty one left out; None if there is none. */
  ghost predicate IsLongestMatch<M>(bits: nat, m: map<PrefixId, M>, s: PrefixId, r: Option<PrefixId>)
    requires s.net < Pow2(bits)
  {
    && (r.Some? ==> r.value in m && 1 <= r.value.len && Covers(bits, r.value, s))
    && forall q :: q in m && 1 <= q.len && Covers(bits, q, s) ==> r.Some? && q.len <= r.value.len
  }

  /** There is only one longest match. */
  lemma LongestMatchUnique<M>(bits: nat, m: map<PrefixId, M>, s: PrefixId, r: Option<PrefixId>, r': Option<PrefixId>)
    requires s.net < Pow2(bits)
    requires IsLongestMatch(bits, m, s, r) && IsLongestMatch(bits, m, s, r')
    ensures r == r'
  {
    assert r.Some? ==> r'.Some?;
  }

  /** The stored prefixes strictly more specific than s. */
  ghost function MoreSpecifics<M>(bits: nat, m: map<PrefixId, M>, s: PrefixId): set<PrefixId> {
    set q | q in m && s.len < q.len && q.net < Pow2(bits) && Covers(bits, s, q)
  }

  /** The ids are those of the set, each once. */
  ghost predicate ListsExactly(ids: seq<PrefixId>, all: set<PrefixId>) {
    && (forall i, j :: 0 <= i < j < |ids| ==> ids[i] != ids[j])
    && forall q :: q in ids <==> q in all
  }

  /** Some stored prefix is longer than the first `level` strides and shares that many bits with s. */
  ghost predicate Reached<M>(bits: nat, strides: seq<nat>, m: map<PrefixId, M>, s: PrefixId, level: nat)
    requires s.net < Pow2(bits) && level <= |strides| && Offset(strides, level) <= bits
  {
    var off := Offset(strides, level);
    level == 0 || (off < s.len
      && exists q ::
        q in m && off < q.len && q.net < Pow2(bits)
        && TruncateToLen(bits, q.net, off) == TruncateToLen(bits, s.net, off))
  }

  /** A stored cover of s is longer than every level that is reached. */
  ghost predicate CoverPastLevels<M>(bits: nat, strides: seq<nat>, m: map<PrefixId, M>, s: PrefixId)
    requires s.net < Pow2(bits) && forall level :: 0 <= level <= |strides| ==> Offset(strides, level) <= bits
  {
    exists q :: q in m && 1 <= q.len && Covers(bits, q, s) &&
      forall level :: 0 < level < |strides| && Reached(bits, strides, m, s, level) ==> Offset(strides, level) < q.len
  }

  /** A stored record, as the map has it. */
  ghost predicate IsStored<M>(m: map<PrefixId, M>, rec: Record<M>) {
    rec.id in m && m[rec.id] == rec.meta
  }
}
