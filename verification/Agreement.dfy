/** The two stores, fed with the same inserts, give the same answers. */
module Agreement {
  import opened Wrappers
  import opened Bits
  import opened Af
  import opened Records
  import opened Chain
  import opened PrefixStores
  import LessAnswers
  import LessSpecifics
  import LocalVec
  import TreeState
  import TreeShape
  import LastNode

  ghost function IdOf<M>(r: Option<Record<M>>): Option<PrefixId> {
    if r.Some? then Some(r.value.id) else None
  }

  lemma SameId<M>(m: map<PrefixId, M>, r: Option<Record<M>>, r': Option<Record<M>>)
    requires r.Some? ==> IsStored(m, r.value)
    requires r'.Some? ==> IsStored(m, r'.value)
    requires IdOf(r) == IdOf(r')
    ensures r == r'
  {
  }

  /** No stored prefix of length 1 or more covers s. */
  ghost predicate NoCover<M>(bits: nat, m: map<PrefixId, M>, s: PrefixId)
    requires s.net < Pow2(bits)
  {
    forall q :: q in m && 1 <= q.len ==> !Covers(bits, q, s)
  }

  /** No stored prefix covers s, or one does that is longer than every level that is reached. */
  ghost predicate NoCoverOrPast<M>(bits: nat, strides: seq<nat>, m: map<PrefixId, M>, s: PrefixId)
    requires s.net < Pow2(bits) && LessAnswers.OffsetsWithin(bits, strides)
  {
    NoCover(bits, m, s) || CoverPastLevels(bits, strides, m, s)
  }

  lemma NoneIffNoCover<M>(bits: nat, m: map<PrefixId, M>, s: PrefixId, r: Option<PrefixId>)
    requires s.net < Pow2(bits) && IsLongestMatch(bits, m, s, r)
    ensures r.None? <==> NoCover(bits, m, s)
  {
  }

  /**
   * Every exact-match or longest-match query of length 1 or more gets the same prefix, metadata and
   * match type. An empty-match query does if and only if no stored prefix covers s, or one reaches past all levels.
   */
  method SameAnswers<M>(tree: LocalVec.TreeBitMap<M>, store: PrefixStore<M>, inserts: seq<Record<M>>,
                        s: PrefixId, matchType: MatchType)
    returns (fromTree: Option<Record<M>>, treeType: MatchType, fromStore: Option<Record<M>>, storeType: MatchType)
    requires tree.Valid() && tree.Contents() == map[] && |tree.nodes| == 1 && |tree.prefixes| == 0
    requires store.Valid() && store.Contents() == map[]
    requires tree.bits == store.bits && tree.merge == store.merge
    requires forall i :: 0 <= i < |inserts| ==> GoodId(store.bits, inserts[i].id)
    requires 1 + |tree.strides| * (|Run(inserts, tree.merge)| + 1) < 0x1_0000_0000
    requires GoodId(store.bits, s)
    modifies tree, store
    ensures !matchType.EmptyMatch? ==> fromTree == fromStore && treeType == storeType
    ensures LessAnswers.OffsetsWithin(store.bits, tree.strides)
    ensures matchType.EmptyMatch? ==>
      ((fromTree == fromStore && treeType == storeType) <==>
       NoCoverOrPast(store.bits, tree.strides, Run(inserts, store.merge), s))
    ensures !matchType.ExactMatch? ==> IsLongestMatch(store.bits, Run(inserts, store.merge), s, IdOf(fromStore))
    ensures fromStore.Some? ==> IsStored(Run(inserts, store.merge), fromStore.value)
  {
    hide IsLongestMatch, TruncateToLen, Prefixes, SlotsOk, TreeShape.Inv, TreeState.NodesSeen, TreeState.KeysMatch,
         LastNode.Live;
    LocalVec.InsertAll(tree, inserts);
    UpsertAll(store, inserts);
    ghost var m := Run(inserts, store.merge);
    var r := tree.MatchPrefix(s, matchType, false, false);
    fromTree, treeType := r.prefix, r.matchType;
    var less;
    fromStore, storeType, less := LessSpecifics.MatchPrefixByStoreDirect(store, s, matchType, false);
    if !matchType.ExactMatch? && (matchType.LongestMatch? || CoverPastLevels(store.bits, tree.strides, m, s)) {
      LongestMatchUnique(store.bits, m, s, IdOf(fromTree), IdOf(fromStore));
    }
    if !matchType.ExactMatch? { NoneIffNoCover(store.bits, m, s, IdOf(fromStore)); }
    if IdOf(fromTree) == IdOf(fromStore) { SameId(m, fromTree, fromStore); }
  }
}
