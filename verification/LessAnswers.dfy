/** The less specifics that the tree answers with, in terms of the stored map. */
module LessAnswers {
  import opened Wrappers
  import opened Bits
  import opened Af
  import opened Rank
  import opened Records
  import opened Nodes
  import opened TreeShape
  import opened TreeState
  import opened Below
  import opened LastNode
  import opened Answers
  import opened Collected

  ghost predicate OffsetsWithin(bits: nat, strides: seq<nat>) {
    forall level :: 0 <= level <= |strides| ==> Offset(strides, level) <= bits
  }

  // ----- The end of a search -----------------------------------------------------------------------------

  /** The bits of s that are looked at down to a level. */
  function EndOf(strides: seq<nat>, s: PrefixId, level: nat): (e: nat)
    requires level < |strides|
    ensures e <= s.len
  {
    if Offset(strides, level + 1) <= s.len then Offset(strides, level + 1) else s.len
  }

  /** The deepest level, from the given one upwards, that the stored prefixes reach in the direction of s. */
  ghost function DeepestReached<M>(bits: nat, strides: seq<nat>, m: map<PrefixId, M>, s: PrefixId, level: nat): (d: nat)
    requires s.net < Pow2(bits) && OffsetsWithin(bits, strides) && level <= |strides|
    ensures d <= level && Reached(bits, strides, m, s, d)
    ensures forall e :: d < e <= level ==> !Reached(bits, strides, m, s, e)
  {
    if level == 0 || Reached(bits, strides, m, s, level) then level
    else DeepestReached(bits, strides, m, s, level - 1)
  }

  /** The bits of s that a search looks at. */
  ghost function SearchEnd<M>(bits: nat, strides: seq<nat>, m: map<PrefixId, M>, s: PrefixId): (e: nat)
    requires s.net < Pow2(bits) && OffsetsWithin(bits, strides) && |strides| > 0
    ensures e <= s.len
  {
    EndOf(strides, s, DeepestReached(bits, strides, m, s, |strides| - 1))
  }

  /** The deepest level reached is that of the node where the search stops. */
  lemma StopIsDeepest<M>(bits: nat, prefixes: seq<Record<M>>, t: Trie, s: PrefixId, i: nat, level: nat, len: nat)
    requires Inv(t) && Live(t) && KeysMatch(bits, prefixes, t.keys) && DistinctIds(prefixes)
    requires s.len <= bits && Canonical(bits, s) && OffsetsWithin(bits, t.strides)
    requires StopsAt(t, i, level, Key(bits, s), len)
    ensures |t.strides| > 0 && DeepestReached(bits, t.strides, AsMap(prefixes), s, |t.strides| - 1) == level
    ensures SearchEnd(bits, t.strides, AsMap(prefixes), s) == Offset(t.strides, level) + len
  {
    hide Inv, Key, TruncateToLen, Reached, Live, StopsAt;
    var d := |t.strides| - 1;
    StopWithin(t, i, level, Key(bits, s), len);
    var m := AsMap(prefixes);
    forall e | 0 <= e < |t.strides|
      ensures Reached(bits, t.strides, m, s, e) <==> e <= level
    {
      ReachedAsKeys(bits, t.strides, prefixes, t.keys, s, e);
      LevelsReached(t, i, level, Key(bits, s), len, e);
    }
    assert Reached(bits, t.strides, m, s, level) && DeepestReached(bits, t.strides, m, s, d) <= level;
  }

  /** The prefix that ends where the search ends, if it is stored; nothing is looked at for length 0. */
  ghost function StoredAtEnd<M>(bits: nat, strides: seq<nat>, m: map<PrefixId, M>, s: PrefixId): Option<PrefixId>
    requires s.net < Pow2(bits) && s.len <= bits && OffsetsWithin(bits, strides) && |strides| > 0
  {
    var e := SearchEnd(bits, strides, m, s);
    if e > 0 && Cleaned(bits, s.net, e) in m then Some(Cleaned(bits, s.net, e)) else None
  }

  /** The first bits of a prefix are a stored key exactly if the shortened prefix is stored. */
  lemma ShortenedStored<M>(bits: nat, prefixes: seq<Record<M>>, keys: seq<seq<bool>>, s: PrefixId, e: nat)
    requires KeysMatch(bits, prefixes, keys) && DistinctIds(prefixes) && e <= s.len <= bits && Canonical(bits, s)
    ensures Cleaned(bits, s.net, e) in AsMap(prefixes) <==> Key(bits, s)[..e] in keys
    ensures forall r :: 0 <= r < |keys| && keys[r] == Key(bits, s)[..e] ==> prefixes[r].id == Cleaned(bits, s.net, e)
  {
    hide TruncateToLen;
    TruncateIsKeyPrefix(bits, s.net, e);
    assert Key(bits, Cleaned(bits, s.net, e)) == Key(bits, s)[..e];
    KeyOfRecord(bits, prefixes, keys, Cleaned(bits, s.net, e));
  }

  lemma EndAsMap<M>(bits: nat, prefixes: seq<Record<M>>, t: Trie, s: PrefixId, idx: Option<nat>)
    requires Inv(t) && Live(t) && KeysMatch(bits, prefixes, t.keys) && DistinctIds(prefixes)
    requires s.len <= bits && Canonical(bits, s) && OffsetsWithin(bits, t.strides)
      && bits == Offset(t.strides, |t.strides|)
    requires FoundAtEnd(t, Key(bits, s), idx)
    ensures |t.strides| > 0 && (idx.Some? ==> idx.value < |prefixes|)
    ensures StoredAtEnd(bits, t.strides, AsMap(prefixes), s) == if idx.Some? then Some(prefixes[idx.value].id) else None
  {
    hide Inv, Key, TruncateToLen, Reached, Live, StopsAt, SearchEnd, KeysMatch;
    var k := Key(bits, s);
    RootOnPath(t, k);
    var i, level, len := FindStop(t, 0, 0, k);
    StopIsDeepest(bits, prefixes, t, s, i, level, len);
    StopWithin(t, i, level, k, len);
    RecordPerKey(bits, prefixes, t.keys);
    EmptyEnd(t, i, level, k, len);
    if len > 0 { ShortenedStored(bits, prefixes, t.keys, s, Offset(t.strides, level) + len); }
  }

  lemma RecordPerKey<M>(bits: nat, prefixes: seq<Record<M>>, keys: seq<seq<bool>>)
    requires KeysMatch(bits, prefixes, keys)
    ensures |prefixes| == |keys|
  {
  }

  lemma EmptyEnd(t: Trie, i: nat, level: nat, k: seq<bool>, len: nat)
    requires Inv(t) && StopsAt(t, i, level, k, len)
    ensures len > 0 <==> Offset(t.strides, level) + len > 0
  {
    StopPath(t, i, level, k, len);
    assert Offset(t.strides, 0) == 0;
  }

  // ----- What is listed -----------------------------------------------------------------------------------

  /** A longest- or empty-match search lists q if the child that is looked at for it is there. */
  ghost predicate LooksOnward<M>(bits: nat, strides: seq<nat>, m: map<PrefixId, M>, s: PrefixId, q: PrefixId)
    requires s.len <= bits
  {
    exists level :: 0 <= level < |strides| && LooksOnwardAt(bits, strides, m, s, q, level)
  }

  ghost predicate LooksOnwardAt<M>(bits: nat, strides: seq<nat>, m: map<PrefixId, M>, s: PrefixId, q: PrefixId,
                                   level: nat)
    requires s.len <= bits && level < |strides|
  {
    && WithinLevel(strides, q, level) && Offset(strides, level + 1) < s.len
    && SomeBeyond(bits, m, ChildLookedAt(bits, strides, s, q, level))
  }

  predicate WithinLevel(strides: seq<nat>, q: PrefixId, level: nat)
    requires level < |strides|
  {
    Offset(strides, level) < q.len <= Offset(strides, level + 1)
  }

  /** The bits of the child that is looked at for q: those of q's node, and q's last nibble read as a full one. */
  function ChildLookedAt(bits: nat, strides: seq<nat>, s: PrefixId, q: PrefixId, level: nat): seq<bool>
    requires s.len <= bits && level < |strides| && WithinLevel(strides, q, level) && Offset(strides, level + 1) < s.len
  {
    var k, start := Key(bits, s), Offset(strides, level);
    k[..start] + Misread(k, start, q.len - start, Offset(strides, level + 1) - start)
  }

  ghost predicate SomeBeyond<M>(bits: nat, m: map<PrefixId, M>, b: seq<bool>) {
    exists x :: x in m && x.len <= bits && b < Key(bits, x)
  }

  /** An exact-match search lists q if the prefixes of s that end where the levels from q on end are all stored. */
  ghost predicate EndsStored<M>(bits: nat, strides: seq<nat>, m: map<PrefixId, M>, s: PrefixId, q: PrefixId)
    requires s.net < Pow2(bits) && s.len <= bits && OffsetsWithin(bits, strides)
  {
    forall level ::
      0 <= level < |strides| && Reached(bits, strides, m, s, level) && q.len <= EndOf(strides, s, level) ==>
      Cleaned(bits, s.net, EndOf(strides, s, level)) in m
  }

  /** The covers of s that an answer lists as less specific. */
  ghost predicate IsListed<M>(bits: nat, strides: seq<nat>, m: map<PrefixId, M>, s: PrefixId, matchType: MatchType,
                              q: PrefixId)
    requires s.net < Pow2(bits) && s.len <= bits && OffsetsWithin(bits, strides)
  {
    && q in m && 1 <= q.len && Covers(bits, q, s)
    && if matchType.ExactMatch? then EndsStored(bits, strides, m, s, q) else LooksOnward(bits, strides, m, s, q)
  }

  /** The records come in increasing length, and are exactly the listed covers. */
  ghost predicate MatchesLess<M>(bits: nat, strides: seq<nat>, m: map<PrefixId, M>, s: PrefixId, matchType: MatchType,
                                 less: seq<Record<M>>)
    requires s.net < Pow2(bits) && s.len <= bits && OffsetsWithin(bits, strides)
  {
    && (forall i :: 0 <= i < |less| ==> IsStored(m, less[i]))
    && (forall i, j :: 0 <= i < j < |less| ==> less[i].id.len < less[j].id.len)
    && forall q :: q in IdsOf(less) <==> IsListed(bits, strides, m, s, matchType, q)
  }

  /** What is collected, as indices. */
  ghost predicate CollectedLess(t: Trie, k: seq<bool>, matchType: MatchType, ids: seq<NodeId>)
    requires Inv(t)
  {
    if matchType.ExactMatch? then KeptAll(t, k, Parts(ids)) else LessSoFar(t, k, |k|, Parts(ids))
  }

  lemma KeptAsMap<M>(bits: nat, prefixes: seq<Record<M>>, t: Trie, s: PrefixId, r: nat)
    requires KeysMatch(bits, prefixes, t.keys) && DistinctIds(prefixes) && r < |prefixes|
    requires s.len <= bits && Canonical(bits, s) && OffsetsWithin(bits, t.strides)
    ensures KeptReached(t, Key(bits, s), |t.keys[r]|) <==>
      EndsStored(bits, t.strides, AsMap(prefixes), s, prefixes[r].id)
  {
    hide Key, TruncateToLen, Reached, Reaches;
    assert |t.keys[r]| == prefixes[r].id.len;
    forall e | 0 <= e < |t.strides|
      ensures Reached(bits, t.strides, AsMap(prefixes), s, e) <==> Reaches(t.strides, t.keys, Key(bits, s), e)
      ensures EndAt(t.strides, Key(bits, s), e) == EndOf(t.strides, s, e)
      ensures Cleaned(bits, s.net, EndOf(t.strides, s, e)) in AsMap(prefixes) <==>
        Key(bits, s)[..EndAt(t.strides, Key(bits, s), e)] in t.keys
    {
      ReachedAsKeys(bits, t.strides, prefixes, t.keys, s, e);
      ShortenedStored(bits, prefixes, t.keys, s, EndOf(t.strides, s, e));
    }
  }

  /** A node has a child exactly if something is stored beyond that child. */
  lemma ChildIffBeyond(t: Trie, h: nat, b: seq<bool>)
    requires Inv(t) && Live(t) && h < |t.views| && |b| == t.views[h].stride
    ensures |t.places| == |t.views|
    ensures b in t.views[h].kids <==> exists x :: 0 <= x < |t.keys| && t.places[h].path + b < t.keys[x]
  {
    if b in t.views[h].kids {
      assert KidsOk(t, h);
      var c := t.views[h].kids[b];
      assert Alive(t, c);
    }
    if x :| 0 <= x < |t.keys| && t.places[h].path + b < t.keys[x] {
      if b !in t.views[h].kids { NothingBelow(t, h, b, x); }
    }
  }

  lemma BeyondAsMap<M>(bits: nat, prefixes: seq<Record<M>>, keys: seq<seq<bool>>, b: seq<bool>)
    requires KeysMatch(bits, prefixes, keys) && DistinctIds(prefixes)
    ensures SomeBeyond(bits, AsMap(prefixes), b) <==> exists x :: 0 <= x < |keys| && b < keys[x]
  {
    hide Key, TruncateToLen;
    if SomeBeyond(bits, AsMap(prefixes), b) {
      var id :| id in AsMap(prefixes) && id.len <= bits && b < Key(bits, id);
      var x :| 0 <= x < |prefixes| && prefixes[x].id == id;
      assert b < keys[x];
    }
    if x :| 0 <= x < |keys| && b < keys[x] {
      assert prefixes[x].id in AsMap(prefixes);
    }
  }

  /** The level of a prefix is that of its hosting node. */
  lemma HostLevel(t: Trie, r: nat, level: nat)
    requires Inv(t) && r < |t.keys| && |t.keys[r]| > 0
    requires level < |t.strides| && Offset(t.strides, level) < |t.keys[r]| <= Offset(t.strides, level + 1)
    ensures t.hosts[r] < |t.views| && t.places[t.hosts[r]].depth == level
  {
    HostHosts(t, r);
    var h := t.hosts[r];
    assert PlaceOk(t, h);
    var d := t.places[h].depth;
    assert Offset(t.strides, d + 1) == Offset(t.strides, d) + t.strides[d];
    if d < level { OffsetMono(t.strides, d + 1, level); }
    if level < d { OffsetMono(t.strides, level + 1, d); }
  }

  lemma HostPlace(t: Trie, r: nat)
    requires Inv(t) && r < |t.keys| && |t.keys[r]| > 0
    ensures |t.hosts| == |t.keys| && t.hosts[r] < |t.views| == |t.places|
    ensures var h := t.hosts[r];
      var d := t.places[h].depth;
      && d < |t.strides| && t.views[h].stride == t.strides[d] && |t.places[h].path| == Offset(t.strides, d)
      && Offset(t.strides, d) < |t.keys[r]| <= Offset(t.strides, d + 1) == Offset(t.strides, d) + t.strides[d]
      && t.places[h].path <= t.keys[r]
  {
    HostHosts(t, r);
    assert PlaceOk(t, t.hosts[r]);
  }

  /** Looking at the child, in the trie and in the map. */
  lemma PointedAsMap<M>(bits: nat, prefixes: seq<Record<M>>, t: Trie, s: PrefixId, r: nat)
    requires Inv(t) && Live(t) && KeysMatch(bits, prefixes, t.keys) && DistinctIds(prefixes) && r < |prefixes|
    requires s.len <= bits && Canonical(bits, s)
    requires t.keys[r] <= Key(bits, s) && |t.keys[r]| > 0
    ensures Pointed(t, Key(bits, s), r) <==> LooksOnward(bits, t.strides, AsMap(prefixes), s, prefixes[r].id)
  {
    hide Inv, Live, Key, TruncateToLen, SomeBeyond, Misread, Canonical;
    var k, q := Key(bits, s), prefixes[r].id;
    assert |t.keys[r]| == q.len;
    HostPlace(t, r);
    var h := t.hosts[r];
    var d := t.places[h].depth;
    forall level | 0 <= level < |t.strides| && WithinLevel(t.strides, q, level)
      ensures level == d
    {
      HostLevel(t, r, level);
    }
    if Offset(t.strides, d + 1) < s.len {
      var b := Misread(k, Offset(t.strides, d), q.len - Offset(t.strides, d), t.strides[d]);
      ChildIffBeyond(t, h, b);
      SharedPath(t.places[h].path, t.keys[r], k);
      assert t.places[h].path + b == ChildLookedAt(bits, t.strides, s, q, d);
      BeyondAsMap(bits, prefixes, t.keys, t.places[h].path + b);
    }
    assert Pointed(t, k, r) <==> LooksOnwardAt(bits, t.strides, AsMap(prefixes), s, q, d);
  }

  lemma SharedPath(path: seq<bool>, key: seq<bool>, k: seq<bool>)
    requires path <= key <= k
    ensures path == k[..|path|]
  {
  }

  lemma ListedAsMap<M>(bits: nat, prefixes: seq<Record<M>>, t: Trie, s: PrefixId, matchType: MatchType,
                       ids: seq<NodeId>, r: nat)
    requires Inv(t) && Live(t) && KeysMatch(bits, prefixes, t.keys) && DistinctIds(prefixes) && r < |prefixes|
    requires s.len <= bits && Canonical(bits, s) && OffsetsWithin(bits, t.strides)
    requires CollectedLess(t, Key(bits, s), matchType, ids)
    ensures r in Parts(ids) <==> IsListed(bits, t.strides, AsMap(prefixes), s, matchType, prefixes[r].id)
  {
    hide Inv, Live, Key, TruncateToLen, LooksOnward, EndsStored, Pointed, KeptReached, Covers, Ascending;
    CoverAsKey(bits, prefixes, t.keys, s, r);
    assert prefixes[r].id in AsMap(prefixes);
    if matchType.ExactMatch? {
      KeptAsMap(bits, prefixes, t, s, r);
    } else if Candidate(t.keys, Key(bits, s), s.len, r) {
      PointedAsMap(bits, prefixes, t, s, r);
    }
  }

  lemma CollectedInRange<M>(bits: nat, prefixes: seq<Record<M>>, t: Trie, s: PrefixId, matchType: MatchType,
                            ids: seq<NodeId>)
    requires Inv(t) && KeysMatch(bits, prefixes, t.keys) && s.len <= bits
    requires CollectedLess(t, Key(bits, s), matchType, ids)
    ensures forall i :: 0 <= i < |ids| ==> ids[i].part < |prefixes|
    ensures forall i, j :: 0 <= i < j < |ids| ==> prefixes[ids[i].part].id.len < prefixes[ids[j].part].id.len
  {
    hide Inv, Key, Candidate, Pointed, KeptReached;
    assert Ascending(t.keys, Parts(ids));
    forall i | 0 <= i < |ids|
      ensures ids[i].part < |prefixes| && |t.keys[ids[i].part]| == prefixes[ids[i].part].id.len
    {
      assert Parts(ids)[i] == ids[i].part;
    }
    forall i, j | 0 <= i < j < |ids|
      ensures prefixes[ids[i].part].id.len < prefixes[ids[j].part].id.len
    {
      assert Parts(ids)[i] == ids[i].part && Parts(ids)[j] == ids[j].part;
    }
  }

  /** The indices collected lead to the listed covers, in increasing length. */
  lemma LessAnswered<M>(bits: nat, prefixes: seq<Record<M>>, t: Trie, s: PrefixId, matchType: MatchType,
                        ids: seq<NodeId>)
    requires Inv(t) && Live(t) && KeysMatch(bits, prefixes, t.keys) && DistinctIds(prefixes)
    requires s.len <= bits && Canonical(bits, s) && OffsetsWithin(bits, t.strides)
    requires CollectedLess(t, Key(bits, s), matchType, ids)
    ensures forall i :: 0 <= i < |ids| ==> ids[i].part < |prefixes|
    ensures MatchesLess(bits, t.strides, AsMap(prefixes), s, matchType, Fetch(prefixes, ids))
  {
    hide Inv, Live, Key, TruncateToLen, KeysMatch, CollectedLess, IsListed;
    CollectedInRange(bits, prefixes, t, s, matchType, ids);
    var m, less := AsMap(prefixes), Fetch(prefixes, ids);
    forall q
      ensures q in IdsOf(less) <==> IsListed(bits, t.strides, m, s, matchType, q)
    {
      ListedIffFetched(bits, prefixes, t, s, matchType, ids, q);
    }
  }

  lemma ListedIffFetched<M>(bits: nat, prefixes: seq<Record<M>>, t: Trie, s: PrefixId, matchType: MatchType,
                            ids: seq<NodeId>, q: PrefixId)
    requires Inv(t) && Live(t) && KeysMatch(bits, prefixes, t.keys) && DistinctIds(prefixes)
    requires s.len <= bits && Canonical(bits, s) && OffsetsWithin(bits, t.strides)
    requires CollectedLess(t, Key(bits, s), matchType, ids)
    requires forall i :: 0 <= i < |ids| ==> ids[i].part < |prefixes|
    ensures q in IdsOf(Fetch(prefixes, ids)) <==> IsListed(bits, t.strides, AsMap(prefixes), s, matchType, q)
  {
    hide Inv, Live, Key, TruncateToLen, KeysMatch, CollectedLess, LooksOnward, EndsStored, Covers;
    var out := IdsOf(Fetch(prefixes, ids));
    if q in out {
      var i :| 0 <= i < |ids| && out[i] == q;
      ListedAsMap(bits, prefixes, t, s, matchType, ids, ids[i].part);
      assert Parts(ids)[i] in Parts(ids);
    }
    if IsListed(bits, t.strides, AsMap(prefixes), s, matchType, q) {
      var r :| 0 <= r < |prefixes| && prefixes[r].id == q;
      ListedAsMap(bits, prefixes, t, s, matchType, ids, r);
      var i :| 0 <= i < |ids| && Parts(ids)[i] == r;
      assert out[i] == q;
    }
  }

  // ----- When the answers are what was asked for -------------------------------------------------------------

  /** The stored prefixes strictly less specific than s, the empty one left out. */
  ghost function LessSpecifics<M>(bits: nat, m: map<PrefixId, M>, s: PrefixId): set<PrefixId>
    requires s.net < Pow2(bits)
  {
    set q | q in m && 1 <= q.len < s.len && Covers(bits, q, s)
  }

  /**
   * What a longest- or empty-match search lists is all less specifics if and only if it looks onward at each of them;
   * never is the prefix searched for among them.
   */
  lemma LongestLessIff<M>(bits: nat, strides: seq<nat>, m: map<PrefixId, M>, s: PrefixId, matchType: MatchType,
                          less: seq<Record<M>>)
    requires s.net < Pow2(bits) && s.len <= bits && OffsetsWithin(bits, strides)
    requires !matchType.ExactMatch? && MatchesLess(bits, strides, m, s, matchType, less)
    ensures ListsExactly(IdsOf(less), LessSpecifics(bits, m, s)) <==>
      forall q :: q in LessSpecifics(bits, m, s) ==> LooksOnward(bits, strides, m, s, q)
  {
    hide LooksOnward, LessSpecifics, IsListed, IsStored, OffsetsWithin;
    var ids, all := IdsOf(less), LessSpecifics(bits, m, s);
    assert forall i, j :: 0 <= i < j < |ids| ==> ids[i] != ids[j];
    forall q
      ensures IsListed(bits, strides, m, s, matchType, q) <==> q in all && LooksOnward(bits, strides, m, s, q)
    {
      ListedLess(bits, strides, m, s, matchType, q);
    }
  }

  lemma ListedLess<M>(bits: nat, strides: seq<nat>, m: map<PrefixId, M>, s: PrefixId, matchType: MatchType, q: PrefixId)
    requires s.net < Pow2(bits) && s.len <= bits && OffsetsWithin(bits, strides) && !matchType.ExactMatch?
    ensures IsListed(bits, strides, m, s, matchType, q) <==>
      q in LessSpecifics(bits, m, s) && LooksOnward(bits, strides, m, s, q)
  {
    hide Covers, SomeBeyond, ChildLookedAt, Key;
    if LooksOnward(bits, strides, m, s, q) {
      var level :| 0 <= level < |strides| && LooksOnwardAt(bits, strides, m, s, q, level);
    }
  }

  /**
   * What an exact-match search lists is the prefix and all less specifics if and only if it is stored, not empty,
   * and with every less specific all prefixes of s that end where a level does from there on.
   */
  lemma ExactLessIff<M>(bits: nat, strides: seq<nat>, m: map<PrefixId, M>, s: PrefixId, less: seq<Record<M>>)
    requires s.len <= bits && Canonical(bits, s) && OffsetsWithin(bits, strides)
    requires MatchesLess(bits, strides, m, s, ExactMatch, less)
    ensures ListsExactly(IdsOf(less), LessSpecifics(bits, m, s) + {s}) <==>
      s in m && s.len > 0 && forall q :: q in LessSpecifics(bits, m, s) ==> EndsStored(bits, strides, m, s, q)
  {
    hide IsStored, TruncateToLen, Reached;
    var ids, all := IdsOf(less), LessSpecifics(bits, m, s) + {s};
    assert forall i, j :: 0 <= i < j < |ids| ==> ids[i] != ids[j];
    assert Covers(bits, s, s);
    forall q | q in m && Covers(bits, q, s) && q.len == s.len
      ensures q == s
    {
    }
    if s in m && s.len > 0 { assert EndsStored(bits, strides, m, s, s); }
  }

  /**
   * An exact-match search that collects less specifics answers with the prefix searched for, if it is stored, and with
   * nothing otherwise, if and only if: s is not the stored empty prefix, and when the search ends before all of s is
   * looked at, the prefix that ends there is not stored.
   */
  lemma ExactReportIff<M>(bits: nat, strides: seq<nat>, m: map<PrefixId, M>, s: PrefixId)
    requires AcceptedStrides(bits, strides) && OffsetsWithin(bits, strides) && s.len <= bits && Canonical(bits, s)
    ensures |strides| > 0
    ensures StoredAtEnd(bits, strides, m, s) == (if s in m then Some(s) else None) <==>
      && (s.len == 0 ==> s !in m)
      && (SearchEnd(bits, strides, m, s) < s.len ==> Cleaned(bits, s.net, SearchEnd(bits, strides, m, s)) !in m)
  {
    hide TruncateToLen, Reached, DeepestReached;
    AcceptedIsGood(bits, strides);
    var d := DeepestReached(bits, strides, m, s, |strides| - 1);
    OffsetMono(strides, 0, d + 1);
    if s in m && SearchEnd(bits, strides, m, s) < s.len { StoredReaches(bits, strides, m, s, d + 1); }
  }

  lemma StoredReaches<M>(bits: nat, strides: seq<nat>, m: map<PrefixId, M>, s: PrefixId, level: nat)
    requires Canonical(bits, s) && OffsetsWithin(bits, strides) && level <= |strides|
    requires s in m && Offset(strides, level) < s.len
    ensures Reached(bits, strides, m, s, level)
  {
  }

  // ----- Examples, over six address bits in two strides -------------------------------------------------------

  /** An exact-match search for 0000/4 that collects less specifics answers with 000/3, if that alone is stored. */
  lemma MisreportExample()
    ensures 0 < Pow2(6) && OffsetsWithin(6, [3, 3])
    ensures StoredAtEnd(6, [3, 3], map[PrefixId(0, 3) := 1], PrefixId(0, 4)) == Some(PrefixId(0, 3))
  {
    hide Pow2, TruncateToLen;
    assert Pow2(6) > 0 && TruncateToLen(6, 0, 3) == 0 by { ZeroTruncated(); }
    assert Offset([3, 3], 1) == 3 && Offset([3, 3], 2) == 6;
    var m, s := map[PrefixId(0, 3) := 1], PrefixId(0, 4);
    assert !Reached(6, [3, 3], m, s, 1);
    assert DeepestReached(6, [3, 3], m, s, 1) == 0;
  }

  lemma ZeroTruncated()
    ensures Pow2(6) > 0 && TruncateToLen(6, 0, 3) == 0
  {
    assert Pow2(6) == 64;
    assert Shr(0, 3) == Shr(0, 2) == Shr(0, 1) == 0;
    assert Double(0, 6) == 0;
    assert Shl(0, 3, 6) == Shl(0, 2, 6) == Shl(0, 1, 6) == 0;
  }

  /** A longest-match search for 100100/6 does not list 1/1, if these two are stored: it looks at child 001 for it. */
  lemma UnlistedExample()
    ensures 36 < Pow2(6) && OffsetsWithin(6, [3, 3])
    ensures LessSpecifics(6, map[PrefixId(32, 1) := 1, PrefixId(36, 6) := 1], PrefixId(36, 6)) == {PrefixId(32, 1)}
    ensures !LooksOnward(6, [3, 3], map[PrefixId(32, 1) := 1, PrefixId(36, 6) := 1], PrefixId(36, 6), PrefixId(32, 1))
  {
    hide Pow2, TruncateToLen, ToBits;
    UnlistedBits();
    assert Offset([3, 3], 0) == 0 && Offset([3, 3], 1) == 3 && Offset([3, 3], 2) == 6;
    var m, s, q := map[PrefixId(32, 1) := 1, PrefixId(36, 6) := 1], PrefixId(36, 6), PrefixId(32, 1);
    assert q in m && Covers(6, q, s);
    assert ChildLookedAt(6, [3, 3], s, q, 0)[0] == false;
    assert forall x :: x in m ==> Key(6, x)[0];
  }

  lemma UnlistedBits()
    ensures 36 < Pow2(6) && TruncateToLen(6, 36, 1) == 32 && ToBits(36, 6)[0] && ToBits(32, 6)[0]
  {
    assert Pow2(6) == 64;
    assert Shr(36, 5) == Shr(18, 4) == Shr(9, 3) == Shr(4, 2) == Shr(2, 1) == 1;
    assert Double(1, 6) == 2 && Double(2, 6) == 4 && Double(4, 6) == 8 && Double(8, 6) == 16 && Double(16, 6) == 32;
    assert Shl(1, 5, 6) == Shl(2, 4, 6) == Shl(4, 3, 6) == Shl(8, 2, 6) == Shl(16, 1, 6) == 32;
    assert ToBits(1, 1)[0];
    assert ToBits(36, 6)[0] == ToBits(18, 5)[0] == ToBits(9, 4)[0] == ToBits(4, 3)[0] == ToBits(2, 2)[0] ==
      ToBits(1, 1)[0];
    assert ToBits(32, 6)[0] == ToBits(16, 5)[0] == ToBits(8, 4)[0] == ToBits(4, 3)[0];
  }
}
