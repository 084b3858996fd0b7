/** The single-threaded tree bitmap: a tree of nodes in one arena, the prefixes in another. */
module LocalVec {
  import opened Wrappers
  import opened Bits
  import opened Af
  import opened Stride
  import opened Rank
  import opened Records
  import opened Nodes
  import opened TreeShape
  import opened TreeState
  import opened Below
  import opened LastNode
  import opened Answers
  import opened Collected
  import opened LessAnswers

  /** Repeats the list until the strides are as wide as an address; nothing else is accepted. */
  method CycleStrides(bits: nat, list: seq<nat>) returns (r: Option<seq<nat>>)
    requires bits > 0 && forall d :: 0 <= d < |list| ==> IsStride(list[d])
    ensures r.Some? <==> list != [] && exists k :: CycleSum(list, k) == bits
    ensures r.Some? ==> AcceptedStrides(bits, r.value) && forall i :: 0 <= i < |r.value| ==>
      r.value[i] == list[i % |list|]
  {
    if list == [] { return None; }
    var strides, sum := [], 0;
    while true
      invariant sum == Offset(strides, |strides|) == CycleSum(list, |strides|)
      invariant |strides| == 0 || CycleSum(list, |strides| - 1) < bits - 1
      invariant forall i :: 0 <= i < |strides| ==> strides[i] == list[i % |list|]
      invariant |strides| > 0 ==> sum < bits - 1
      decreases bits - sum
    {
      var s := list[|strides| % |list|];
      OffsetAppend(strides, s);
      assert IsStride(s);
      assert CycleSum(list, |strides| + 1) == sum + s;
      strides, sum := strides + [s], sum + s;
      if sum >= bits - 1 { break; }
    }
    NoOtherSum(bits, list, |strides|);
    if sum == bits { return Some(strides); }
    return None;
  }

  lemma NoOtherSum(bits: nat, list: seq<nat>, k: nat)
    requires list != [] && forall d :: 0 <= d < |list| ==> IsStride(list[d])
    requires 0 < k && CycleSum(list, k) >= bits - 1 && (k == 1 || CycleSum(list, k - 1) < bits - 1) && bits > 0
    ensures (exists j :: CycleSum(list, j) == bits) <==> CycleSum(list, k) == bits
  {
    forall j: nat | CycleSum(list, j) == bits
      ensures j == k
    {
      if j < k {
        CycleSumMono(list, j, k - 1);
      } else if k < j {
        CycleSumMono(list, k, j);
      }
    }
  }

  /** Every stride starts within the address. */
  lemma StrideWithin(bits: nat, strides: seq<nat>, level: nat)
    requires AcceptedStrides(bits, strides) && level < |strides|
    ensures Offset(strides, level) + strides[level] <= bits && IsStride(strides[level])
    ensures Offset(strides, level) + strides[level] == Offset(strides, level + 1)
    ensures level + 1 == |strides| ==> Offset(strides, level + 1) == bits
  {
    OffsetMono(strides, level, |strides|);
  }

  /** The taken node has the pointer bit for a new child set; the entry is still to come. */
  ghost predicate CanAddChild(t: Trie, was: seq<TreeNode>, i: nat, taken: TreeNode, b: seq<bool>, bitId: nat) {
    && i < |was| == |t.views| == |t.places|
    && |b| == t.views[i].stride && b !in t.views[i].kids
    && t.places[i].depth + 1 < |t.strides|
    && AwaitsChild(taken, t.views[i], b, bitId)
    && taken.pfxVec == was[i].pfxVec && taken.ptrVec == was[i].ptrVec
  }

  /** The taken node has the prefix bit set; the entry is still to come. */
  ghost predicate CanAddPrefix(t: Trie, was: seq<TreeNode>, i: nat, taken: TreeNode, b: seq<bool>, sort: nat) {
    && i < |was| == |t.views| == |t.places|
    && |b| <= t.views[i].stride && b !in t.views[i].pfxs && (|b| > 0 || i == 0)
    && AwaitsPfx(taken, t.views[i], b, sort)
    && taken.pfxVec == was[i].pfxVec && taken.ptrVec == was[i].ptrVec
  }

  lemma ChildAdded<M>(bits: nat, was: seq<TreeNode>, prefixes: seq<Record<M>>, t: Trie, i: nat, b: seq<bool>,
                      taken: TreeNode, bitId: nat)
    requires StoreOk(bits, t.strides, was, prefixes, t) && CanAddChild(t, was, i, taken, b, bitId)
    ensures var current := taken.(ptrVec := Sort(taken.ptrVec + [NodeId(bitId, |was|)]));
      var node := EmptyNode(t.strides[t.places[i].depth + 1]);
      StoreOk(bits, t.strides, was[i := current] + [node], prefixes, WithNode(t, i, b))
  {
    StoreWithNode(bits, was, prefixes, t, i, b, taken.(ptrVec := Sort(taken.ptrVec + [NodeId(bitId, |was|)])));
  }

  lemma PrefixAdded<M>(bits: nat, was: seq<TreeNode>, prefixes: seq<Record<M>>, t: Trie, i: nat, b: seq<bool>,
                       taken: TreeNode, sort: nat, pfx: Record<M>)
    requires StoreOk(bits, t.strides, was, prefixes, t) && CanAddPrefix(t, was, i, taken, b, sort)
    requires Canonical(bits, pfx.id) && Key(bits, pfx.id) == t.places[i].path + b
    ensures var current := taken.(pfxVec := Sort(taken.pfxVec + [NodeId(sort, |prefixes|)]));
      StoreOk(bits, t.strides, was[i := current], prefixes + [pfx], WithPrefix(t, i, b))
    ensures pfx.id !in AsMap(prefixes)
    ensures AsMap(prefixes + [pfx]) == AsMap(prefixes)[pfx.id := pfx.meta]
  {
    StoreWithPrefix(bits, was, prefixes, t, i, b, taken.(pfxVec := Sort(taken.pfxVec + [NodeId(sort, |prefixes|)])),
      pfx);
  }

  datatype QueryResult<M> = QueryResult(
    prefix: Option<Record<M>>,
    matchType: MatchType,
    lessSpecifics: Option<seq<Record<M>>>,
    moreSpecifics: Option<seq<Record<M>>>)

  /** The nibble of a prefix at one level, as the insertion loop cuts it. */
  ghost predicate IsNibble(bits: nat, strides: seq<nat>, p: PrefixId, level: nat, nibble: nat, nibbleLen: nat,
                           isLast: bool)
    requires p.len <= bits
  {
    && level < |strides|
    && Offset(strides, level) + nibbleLen <= p.len
    && nibble == Val(Cut(Key(bits, p), Offset(strides, level), nibbleLen))
    && isLast == (p.len <= Offset(strides, level + 1))
    && nibbleLen == if isLast then p.len - Offset(strides, level) else strides[level]
  }

  lemma StepNode<M>(bits: nat, nodes: seq<TreeNode>, prefixes: seq<Record<M>>, t: Trie, i: nat, level: nat,
                    k: seq<bool>)
    requires StoreOk(bits, t.strides, nodes, prefixes, t) && OnPath(t, i, level, k)
    ensures i < |nodes| == |t.views| == |t.places| && Sees(nodes[i], t.views[i])
    ensures nodes[i].stride == t.views[i].stride == t.strides[level] && t.places[i].depth == level
    ensures level == 0 ==> i == 0
  {
    hide WellFormed, SeesChildren, SeesPrefixes;
    assert PlaceOk(t, i);
    assert Sees(nodes[i], t.views[i]);
    if level == 0 { RootByDepth(t, i); }
  }

  lemma StepNibble(bits: nat, t: Trie, i: nat, level: nat, p: PrefixId, nibble: nat, nibbleLen: nat, isLast: bool)
    requires AcceptedStrides(bits, t.strides) && p.len <= bits && OnPath(t, i, level, Key(bits, p))
    requires IsNibble(bits, t.strides, p, level, nibble, nibbleLen, isLast)
    ensures nibbleLen <= t.strides[level]
    ensures !isLast ==> nibbleLen == t.strides[level] && level + 1 < |t.strides| && IsStride(t.strides[level + 1])
    ensures nibbleLen > 0 || level == 0
    ensures isLast ==> Key(bits, p) == t.places[i].path + Cut(Key(bits, p), Offset(t.strides, level), nibbleLen)
  {
    hide Key, Val;
    if !isLast { OffsetMono(t.strides, level + 1, |t.strides|); }
  }

  /** On the way to a stored prefix there is always a child. */
  lemma KnownOnWay(t: Trie, i: nat, level: nat, k: seq<bool>)
    requires Inv(t) && OnPath(t, i, level, k) && Offset(t.strides, level) + t.strides[level] < |k| && k in t.keys
    ensures i < |t.views| && Cut(k, Offset(t.strides, level), t.strides[level]) in t.views[i].kids
  {
    hide Inv;
    NodePath(t, i, level, k);
    var b := Cut(k, Offset(t.strides, level), t.strides[level]);
    var r :| 0 <= r < |t.keys| && t.keys[r] == k;
    PathAndCut(k, Offset(t.strides, level), t.strides[level]);
    if b !in t.views[i].kids { NothingBelow(t, i, b, r); }
  }

  /** So inserting a known prefix meets existing nodes only. */
  lemma KnownHasChild<M>(bits: nat, prefixes: seq<Record<M>>, t: Trie, i: nat, level: nat, p: PrefixId)
    requires Inv(t) && KeysMatch(bits, prefixes, t.keys) && DistinctIds(prefixes)
    requires p.len <= bits && Canonical(bits, p)
    requires OnPath(t, i, level, Key(bits, p)) && Offset(t.strides, level) + t.strides[level] < p.len
    ensures i < |t.views|
    ensures p in AsMap(prefixes) ==> Cut(Key(bits, p), Offset(t.strides, level), t.strides[level]) in t.views[i].kids
  {
    hide Inv, KeysMatch, Key, Canonical, OnPath;
    KeyOfRecord(bits, prefixes, t.keys, p);
    NodePath(t, i, level, Key(bits, p));
    if Key(bits, p) in t.keys { KnownOnWay(t, i, level, Key(bits, p)); }
  }

  lemma NewChildOnPath(t: Trie, i: nat, level: nat, k: seq<bool>, b: seq<bool>)
    requires Inv(t) && OnPath(t, i, level, k) && Offset(t.strides, level) + t.strides[level] < |k|
    requires level + 1 < |t.strides| && b == Cut(k, Offset(t.strides, level), t.strides[level])
    ensures t.places[i].path + b < k
    ensures OnPath(WithNode(t, i, b), |t.views|, level + 1, k)
  {
    hide Cut, PlaceOk, KidsOk, ParentOk, PfxsOk, HostOk;
    CutAppends(k, Offset(t.strides, level), t.strides[level]);
  }

  /** The entry found at the last nibble is the record of the prefix itself. */
  lemma MergedMeta<M>(bits: nat, nodes: seq<TreeNode>, prefixes: seq<Record<M>>, t: Trie, i: nat, level: nat,
                      pfx: Record<M>,
                      len: nat, r: nat, merge: (M, M) -> M)
    requires StoreOk(bits, t.strides, nodes, prefixes, t)
    requires Canonical(bits, pfx.id) && OnPath(t, i, level, Key(bits, pfx.id))
    requires Offset(t.strides, level) + len == pfx.id.len && len <= t.strides[level]
    requires var b := Cut(Key(bits, pfx.id), Offset(t.strides, level), len);
      b in t.views[i].pfxs && t.views[i].pfxs[b] == r
    ensures r < |prefixes| == |t.keys| && prefixes[r].id == pfx.id && t.keys[r] == Key(bits, pfx.id)
    ensures var prefixes' := prefixes[r := prefixes[r].(meta := merge(prefixes[r].meta, pfx.meta))];
      StoreOk(bits, t.strides, nodes, prefixes', t) && AsMap(prefixes') == Upserted(AsMap(prefixes), pfx, merge)
  {
    var k := Key(bits, pfx.id);
    CutEntry(t, i, level, k, len, r);
    assert k[..pfx.id.len] == k;
    KeyOfRecord(bits, prefixes, t.keys, pfx.id);
    StoreWithMeta(bits, nodes, prefixes, t, r, merge(prefixes[r].meta, pfx.meta));
  }

  /** The entries are the stored prefixes strictly more specific than k, each once. */
  ghost predicate AllMoreSpecific(t: Trie, k: seq<bool>, ids: seq<NodeId>) {
    NoDup(Parts(ids)) && forall r: nat :: r in Parts(ids) <==> IsMoreSpecific(t, k, r)
  }

  lemma StopNode<M>(bits: nat, nodes: seq<TreeNode>, prefixes: seq<Record<M>>, t: Trie, i: nat, level: nat,
                    k: seq<bool>, len: nat)
    requires StoreOk(bits, t.strides, nodes, prefixes, t) && StopsAt(t, i, level, k, len)
    ensures i < |nodes| == |t.views| && Sees(nodes[i], t.views[i]) && len <= nodes[i].stride
    ensures level < |t.strides| && Offset(t.strides, level) + len <= |k|
  {
    hide WellFormed, SeesChildren, SeesPrefixes;
    StepNode(bits, nodes, prefixes, t, i, level, k);
  }

  /** The listed entries that extend the nibble, as distinct records of the node. */
  lemma ExtendingListed(t: Trie, i: nat, b: seq<bool>, ids: seq<NodeId>, nibbles: seq<seq<bool>>)
    requires Inv(t) && i < |t.views| && Lists(t.views[i].pfxs, ids, nibbles)
    requires forall c :: c in nibbles <==> c in t.views[i].pfxs && b < c
    ensures NoDup(Parts(ids)) && Extending(t.views[i], b) == iset r: nat | r in Parts(ids)
    ensures |t.keys| == |t.hosts| && forall r: nat :: r in Extending(t.views[i], b) ==> r < |t.keys| && t.hosts[r] == i
  {
    hide Lists;
    ListedRecords(t, i, ids, nibbles);
    assert PfxsOk(t, i);
  }

  /** The index that a search for k comes up with. */
  ghost predicate FoundIndex(t: Trie, k: seq<bool>, matchType: MatchType, withLess: bool, idx: Option<nat>)
    requires Inv(t)
  {
    match matchType
    case ExactMatch => if withLess then FoundAtEnd(t, k, idx) else IsIndexOf(t.keys, k, idx)
    case LongestMatch => Best(t.keys, k, |k|, idx)
    case EmptyMatch => if EndsOnCover(t, k) then Best(t.keys, k, |k|, idx) else idx.None?
  }

  /** The searches that collect more specifics. */
  ghost predicate CollectsMore(t: Trie, k: seq<bool>, matchType: MatchType, withLess: bool)
    requires Inv(t)
  {
    match matchType
    case ExactMatch => k in t.keys && (withLess ==> k != [])
    case LongestMatch => EndsOnCover(t, k)
    case EmptyMatch => true
  }

  /** All more specifics are collected, or, without a prefix in the last node, none are. */
  ghost predicate FoundMore(t: Trie, k: seq<bool>, matchType: MatchType, withLess: bool, more: Option<seq<NodeId>>)
    requires Inv(t)
  {
    && more.Some?
    && if CollectsMore(t, k, matchType, withLess) then AllMoreSpecific(t, k, more.value) else more.value == []
  }

  lemma NothingYet(keys: seq<seq<bool>>, k: seq<bool>)
    ensures Best(keys, k, 0, None)
  {
  }

  /** What a search function reports about the node on the path. */
  ghost predicate Reports(t: Trie, i: nat, level: nat, k: seq<bool>, len: nat, matchType: MatchType, withLess: bool,
                          found: Option<NodeId>)
    requires i < |t.views| && level <= |t.strides| && Offset(t.strides, level) + len <= |k|
  {
    var start, v := Offset(t.strides, level), t.views[i];
    var goesOn := |k| > start + len && Cut(k, start, len) in v.kids;
    if matchType.ExactMatch? then
      if (if withLess then !goesOn && len > 0 else |k| <= start + len) && Cut(k, start, len) in v.pfxs
      then found.Some? && found.value.part == v.pfxs[Cut(k, start, len)]
      else found.None?
    else
      var l := LongestIn(v, k, start, len);
      if l == 0 then found.None? else found.Some? && found.value.part == v.pfxs[Cut(k, start, l)]
  }

  /** What a search function collects in the node on the path. */
  ghost predicate Collects(t: Trie, i: nat, level: nat, k: seq<bool>, len: nat, matchType: MatchType, rs: seq<nat>,
                           rs': seq<nat>)
    requires i < |t.views| && level <= |t.strides| && Offset(t.strides, level) + len <= |k|
  {
    var start, v := Offset(t.strides, level), t.views[i];
    rs' ==
      if !matchType.ExactMatch? then rs + LessIn(v, k, start, len, len)
      else if len > 0 && Cut(k, start, len) in v.pfxs then rs + CoversIn(v, k, start, len)
      else []
  }

  /** What is collected above a level. */
  ghost predicate CollectedAbove(t: Trie, k: seq<bool>, level: nat, matchType: MatchType, rs: seq<nat>)
    requires Inv(t) && level <= |t.strides|
  {
    if matchType.ExactMatch? then KeptSoFar(t, k, level, Offset(t.strides, level), rs)
    else LessSoFar(t, k, Offset(t.strides, level), rs)
  }

  lemma NothingCollected(t: Trie, k: seq<bool>, matchType: MatchType)
    requires Inv(t)
    ensures CollectedAbove(t, k, 0, matchType, [])
  {
    hide Inv, Pointed, Kept;
  }

  lemma CollectedOn(t: Trie, i: nat, level: nat, k: seq<bool>, matchType: MatchType, rs: seq<nat>, rs': seq<nat>)
    requires Inv(t) && OnPath(t, i, level, k) && Offset(t.strides, level) + t.strides[level] < |k|
    requires CollectedAbove(t, k, level, matchType, rs)
      && Collects(t, i, level, k, t.strides[level], matchType, rs, rs')
    ensures CollectedAbove(t, k, level + 1, matchType, rs')
  {
    hide LessSoFar, KeptSoFar, LessIn, CoversIn;
    NodePath(t, i, level, k);
    hide Inv;
    if matchType.ExactMatch? {
      KeptStep(t, i, level, k, t.strides[level], rs, rs');
    } else {
      LessStep(t, i, level, k, t.strides[level], rs);
    }
  }

  lemma CollectedAtEnd(t: Trie, i: nat, level: nat, k: seq<bool>, len: nat, matchType: MatchType, rs: seq<nat>,
                       ids: seq<NodeId>)
    requires Inv(t) && Live(t) && StopsAt(t, i, level, k, len)
    requires level < |t.strides| && i < |t.views| && Offset(t.strides, level) + len <= |k|
    requires CollectedAbove(t, k, level, matchType, rs) && Collects(t, i, level, k, len, matchType, rs, Parts(ids))
    ensures CollectedLess(t, k, matchType, ids)
  {
    hide Inv, Live, LessSoFar, KeptSoFar, LessIn, CoversIn, StopsAt, KeptAll;
    StopWithin(t, i, level, k, len);
    StopLen(t, i, level, k, len);
    if matchType.ExactMatch? {
      KeptStep(t, i, level, k, len, rs, Parts(ids));
      KeptAtStop(t, i, level, k, len, Parts(ids));
    } else {
      LessStep(t, i, level, k, len, rs);
      LessAtStop(t, i, level, k, len, Parts(ids));
    }
  }

  lemma StopLen(t: Trie, i: nat, level: nat, k: seq<bool>, len: nat)
    requires Inv(t) && StopsAt(t, i, level, k, len)
    ensures level < |t.strides| && (len > 0 || k == [])
      && (Offset(t.strides, level) + len < |k| ==> len == t.strides[level])
  {
    StopPath(t, i, level, k, len);
    NodePath(t, i, level, k);
  }

  lemma GoesOn(t: Trie, i: nat, level: nat, k: seq<bool>, matchType: MatchType, withLess: bool, idx: Option<nat>,
               found: Option<NodeId>)
    requires Inv(t) && OnPath(t, i, level, k) && Offset(t.strides, level) + t.strides[level] < |k|
    requires Cut(k, Offset(t.strides, level), t.strides[level]) in t.views[i].kids
    requires if matchType.ExactMatch? then idx == None else Best(t.keys, k, Offset(t.strides, level), idx)
    requires Reports(t, i, level, k, t.strides[level], matchType, withLess, found)
    ensures OnPath(t, t.views[i].kids[Cut(k, Offset(t.strides, level), t.strides[level])], level + 1, k)
    ensures var idx' := if found.Some? then Some(found.value.part) else idx;
      if matchType.ExactMatch? then idx' == None else Best(t.keys, k, Offset(t.strides, level + 1), idx')
  {
    hide Best;
    ChildOnPath(t, i, level, k);
    assert PlaceOk(t, i);
    if !matchType.ExactMatch? {
      BestStep(t, i, level, k, t.strides[level], idx, if found.Some? then Some(found.value.part) else idx);
    }
  }

  lemma EndsWith(t: Trie, i: nat, level: nat, k: seq<bool>, len: nat, matchType: MatchType, withLess: bool,
                 idx: Option<nat>, found: Option<NodeId>)
    requires Inv(t) && StopsAt(t, i, level, k, len)
    requires if matchType.ExactMatch? then idx == None else Best(t.keys, k, Offset(t.strides, level), idx)
    requires Reports(t, i, level, k, len, matchType, withLess, found)
    ensures CollectsMore(t, k, matchType, withLess) ==> found.Some? || matchType.EmptyMatch?
    ensures found.Some? && !CollectsMore(t, k, matchType, withLess) ==> forall r: nat :: !IsMoreSpecific(t, k, r)
    ensures FoundIndex(t, k, matchType, withLess,
      if found.Some? then Some(found.value.part) else if matchType.EmptyMatch? then None else idx)
  {
    hide Best, FoundAtEnd;
    var idx' := if found.Some? then Some(found.value.part) else idx;
    StopPath(t, i, level, k, len);
    EndsHere(t, i, level, k, len);
    if matchType.ExactMatch? {
      if withLess { EndsExact(t, i, level, k, len, idx'); } else { ExactAtStop(t, i, level, k, len, idx'); }
    } else {
      BestAtStop(t, i, level, k, len, idx, idx');
    }
  }

  /**
   * The end of an exact-match search that collects: it finds what ends there, and only beyond k itself is there
   * more.
   */
  lemma EndsExact(t: Trie, i: nat, level: nat, k: seq<bool>, len: nat, idx: Option<nat>)
    requires Inv(t) && StopsAt(t, i, level, k, len)
    requires i < |t.views| && Offset(t.strides, level) + len <= |k|
    requires var b := Cut(k, Offset(t.strides, level), len);
      idx == if len > 0 && b in t.views[i].pfxs then Some(t.views[i].pfxs[b]) else None
    ensures FoundAtEnd(t, k, idx)
    ensures k in t.keys && k != [] ==> idx.Some?
    ensures idx.Some? && !(k in t.keys && k != []) ==> forall r: nat :: !IsMoreSpecific(t, k, r)
  {
    hide Inv, FoundAtEnd;
    EndIsFound(t, i, level, k, len, idx);
    StopLen(t, i, level, k, len);
    StopWithin(t, i, level, k, len);
    if len > 0 { EndStored(t, i, level, k, len); }
    if Offset(t.strides, level) + len < |k| {
      forall r: nat | r < |t.keys|
        ensures !(k <= t.keys[r])
      {
        NothingFurther(t, i, level, k, len, r);
      }
    } else {
      assert k[..|k|] == k;
    }
  }

  /** Nothing is stored at or below k if the search for it ends before k does. */
  lemma NothingFurther(t: Trie, i: nat, level: nat, k: seq<bool>, len: nat, r: nat)
    requires Inv(t) && StopsAt(t, i, level, k, len) && r < |t.keys| && Offset(t.strides, level) + len < |k|
    ensures !(k <= t.keys[r])
  {
    hide Inv, Cut;
    StopPath(t, i, level, k, len);
    StopLen(t, i, level, k, len);
    StopTurn(t, i, level, k, len);
    if k <= t.keys[r] { NothingBelow(t, i, Cut(k, Offset(t.strides, level), len), r); }
  }

  lemma StopTurn(t: Trie, i: nat, level: nat, k: seq<bool>, len: nat)
    requires Inv(t) && StopsAt(t, i, level, k, len) && Offset(t.strides, level) + len < |k|
    ensures i < |t.views| && Cut(k, Offset(t.strides, level), len) !in t.views[i].kids
  {
  }

  lemma PathBounds(t: Trie, i: nat, level: nat, k: seq<bool>)
    requires Inv(t) && OnPath(t, i, level, k)
    ensures i < |t.views| && level < |t.strides| && Offset(t.strides, level) <= |k|
    ensures t.strides[level] > 0 && (level > 0 ==> Offset(t.strides, level) < |k|)
  {
  }

  lemma NoneIsFound(t: Trie, k: seq<bool>, matchType: MatchType, withLess: bool)
    requires Inv(t) && !CollectsMore(t, k, matchType, withLess)
    ensures FoundMore(t, k, matchType, withLess, Some([]))
  {
  }

  lemma EmptyCollects(t: Trie, k: seq<bool>, withLess: bool)
    requires Inv(t)
    ensures CollectsMore(t, k, EmptyMatch, withLess)
  {
  }

  /** What is collected when something is found is what FoundMore asks for. */
  lemma MoreIsFound(t: Trie, k: seq<bool>, matchType: MatchType, withLess: bool, more: seq<NodeId>)
    requires Inv(t) && AllMoreSpecific(t, k, more)
    requires CollectsMore(t, k, matchType, withLess) || forall r: nat :: !IsMoreSpecific(t, k, r)
    ensures FoundMore(t, k, matchType, withLess, Some(more))
  {
    hide Inv, CollectsMore, IsMoreSpecific;
    if more != [] { assert Parts(more)[0] in Parts(more); }
  }

  /** The prefix and the match type of an answer, by the kind of match asked for. */
  ghost predicate MatchesPrefix<M>(bits: nat, strides: seq<nat>, m: map<PrefixId, M>, s: PrefixId, matchType: MatchType,
                                   withLess: bool, prefix: Option<Record<M>>, resultType: MatchType)
    requires s.net < Pow2(bits) && s.len <= bits && OffsetsWithin(bits, strides) && |strides| > 0
  {
    var id := if prefix.Some? then Some(prefix.value.id) else None;
    && (prefix.Some? ==> IsStored(m, prefix.value))
    && resultType == (if id.None? then EmptyMatch else if id.value == s then ExactMatch else LongestMatch)
    && match matchType
       case ExactMatch => id == if withLess then StoredAtEnd(bits, strides, m, s) else if s in m then Some(s) else None
       case LongestMatch => IsLongestMatch(bits, m, s, id)
       case EmptyMatch => if CoverPastLevels(bits, strides, m, s) then IsLongestMatch(bits, m, s, id) else id == None
  }

  /** The searches that collect more specifics. */
  ghost predicate GathersMore<M>(bits: nat, strides: seq<nat>, m: map<PrefixId, M>, s: PrefixId, matchType: MatchType,
                                 withLess: bool)
    requires s.net < Pow2(bits) && OffsetsWithin(bits, strides)
  {
    match matchType
    case ExactMatch => s in m && (withLess ==> s.len > 0)
    case LongestMatch => CoverPastLevels(bits, strides, m, s)
    case EmptyMatch => true
  }

  /** The collected prefixes: all that are more specific, or none if the search ended without a prefix. */
  ghost predicate MatchesMore<M>(bits: nat, strides: seq<nat>, m: map<PrefixId, M>, s: PrefixId,
                                 matchType: MatchType, withLess: bool, more: seq<Record<M>>)
    requires s.net < Pow2(bits) && OffsetsWithin(bits, strides)
  {
    && (forall rec :: rec in more ==> IsStored(m, rec))
    && if GathersMore(bits, strides, m, s, matchType, withLess)
       then ListsExactly(IdsOf(more), MoreSpecifics(bits, m, s))
       else more == []
  }

  /** The collected prefixes are all that are more specific if and only if there are none, or the search collects. */
  lemma AllMoreIff<M>(bits: nat, strides: seq<nat>, m: map<PrefixId, M>, s: PrefixId, matchType: MatchType,
                      withLess: bool, more: seq<Record<M>>)
    requires s.net < Pow2(bits) && OffsetsWithin(bits, strides)
    requires MatchesMore(bits, strides, m, s, matchType, withLess, more)
    ensures ListsExactly(IdsOf(more), MoreSpecifics(bits, m, s)) <==>
      MoreSpecifics(bits, m, s) == {} || GathersMore(bits, strides, m, s, matchType, withLess)
  {
    hide MoreSpecifics, GathersMore;
    if more == [] {
      var all := MoreSpecifics(bits, m, s);
      assert IdsOf(more) == [];
      if ListsExactly(IdsOf(more), all) { assert forall q :: q !in all; }
    }
  }

  /** 0/1 and 00001/5, over addresses of six bits. */
  function MissedMap(): map<PrefixId, int> {
    map[PrefixId(0, 1) := 1, PrefixId(2, 5) := 1]
  }

  /** A longest-match search for 0000/4 finds 0/1, and misses 00001/5, which is more specific. */
  lemma MissedExample(more: seq<Record<int>>)
    ensures PrefixId(0, 4).net < Pow2(6) && OffsetsWithin(6, [3, 3])
    ensures MoreSpecifics(6, MissedMap(), PrefixId(0, 4)) == {PrefixId(2, 5)}
    ensures IsLongestMatch(6, MissedMap(), PrefixId(0, 4), Some(PrefixId(0, 1)))
    ensures MatchesMore(6, [3, 3], MissedMap(), PrefixId(0, 4), LongestMatch, false, more) ==> more == []
  {
    hide Pow2, CoverPastLevels, MissedMap, IsLongestMatch, MoreSpecifics;
    MissedTruncations();
    MissedStored();
    MissedLevels();
  }

  lemma MissedStored()
    requires Pow2(6) == 64
    ensures MoreSpecifics(6, MissedMap(), PrefixId(0, 4)) == {PrefixId(2, 5)}
    ensures IsLongestMatch(6, MissedMap(), PrefixId(0, 4), Some(PrefixId(0, 1)))
  {
    hide Pow2, TruncateToLen;
    MissedTruncations();
    assert Covers(6, PrefixId(0, 1), PrefixId(0, 4)) && Covers(6, PrefixId(0, 4), PrefixId(2, 5));
  }

  lemma MissedLevels()
    requires Pow2(6) == 64
    ensures OffsetsWithin(6, [3, 3]) && !CoverPastLevels(6, [3, 3], MissedMap(), PrefixId(0, 4))
  {
    hide Pow2, TruncateToLen;
    MissedTruncations();
    assert Offset([3, 3], 1) == 3 && Offset([3, 3], 2) == 6;
    assert PrefixId(2, 5) in MissedMap();
    assert Reached(6, [3, 3], MissedMap(), PrefixId(0, 4), 1);
  }

  lemma MissedTruncations()
    ensures Pow2(6) == 64
    ensures TruncateToLen(6, 0, 1) == TruncateToLen(6, 0, 3) == TruncateToLen(6, 2, 3) == TruncateToLen(6, 2, 4) == 0
  {
    assert Pow2(6) == 64;
    assert Shr(2, 3) == Shr(1, 2) == Shr(0, 1) == 0 && Shr(2, 2) == Shr(1, 1) == 0;
    assert Shr(0, 5) == Shr(0, 4) == Shr(0, 3) == Shr(0, 2) == 0;
    assert Double(0, 6) == 0;
    assert Shl(0, 5, 6) == Shl(0, 4, 6) == Shl(0, 3, 6) == Shl(0, 2, 6) == Shl(0, 1, 6) == 0;
  }

  lemma AcceptedWithin(bits: nat, strides: seq<nat>)
    requires AcceptedStrides(bits, strides)
    ensures OffsetsWithin(bits, strides)
  {
    forall level | 0 <= level <= |strides|
      ensures Offset(strides, level) <= bits
    {
      OffsetMono(strides, level, |strides|);
    }
  }

  /** Ending on a cover, in terms of the stored map. */
  lemma EndsAsMap<M>(bits: nat, nodes: seq<TreeNode>, prefixes: seq<Record<M>>, t: Trie, s: PrefixId)
    requires StoreOk(bits, t.strides, nodes, prefixes, t) && Live(t) && s.len <= bits && Canonical(bits, s)
    ensures OffsetsWithin(bits, t.strides)
    ensures EndsOnCover(t, Key(bits, s)) <==> CoverPastLevels(bits, t.strides, AsMap(prefixes), s)
  {
    hide Key, TruncateToLen, NodesSeen, Live;
    AcceptedWithin(bits, t.strides);
    EndsOnCoverIff(t, Key(bits, s));
    CoverBeyondAsMap(bits, t.strides, prefixes, t.keys, s);
  }

  /** The index found leads to the prefix asked for. */
  lemma PrefixAnswers<M>(bits: nat, nodes: seq<TreeNode>, prefixes: seq<Record<M>>, t: Trie, s: PrefixId,
                         matchType: MatchType, withLess: bool, idx: Option<nat>)
    requires StoreOk(bits, t.strides, nodes, prefixes, t) && Live(t) && s.len <= bits && Canonical(bits, s)
    requires FoundIndex(t, Key(bits, s), matchType, withLess, idx)
    ensures idx.Some? ==> idx.value < |prefixes|
    ensures OffsetsWithin(bits, t.strides) && |t.strides| > 0
    ensures var prefix := if idx.Some? then Some(prefixes[idx.value]) else None;
      MatchesPrefix(bits, t.strides, AsMap(prefixes), s, matchType, withLess, prefix,
        if prefix.None? then EmptyMatch else if prefix.value.id.len == s.len then ExactMatch else LongestMatch)
  {
    hide Key, TruncateToLen, NodesSeen, Live, Inv, Canonical, EndsOnCover, CoverPastLevels, FoundAtEnd, SearchEnd;
    EndsAsMap(bits, nodes, prefixes, t, s);
    AcceptedIsGood(bits, t.strides);
    var k := Key(bits, s);
    if matchType.ExactMatch? && withLess {
      EndAsMap(bits, prefixes, t, s, idx);
      EndIsSelf(bits, t.strides, AsMap(prefixes), s);
    } else if matchType.ExactMatch? {
      KeyOfRecord(bits, prefixes, t.keys, s);
    } else if matchType.LongestMatch? || EndsOnCover(t, k) {
      BestIsLongestMatch(bits, prefixes, t.keys, s, idx);
      if idx.Some? { SameLengthCover(bits, prefixes[idx.value].id, s); }
    }
  }

  /** The prefix found at the end of the search is the one searched for exactly if it has its length. */
  lemma EndIsSelf<M>(bits: nat, strides: seq<nat>, m: map<PrefixId, M>, s: PrefixId)
    requires s.len <= bits && Canonical(bits, s) && OffsetsWithin(bits, strides) && |strides| > 0
    ensures var id := StoredAtEnd(bits, strides, m, s);
      id.Some? ==> id.value in m && (id.value.len == s.len <==> id.value == s)
  {
  }

  /** A cover as long as the prefix is the prefix. */
  lemma SameLengthCover(bits: nat, q: PrefixId, s: PrefixId)
    requires s.len <= bits && Canonical(bits, s) && Covers(bits, q, s)
    ensures q.len == s.len <==> q == s
  {
  }

  /** The indices collected lead to the more specific prefixes. */
  lemma MoreAnswers<M>(bits: nat, nodes: seq<TreeNode>, prefixes: seq<Record<M>>, t: Trie, s: PrefixId,
                       matchType: MatchType, withLess: bool, ids: Option<seq<NodeId>>)
    requires StoreOk(bits, t.strides, nodes, prefixes, t) && Live(t) && s.len <= bits && Canonical(bits, s)
    requires FoundMore(t, Key(bits, s), matchType, withLess, ids)
    ensures ids.Some? && forall i :: 0 <= i < |ids.value| ==> ids.value[i].part < |prefixes|
    ensures OffsetsWithin(bits, t.strides)
    ensures MatchesMore(bits, t.strides, AsMap(prefixes), s, matchType, withLess, Fetch(prefixes, ids.value))
  {
    hide Key, TruncateToLen, NodesSeen, Live, Inv, EndsOnCover, CoverPastLevels;
    EndsAsMap(bits, nodes, prefixes, t, s);
    KeyOfRecord(bits, prefixes, t.keys, s);
    assert Key(bits, s) == [] <==> s.len == 0;
    if CollectsMore(t, Key(bits, s), matchType, withLess) { FetchedMoreSpecifics(bits, prefixes, t, s, ids.value); }
  }

  class TreeBitMap<M> {
    const bits: nat
    const strides: seq<nat>
    const merge: (M, M) -> M
    var nodes: seq<TreeNode>
    var prefixes: seq<Record<M>>
    ghost var trie: Trie

    /** Bitmaps, vectors and arenas agree; this holds between the steps of an insertion, too. */
    ghost predicate Consistent()
      reads this
    {
      StoreOk(bits, strides, nodes, prefixes, trie)
    }

    /** Moreover, no node but the root is without a prefix below it. */
    ghost predicate Valid()
      reads this
    {
      Consistent() && Live(trie)
    }

    /** The map that the tree stands for. */
    ghost function Contents(): map<PrefixId, M>
      requires Consistent()
      reads this
    {
      AsMap(prefixes)
    }

    constructor (bits: nat, strides: seq<nat>, merge: (M, M) -> M)
      requires AcceptedStrides(bits, strides)
      ensures Valid() && Contents() == map[]
      ensures this.bits == bits && this.strides == strides && this.merge == merge
      ensures |nodes| == 1 && |prefixes| == 0
    {
      hide Inv, NodesSeen;
      AcceptedIsGood(bits, strides);
      FreshStore<M>(bits, strides);
      this.bits, this.strides, this.merge := bits, strides, merge;
      nodes, prefixes := [EmptyNode(strides[0])], [];
      trie := Trie(strides, [EmptyView(strides[0])], [NodePlace([], 0, 0)], [], []);
    }

    // ----- Inserting ----------------------------------------------------------------

    /** Stores a new node, and puts the taken node back with an entry for it. */
    method AddChild(taken: TreeNode, curI: nat, node: TreeNode, bitId: nat, ghost was: seq<TreeNode>,
                    ghost b: seq<bool>)
      returns (i: nat)
      requires curI < |was| < ARENA_LIMIT && nodes == was[curI := EmptyNode(3)]
      requires StoreOk(bits, strides, was, prefixes, trie)
      requires CanAddChild(trie, was, curI, taken, b, bitId)
      requires node == EmptyNode(strides[trie.places[curI].depth + 1])
      modifies `nodes, `trie
      ensures Consistent() && trie == WithNode(old(trie), curI, b)
      ensures i == |was| && |nodes| == |was| + 1
    {
      hide Sees, Inv, NodesSeen, KeysMatch, EmptyNode;
      ChildAdded(bits, was, prefixes, trie, curI, b, taken, bitId);
      i := |nodes| % ARENA_LIMIT;
      var current := taken.(ptrVec := Sort(taken.ptrVec + [NodeId(bitId, i)]));
      nodes := nodes + [node];
      nodes := nodes[curI := current];
      assert nodes == was[curI := current] + [node];
      trie := WithNode(trie, curI, b);
    }

    /** Stores a new prefix, and puts the taken node back with an entry for it. */
    method AddPrefix(taken: TreeNode, curI: nat, sort: nat, pfx: Record<M>, ghost was: seq<TreeNode>,
                     ghost b: seq<bool>)
      requires curI < |was| && |prefixes| < ARENA_LIMIT && nodes == was[curI := EmptyNode(3)]
      requires StoreOk(bits, strides, was, prefixes, trie)
      requires CanAddPrefix(trie, was, curI, taken, b, sort)
      requires Canonical(bits, pfx.id) && Key(bits, pfx.id) == trie.places[curI].path + b
      modifies this
      ensures Consistent() && trie == WithPrefix(old(trie), curI, b)
      ensures |nodes| == |was| && |prefixes| == |old(prefixes)| + 1
      ensures pfx.id !in AsMap(old(prefixes))
      ensures Contents() == AsMap(old(prefixes))[pfx.id := pfx.meta]
    {
      hide Sees, Inv, NodesSeen, KeysMatch, EmptyNode, AcceptedStrides, DistinctIds, ChildRefs, PrefixRefs, Sort,
           WithPrefix;
      PrefixAdded(bits, was, prefixes, trie, curI, b, taken, sort, pfx);
      var newId := NodeId(sort, |prefixes| % ARENA_LIMIT);
      var current := taken.(pfxVec := Sort(taken.pfxVec + [newId]));
      prefixes := prefixes + [pfx];
      nodes := nodes[curI := current];
      assert nodes == was[curI := current];
      trie := WithPrefix(trie, curI, b);
    }

    /** Merges metadata into a stored prefix. */
    method UpdatePrefixMeta(r: nat, meta: M)
      requires r < |prefixes|
      modifies `prefixes
      ensures prefixes == old(prefixes)[r := old(prefixes)[r].(meta := merge(old(prefixes)[r].meta, meta))]
    {
      prefixes := prefixes[r := prefixes[r].(meta := merge(prefixes[r].meta, meta))];
    }

    /**
     * One level of an insertion: the node is taken out of the arena, asked about the nibble,
     * completed, and put back.
     */
    method InsertStep(pfx: Record<M>, nibble: nat, nibbleLen: nat, isLast: bool, curI: nat, level: nat)
      returns (next: Option<nat>)
      requires Consistent() && pfx.id.len <= bits && Canonical(bits, pfx.id)
      requires |nodes| < ARENA_LIMIT && |prefixes| < ARENA_LIMIT
      requires LiveBut(trie, Key(bits, pfx.id))
      requires OnPath(trie, curI, level, Key(bits, pfx.id))
      requires IsNibble(bits, strides, pfx.id, level, nibble, nibbleLen, isLast)
      modifies this
      ensures Consistent()
      ensures !isLast ==> prefixes == old(prefixes) && |nodes| <= |old(nodes)| + 1
      ensures !isLast ==> LiveBut(trie, Key(bits, pfx.id))
      ensures !isLast ==> next.Some? && OnPath(trie, next.value, level + 1, Key(bits, pfx.id))
      ensures isLast ==> Live(trie) && |prefixes| <= |old(prefixes)| + 1
      ensures isLast ==>
        next.None? && Contents() == Upserted(AsMap(old(prefixes)), pfx, merge) && |nodes| == |old(nodes)|
      ensures pfx.id in AsMap(old(prefixes)) ==> |nodes| == |old(nodes)| && |prefixes| == |old(prefixes)|
    {
      hide Sees, Inv, NodesSeen, KeysMatch, EmptyNode, OnPath, Canonical, Key, Val, Live, LiveBut;
      ghost var k, was := Key(bits, pfx.id), nodes;
      ghost var b := Cut(k, Offset(strides, level), nibbleLen);
      StepNode(bits, nodes, prefixes, trie, curI, level, k);
      StepNibble(bits, trie, curI, level, pfx.id, nibble, nibbleLen, isLast);
      var taken := nodes[curI];
      nodes := nodes[curI := EmptyNode(3)];
      var nextStride := if level + 1 < |strides| then Some(strides[level + 1]) else None;
      var r, current := EvalNodeOrPrefixAt(taken, nibble, nibbleLen, nextStride, isLast, trie.views[curI], b);
      match r
      case NewNode(n, bitId) =>
        KnownHasChild(bits, prefixes, trie, curI, level, pfx.id);
        NewChildOnPath(trie, curI, level, k, b);
        LiveWithNode(trie, curI, b, k);
        var i := AddChild(current, curI, n, bitId, was, b);
        next := Some(i);
      case ExistingNode(id) =>
        nodes := nodes[curI := current];
        assert nodes == was;
        ChildOnPath(trie, curI, level, k);
        next := Some(id.part);
      case NewPrefix =>
        LiveWithPrefix(trie, curI, b);
        AddPrefix(current, curI, (Pow2(nibbleLen) + nibble), pfx, was, b);
        next := None;
      case ExistingPrefix(part) =>
        MergedMeta(bits, was, prefixes, trie, curI, level, pfx, nibbleLen, part, merge);
        LiveOnceStored(trie, k, part);
        UpdatePrefixMeta(part, pfx.meta);
        nodes := nodes[curI := current];
        assert nodes == was;
        next := None;
    }

    /** Inserts a prefix, or merges its metadata into the stored one. */
    method Insert(pfx: Record<M>)
      requires Valid() && pfx.id.len <= bits && Canonical(bits, pfx.id)
      requires |nodes| + |strides| < 0x1_0000_0000 && |prefixes| < 0x1_0000_0000
      modifies this
      ensures Valid() && Contents() == Upserted(old(Contents()), pfx, merge)
      ensures |prefixes| <= |old(prefixes)| + 1
      ensures |nodes| <= |old(nodes)| + |strides|
      ensures pfx.id in old(Contents()) ==> |nodes| == |old(nodes)| && |prefixes| == |old(prefixes)|
    {
      hide Inv, NodesSeen, KeysMatch, EmptyNode, Key, Val, TruncateToLen;
      var strideEnd, curI, level := 0, 0, 0;
      ghost var k := Key(bits, pfx.id);
      RootOnPath(trie, k);
      while true
        invariant Consistent() && LiveBut(trie, k) && OnPath(trie, curI, level, k)
        invariant strideEnd == Offset(strides, level)
        invariant prefixes == old(prefixes) && |nodes| <= |old(nodes)| + level
        invariant pfx.id in old(Contents()) ==> |nodes| == |old(nodes)|
        decreases |strides| - level
      {
        var stride := strides[level];
        strideEnd := strideEnd + stride;
        var nibbleLen := if pfx.id.len < strideEnd then stride + pfx.id.len - strideEnd else stride;
        StrideWithin(bits, strides, level);
        var nibble := GetNibble(bits, pfx.id.net, strideEnd - stride, nibbleLen);
        NibbleOfKey(bits, pfx.id, strideEnd - stride, nibbleLen);
        var next := InsertStep(pfx, nibble, nibbleLen, pfx.id.len <= strideEnd, curI, level);
        if next.Some? {
          curI, level := next.value, level + 1;
        } else {
          return;
        }
      }
    }

    // ----- Collecting more specifics ------------------------------------------------------

    /** Appends the entries of a node, then all that is below its children. */
    method GetAllMoreSpecificsForNode(i: nat, foundIn: seq<NodeId>) returns (found: seq<NodeId>)
      requires Valid() && i < |nodes|
      ensures foundIn <= found
      ensures i < |trie.views| && AllBelow(trie, i, Parts(found[|foundIn|..]))
      decreases |nodes| - i, 1
    {
      hide Sees, KeysMatch, Lists;
      assert Sees(nodes[i], trie.views[i]);
      ghost var pfxNibbles := AllPrefixesListed(nodes[i], trie.views[i]);
      ghost var nibbles := AllChildrenListed(nodes[i], trie.views[i]);
      var own := nodes[i].pfxVec;
      ListedRecords(trie, i, own, pfxNibbles);
      forall r: nat {:trigger r in Parts(own)}
        ensures r in Parts(own) <==> r < |trie.keys| && trie.hosts[r] == i
      {
        AllOwnRecords(trie, i, own, pfxNibbles, r);
      }
      ghost var ownSet := iset r: nat | r in Parts(own);
      assert (foundIn + own)[|foundIn|..] == own;
      found := GatherChildren(i, nodes[i].ptrVec, foundIn + own, |foundIn|, ownSet, nibbles);
      GatheredAll(trie, i, ownSet, Parts(nodes[i].ptrVec), nibbles, Parts(found[|foundIn|..]));
    }

    /** Appends all that is below the given children of node i to the node's own entries, which start at `from`. */
    method GatherChildren(ghost i: nat, children: seq<NodeId>, start: seq<NodeId>, ghost from: nat,
                          ghost ownSet: iset<nat>,
                          ghost nibbles: seq<seq<bool>>)
      returns (found: seq<NodeId>)
      requires Valid() && i < |nodes| && i < |trie.views| && Lists(trie.views[i].kids, children, nibbles)
      requires from <= |start| && NoDup(Parts(start[from..])) && ownSet == iset r: nat | r in Parts(start[from..])
      requires forall r: nat :: r in ownSet ==> r < |trie.keys| && trie.hosts[r] == i
      ensures start <= found
      ensures ChildrenAt(trie, i, Parts(children), nibbles)
      ensures forall j :: 0 <= j < |children| ==> children[j].part < |trie.views|
      ensures Gathered(trie, ownSet, Parts(children), |children|, Parts(found[from..]))
      decreases |nodes| - i, 0
    {
      hide Sees, Inv, KeysMatch, Lists, ChildrenAt;
      ListedChildren(trie, i, children, nibbles);
      found := start;
      OwnGathered(trie, ownSet, Parts(children), Parts(found[from..]));
      for m := 0 to |children|
        invariant start <= found
        invariant Gathered(trie, ownSet, Parts(children), m, Parts(found[from..]))
      {
        ghost var before := found;
        found := GetAllMoreSpecificsForNode(children[m].part, found);
        ghost var below := found[|before|..];
        GatherStep(trie, i, ownSet, Parts(children), nibbles, m, Parts(before[from..]), Parts(below));
        PartsAppend(before[from..], below);
        assert found[from..] == before[from..] + below;
      }
    }

    /** All prefixes below a nibble of node i, where the search for k ends. */
    method GetAllMoreSpecificsFromNibble(i: nat, nibble: nat, nibbleLen: nat, ghost level: nat, ghost k: seq<bool>)
      returns (found: seq<NodeId>)
      requires Valid() && StopsAt(trie, i, level, k, nibbleLen)
      requires nibble == Val(Cut(k, Offset(strides, level), nibbleLen))
      ensures AllMoreSpecific(trie, k, found)
    {
      hide Sees, KeysMatch, Lists, Val, Inv, StopsAt, ChildrenAt, Gathered;
      StopNode(bits, nodes, prefixes, trie, i, level, k, nibbleLen);
      ghost var b := Cut(k, Offset(strides, level), nibbleLen);
      var children, ms;
      ghost var childKeys, pfxKeys;
      children, ms, childKeys, pfxKeys := AddMoreSpecificsAt(nodes[i], nibble, nibbleLen, trie.views[i], b);
      ExtendingListed(trie, i, b, ms, pfxKeys);
      assert ms[0..] == ms;
      found := GatherChildren(i, children, ms, 0, Extending(trie.views[i], b), childKeys);
      assert found[0..] == found;
      GatheredMoreSpecifics(trie, i, level, k, nibbleLen, Parts(children), childKeys, Parts(found));
    }

    // ----- Matching -------------------------------------------------------------------------

    /**
     * Searches one node, with the search function that the match type asks for; it collects if there is a list to
     * fill.
     */
    method SearchNode(i: nat, s: PrefixId, matchType: MatchType, nibble: nat, nibbleLen: nat, startBit: nat,
                      less: Option<seq<NodeId>>, ghost level: nat)
      returns (child: Option<NodeId>, found: Option<NodeId>, less': Option<seq<NodeId>>)
      requires Valid() && s.len <= bits && Canonical(bits, s) && OnPath(trie, i, level, Key(bits, s))
      requires startBit == Offset(strides, level) && startBit + nibbleLen <= s.len && nibbleLen <= strides[level]
      requires nibbleLen == 0 ==> s.len == 0
      requires nibble == Val(Cut(Key(bits, s), startBit, nibbleLen))
      ensures i < |trie.views|
      ensures var b := Cut(Key(bits, s), startBit, nibbleLen);
        if s.len > startBit + nibbleLen && b in trie.views[i].kids
          then child.Some? && child.value.part == trie.views[i].kids[b]
        else child.None?
      ensures Reports(trie, i, level, Key(bits, s), nibbleLen, matchType, less.Some?, found)
      ensures less'.Some? <==> less.Some?
      ensures less.Some? ==>
        Collects(trie, i, level, Key(bits, s), nibbleLen, matchType, Parts(less.value), Parts(less'.value))
    {
      hide Sees, KeysMatch, Val, Inv, GetNibble, Key, LessIn, CoversIn, Cut;
      StepNode(bits, nodes, prefixes, trie, i, level, Key(bits, s));
      StrideWithin(bits, strides, level);
      NibbleOfKey(bits, s, startBit, nibbleLen);
      less' := less;
      if matchType.ExactMatch? {
        if less.Some? {
          var l;
          child, found, l :=
            SearchStrideForExactMatchWithLessSpecificsAt(nodes[i], bits, s, nibble, nibbleLen, startBit, less.value,
                                                         trie.views[i]);
          less' := Some(l);
        } else {
          child, found := SearchStrideForExactMatchAt(nodes[i], bits, s, nibble, nibbleLen, startBit, trie.views[i]);
        }
      } else {
        child, found, less' := SearchStrideForLongestMatchAt(nodes[i], bits, s, nibble, nibbleLen, startBit, less,
                                                             trie.views[i]);
      }
    }

    lemma ValidParts()
      requires Valid()
      ensures AcceptedStrides(bits, strides) && Inv(trie) && Live(trie) && trie.strides == strides
    {
      hide Inv, AcceptedStrides, NodesSeen, Live, KeysMatch;
    }

    /** Without a child to go on to: settles the index, and collects the more specifics. */
    method AtLastNode(node: nat, matchType: MatchType, includeLessSpecifics: bool, includeMoreSpecifics: bool,
                      nibble: nat, nibbleLen: nat, idx: Option<nat>, found: Option<NodeId>, ghost level: nat,
                      ghost k: seq<bool>)
      returns (matchIdx: Option<nat>, moreSpecifics: Option<seq<NodeId>>)
      requires Valid() && StopsAt(trie, node, level, k, nibbleLen)
      requires nibble == Val(Cut(k, Offset(strides, level), nibbleLen)) && node < |trie.views|
      requires if matchType.ExactMatch? then idx == None else Best(trie.keys, k, Offset(strides, level), idx)
      requires Reports(trie, node, level, k, nibbleLen, matchType, includeLessSpecifics, found)
      ensures FoundIndex(trie, k, matchType, includeLessSpecifics, matchIdx)
      ensures includeMoreSpecifics ==> FoundMore(trie, k, matchType, includeLessSpecifics, moreSpecifics)
    {
      hide StoreOk, Val, StopsAt, Best, Reports, FoundIndex, FoundMore, CollectsMore, AllMoreSpecific, IsMoreSpecific;
      ValidParts();
      hide Inv;
      EndsWith(trie, node, level, k, nibbleLen, matchType, includeLessSpecifics, idx, found);
      matchIdx := if found.Some? then Some(found.value.part) else idx;
      moreSpecifics := if includeMoreSpecifics then Some([]) else None;
      if found.Some? {
        if includeMoreSpecifics {
          var more := GetAllMoreSpecificsFromNibble(node, nibble, nibbleLen, level, k);
          MoreIsFound(trie, k, matchType, includeLessSpecifics, more);
          moreSpecifics := Some(more);
        }
      } else {
        match matchType
        case EmptyMatch =>
          var more := GetAllMoreSpecificsFromNibble(node, nibble, nibbleLen, level, k);
          EmptyCollects(trie, k, includeLessSpecifics);
          MoreIsFound(trie, k, matchType, includeLessSpecifics, more);
          moreSpecifics := Some(more);
          matchIdx := None;
        case LongestMatch =>
          NoneIsFound(trie, k, matchType, includeLessSpecifics);
        case ExactMatch =>
          NoneIsFound(trie, k, matchType, includeLessSpecifics);
          matchIdx := None;
      }
    }

    /** Follows the strides down to the node where the search ends. */
    method SearchStrides(s: PrefixId, matchType: MatchType, includeLessSpecifics: bool, includeMoreSpecifics: bool)
      returns (matchIdx: Option<nat>, lessSpecifics: Option<seq<NodeId>>, moreSpecifics: Option<seq<NodeId>>)
      requires Valid() && s.len <= bits && Canonical(bits, s)
      ensures FoundIndex(trie, Key(bits, s), matchType, includeLessSpecifics, matchIdx)
      ensures lessSpecifics.Some? <==> includeLessSpecifics
      ensures includeLessSpecifics ==> CollectedLess(trie, Key(bits, s), matchType, lessSpecifics.value)
      ensures includeMoreSpecifics ==> FoundMore(trie, Key(bits, s), matchType, includeLessSpecifics, moreSpecifics)
    {
      hide KeysMatch, Val, GetNibble, Key, Best, StopsAt, EmptyNode, TruncateToLen, Reports, Cut, Collects,
           CollectedAbove, CollectedLess, FoundIndex, CollectsMore, AllMoreSpecific, IsMoreSpecific, Inv, NodesSeen,
           Live, FoundMore, StoreOk, OnPath, AcceptedStrides;
      ghost var k := Key(bits, s);
      var strideEnd, node, level := 0, 0, 0;
      ValidParts();
      matchIdx := None;
      lessSpecifics := if includeLessSpecifics then Some([]) else None;
      moreSpecifics := None;
      RootOnPath(trie, k);
      PathBounds(trie, 0, 0, k);
      NothingYet(trie.keys, k);
      NothingCollected(trie, k, matchType);
      assert Parts([]) == [];
      while level < |strides|
        invariant level < |strides| && OnPath(trie, node, level, k) && strideEnd == Offset(strides, level)
        invariant if matchType.ExactMatch? then matchIdx == None else Best(trie.keys, k, strideEnd, matchIdx)
        invariant lessSpecifics.Some? <==> includeLessSpecifics
        invariant includeLessSpecifics ==> CollectedAbove(trie, k, level, matchType, Parts(lessSpecifics.value))
      {
        PathBounds(trie, node, level, k);
        var stride := strides[level];
        strideEnd := strideEnd + stride;
        var lastStride := s.len < strideEnd;
        var nibbleLen := if lastStride then stride + s.len - strideEnd else stride;
        StrideWithin(bits, strides, level);
        var nibble := GetNibble(bits, s.net, strideEnd - stride, nibbleLen);
        NibbleOfKey(bits, s, strideEnd - stride, nibbleLen);
        ghost var before := lessSpecifics;
        var child, found;
        child, found, lessSpecifics := SearchNode(node, s, matchType, nibble, nibbleLen, strideEnd - stride,
                                                  lessSpecifics, level);
        // A child comes only before the last stride, so the source's exits from this branch are never taken.
        if child.Some? {
          GoesOn(trie, node, level, k, matchType, includeLessSpecifics, matchIdx, found);
          if includeLessSpecifics {
            CollectedOn(trie, node, level, k, matchType, Parts(before.value), Parts(lessSpecifics.value));
          }
          matchIdx := if found.Some? then Some(found.value.part) else matchIdx;
          node, level := child.value.part, level + 1;
          PathBounds(trie, node, level, k);
        } else {
          SearchStops(trie, node, level, k, nibbleLen);
          if includeLessSpecifics {
            CollectedAtEnd(trie, node, level, k, nibbleLen, matchType, Parts(before.value), lessSpecifics.value);
          }
          matchIdx, moreSpecifics := AtLastNode(node, matchType, includeLessSpecifics, includeMoreSpecifics, nibble,
                                                nibbleLen, matchIdx, found, level, k);
          return;
        }
      }
    }

    /** Finds a prefix and, if asked, the stored prefixes less and more specific than the one searched for. */
    method MatchPrefix(s: PrefixId, matchType: MatchType, includeLessSpecifics: bool, includeMoreSpecifics: bool)
      returns (r: QueryResult<M>)
      requires Valid() && s.len <= bits && Canonical(bits, s)
      ensures OffsetsWithin(bits, strides) && |strides| > 0
      ensures MatchesPrefix(bits, strides, Contents(), s, matchType, includeLessSpecifics, r.prefix, r.matchType)
      ensures r.lessSpecifics.Some? <==> includeLessSpecifics
      ensures includeLessSpecifics ==> MatchesLess(bits, strides, Contents(), s, matchType, r.lessSpecifics.value)
      ensures r.moreSpecifics.Some? <==> includeMoreSpecifics
      ensures includeMoreSpecifics ==>
        MatchesMore(bits, strides, Contents(), s, matchType, includeLessSpecifics, r.moreSpecifics.value)
    {
      hide Inv, NodesSeen, KeysMatch, Key, TruncateToLen, Live, FoundIndex, FoundMore, MatchesMore, MatchesPrefix,
           MatchesLess, CollectedLess;
      var matchIdx, lessIds, moreIds := SearchStrides(s, matchType, includeLessSpecifics, includeMoreSpecifics);
      var prefix, resultType := None, MatchType.EmptyMatch;
      PrefixAnswers(bits, nodes, prefixes, trie, s, matchType, includeLessSpecifics, matchIdx);
      if matchIdx.Some? {
        prefix := Some(prefixes[matchIdx.value]);
        resultType := if prefix.value.id.len == s.len then MatchType.ExactMatch else MatchType.LongestMatch;
      }
      var less, more := None, None;
      if includeLessSpecifics {
        LessAnswered(bits, prefixes, trie, s, matchType, lessIds.value);
        less := Some(Fetch(prefixes, lessIds.value));
      }
      if includeMoreSpecifics {
        MoreAnswers(bits, nodes, prefixes, trie, s, matchType, includeLessSpecifics, moreIds);
        more := Some(Fetch(prefixes, moreIds.value));
      }
      r := QueryResult(prefix, resultType, less, more);
    }
  }

  /** A new tree for a stride list, if the list fits the address width. */
  method NewTree<M>(bits: nat, list: seq<nat>, merge: (M, M) -> M) returns (r: Option<TreeBitMap<M>>)
    requires bits > 0 && forall d :: 0 <= d < |list| ==> IsStride(list[d])
    ensures r.Some? <==> list != [] && exists k :: CycleSum(list, k) == bits
    ensures r.Some? ==> fresh(r.value) && r.value.Valid() && r.value.Contents() == map[]
    ensures r.Some? ==>
      r.value.bits == bits && r.value.merge == merge && |r.value.nodes| == 1 && |r.value.prefixes| == 0
    ensures r.Some? ==> AcceptedStrides(bits, r.value.strides)
    ensures r.Some? ==> forall i :: 0 <= i < |r.value.strides| ==> r.value.strides[i] == list[i % |list|]
  {
    hide Pow2, KidsOk, ParentOk, PfxsOk, HostOk, NodesSeen, Live;
    var strides := CycleStrides(bits, list);
    if strides.None? { return None; }
    var tree := new TreeBitMap<M>(bits, strides.value, merge);
    return Some(tree);
  }

  /** Whole runs: a fresh tree after any inserts, in order, holds what the run of inserts amounts to. */
  method InsertAll<M>(tree: TreeBitMap<M>, inserts: seq<Record<M>>)
    requires tree.Valid() && tree.Contents() == map[] && |tree.nodes| == 1 && |tree.prefixes| == 0
    requires forall i :: 0 <= i < |inserts| ==> inserts[i].id.len <= tree.bits && Canonical(tree.bits, inserts[i].id)
    requires 1 + |tree.strides| * (|Run(inserts, tree.merge)| + 1) < 0x1_0000_0000
    modifies tree
    ensures tree.Valid() && tree.Contents() == Run(inserts, tree.merge)
  {
    hide StoreOk, AsMap, Live, Canonical, TruncateToLen, Upserted;
    HasStrides(tree);
    assert inserts[..0] == [];
    for i := 0 to |inserts|
      invariant tree.Valid() && tree.Contents() == Run(inserts[..i], tree.merge)
      invariant |tree.nodes| <= 1 + |tree.strides| * |Run(inserts[..i], tree.merge)|
      invariant |tree.prefixes| <= |Run(inserts[..i], tree.merge)|
    {
      ghost var known := |Run(inserts[..i], tree.merge)|;
      RunStep(inserts, i, tree.merge);
      RunGrows(inserts, i, tree.merge);
      Room(|tree.strides|, known, |Run(inserts, tree.merge)|);
      Room(|tree.strides|, known, known + 1);
      tree.Insert(inserts[i]);
    }
    assert inserts[..|inserts|] == inserts;
  }

  lemma HasStrides<M>(tree: TreeBitMap<M>)
    requires tree.Valid()
    ensures |tree.strides| > 0
  {
    hide Inv, NodesSeen, KeysMatch, Live;
  }

  lemma Room(n: nat, i: nat, all: nat)
    requires i <= all
    ensures n * i + n == n * (i + 1) <= n * (all + 1)
    ensures n > 0 ==> all <= n * all
  {
  }
}
