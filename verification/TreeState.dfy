/** The two arenas of the single-threaded tree bitmap, and the trie they stand for. */
module TreeState {
  import opened Wrappers
  import opened Af
  import opened Bits
  import opened Records
  import opened Stride
  import opened Rank
  import opened Nodes
  import opened TreeShape

  /** An arena index is kept in 32 bits. */
  const ARENA_LIMIT: nat := 0x1_0000_0000

  // ----- Stride lists -----------------------------------------------------------

  ghost predicate AcceptedStrides(bits: nat, strides: seq<nat>) {
    && bits > 0
    && (forall d :: 0 <= d < |strides| ==> IsStride(strides[d]))
    && Offset(strides, |strides|) == bits
  }

  lemma AcceptedIsGood(bits: nat, strides: seq<nat>)
    requires AcceptedStrides(bits, strides)
    ensures GoodStrides(strides)
  {
    if |strides| == 0 { assert Offset(strides, 0) == 0; }
  }

  /** The sum of the first k elements of the list repeated for ever. */
  function CycleSum(list: seq<nat>, k: nat): nat
    requires |list| > 0
  {
    if k == 0 then 0 else CycleSum(list, k - 1) + list[(k - 1) % |list|]
  }

  lemma {:induction false} CycleSumMono(list: seq<nat>, i: nat, j: nat)
    requires |list| > 0 && i <= j && forall d :: 0 <= d < |list| ==> IsStride(list[d])
    ensures CycleSum(list, i) <= CycleSum(list, j)
    ensures i < j ==> CycleSum(list, i) + 3 <= CycleSum(list, j)
    decreases j
  {
    if i < j { CycleSumMono(list, i, j - 1); }
  }

  lemma OffsetAppend(strides: seq<nat>, s: nat)
    ensures Offset(strides + [s], |strides| + 1) == Offset(strides, |strides|) + s
  {
    OffsetPrefix(strides, [s], |strides|);
  }

  lemma {:induction false} OffsetPrefix(strides: seq<nat>, more: seq<nat>, k: nat)
    requires k <= |strides|
    ensures Offset(strides + more, k) == Offset(strides, k)
  {
    if k > 0 { OffsetPrefix(strides, more, k - 1); }
  }

  // ----- Records -----------------------------------------------------------------

  ghost predicate DistinctIds<M>(prefixes: seq<Record<M>>) {
    forall r, s :: 0 <= r < s < |prefixes| ==> prefixes[r].id != prefixes[s].id
  }

  /** The map a list of records stands for. */
  ghost function AsMap<M>(prefixes: seq<Record<M>>): (m: map<PrefixId, M>)
    requires DistinctIds(prefixes)
  {
    map r | 0 <= r < |prefixes| :: prefixes[r].id := prefixes[r].meta
  }

  /** One record per key of the trie. */
  ghost predicate KeysMatch<M>(bits: nat, prefixes: seq<Record<M>>, keys: seq<seq<bool>>) {
    && |prefixes| == |keys|
    && forall r :: 0 <= r < |prefixes| ==> Canonical(bits, prefixes[r].id) && Key(bits, prefixes[r].id) == keys[r]
  }

  lemma KeyOfRecord<M>(bits: nat, prefixes: seq<Record<M>>, keys: seq<seq<bool>>, id: PrefixId)
    requires KeysMatch(bits, prefixes, keys) && DistinctIds(prefixes) && Canonical(bits, id)
    ensures id in AsMap(prefixes) <==> Key(bits, id) in keys
    ensures forall r :: 0 <= r < |keys| && keys[r] == Key(bits, id) ==>
      prefixes[r].id == id && AsMap(prefixes)[id] == prefixes[r].meta
  {
    forall r | 0 <= r < |keys| && keys[r] == Key(bits, id)
      ensures prefixes[r].id == id
    {
      KeyInjective(bits, prefixes[r].id, id);
    }
    if Key(bits, id) in keys {
      var r :| 0 <= r < |keys| && keys[r] == Key(bits, id);
      assert prefixes[r].id == id;
    }
  }

  lemma AsMapUpdate<M>(prefixes: seq<Record<M>>, r: nat, meta: M)
    requires DistinctIds(prefixes) && r < |prefixes|
    ensures DistinctIds(prefixes[r := prefixes[r].(meta := meta)])
    ensures AsMap(prefixes[r := prefixes[r].(meta := meta)]) == AsMap(prefixes)[prefixes[r].id := meta]
  {
    var prefixes' := prefixes[r := prefixes[r].(meta := meta)];
    assert forall q :: 0 <= q < |prefixes| ==> prefixes'[q].id == prefixes[q].id;
    assert DistinctIds(prefixes');
    var m, m' := AsMap(prefixes)[prefixes[r].id := meta], AsMap(prefixes');
    forall id
      ensures id in m' <==> id in m
      ensures id in m' ==> m'[id] == m[id]
    {
      if q :| 0 <= q < |prefixes| && prefixes[q].id == id {
        assert prefixes'[q].id == id;
      }
    }
  }

  lemma AsMapPush<M>(prefixes: seq<Record<M>>, rec: Record<M>)
    requires DistinctIds(prefixes) && DistinctIds(prefixes + [rec])
    ensures rec.id !in AsMap(prefixes)
    ensures AsMap(prefixes + [rec]) == AsMap(prefixes)[rec.id := rec.meta]
  {
    var all := prefixes + [rec];
    assert all[|prefixes|] == rec;
    forall r | 0 <= r < |prefixes|
      ensures all[r] == prefixes[r] && prefixes[r].id != rec.id
    {
      assert all[r].id != all[|prefixes|].id;
    }
    assert AsMap(all).Keys == AsMap(prefixes)[rec.id := rec.meta].Keys;
  }

  /** As many records as distinct prefixes. */
  lemma {:induction false} RecordCount<M>(prefixes: seq<Record<M>>)
    requires DistinctIds(prefixes)
    ensures |AsMap(prefixes)| == |prefixes|
  {
    if |prefixes| > 0 {
      var rest, last := prefixes[..|prefixes| - 1], prefixes[|prefixes| - 1];
      assert prefixes == rest + [last];
      RecordCount(rest);
      AsMapPush(rest, last);
    }
  }

  // ----- References held by the nodes ------------------------------------------------

  function ChildRefs(nodes: seq<TreeNode>): nat {
    if nodes == [] then 0 else ChildRefs(nodes[..|nodes| - 1]) + |nodes[|nodes| - 1].ptrVec|
  }

  function PrefixRefs(nodes: seq<TreeNode>): nat {
    if nodes == [] then 0 else PrefixRefs(nodes[..|nodes| - 1]) + |nodes[|nodes| - 1].pfxVec|
  }

  lemma {:induction false} RefsUpdate(nodes: seq<TreeNode>, i: nat, n: TreeNode)
    requires i < |nodes|
    ensures ChildRefs(nodes[i := n]) == ChildRefs(nodes) - |nodes[i].ptrVec| + |n.ptrVec|
    ensures PrefixRefs(nodes[i := n]) == PrefixRefs(nodes) - |nodes[i].pfxVec| + |n.pfxVec|
  {
    var m := |nodes| - 1;
    if i < m {
      RefsUpdate(nodes[..m], i, n);
      assert nodes[i := n][..m] == nodes[..m][i := n];
    } else {
      assert nodes[i := n][..m] == nodes[..m];
    }
  }

  lemma RefsPush(nodes: seq<TreeNode>, n: TreeNode)
    ensures ChildRefs(nodes + [n]) == ChildRefs(nodes) + |n.ptrVec|
    ensures PrefixRefs(nodes + [n]) == PrefixRefs(nodes) + |n.pfxVec|
  {
    assert (nodes + [n])[..|nodes|] == nodes;
  }

  // ----- The invariant of the store ----------------------------------------------------

  ghost predicate NodesSeen(nodes: seq<TreeNode>, views: seq<View>) {
    && |nodes| == |views|
    && forall i {:trigger Sees(nodes[i], views[i])} :: 0 <= i < |nodes| ==> Sees(nodes[i], views[i])
  }

  /** Bitmaps, vectors and arenas agree, and stand for the trie t. */
  ghost predicate StoreOk<M>(bits: nat, strides: seq<nat>, nodes: seq<TreeNode>, prefixes: seq<Record<M>>, t: Trie) {
    && AcceptedStrides(bits, strides)
    && t.strides == strides
    && Inv(t)
    && NodesSeen(nodes, t.views)
    && KeysMatch(bits, prefixes, t.keys)
    && DistinctIds(prefixes)
    && |nodes| == 1 + ChildRefs(nodes)
    && |prefixes| == PrefixRefs(nodes)
  }

  lemma FreshStore<M>(bits: nat, strides: seq<nat>)
    requires AcceptedStrides(bits, strides)
    ensures |strides| > 0
    ensures StoreOk<M>(bits, strides, [EmptyNode(strides[0])], [],
      Trie(strides, [EmptyView(strides[0])], [NodePlace([], 0, 0)], [], []))
  {
    AcceptedIsGood(bits, strides);
    InitialInv(strides);
    EmptyNodeSeesNothing(strides[0]);
    RefsPush([], EmptyNode(strides[0]));
    assert [] + [EmptyNode(strides[0])] == [EmptyNode(strides[0])];
  }

  /** Handing a node its new child keeps the invariant. */
  lemma StoreWithNode<M>(bits: nat, nodes: seq<TreeNode>, prefixes: seq<Record<M>>, t: Trie, i: nat, b: seq<bool>,
                         n: TreeNode)
    requires StoreOk(bits, t.strides, nodes, prefixes, t)
    requires i < |nodes| && |b| == t.views[i].stride && b !in t.views[i].kids
    requires t.places[i].depth + 1 < |t.strides|
    requires Sees(n, t.views[i].(kids := t.views[i].kids[b := |nodes|]))
    requires |n.ptrVec| == |nodes[i].ptrVec| + 1 && n.pfxVec == nodes[i].pfxVec
    ensures StoreOk(bits, t.strides, nodes[i := n] + [EmptyNode(t.strides[t.places[i].depth + 1])], prefixes,
      WithNode(t, i, b))
  {
    hide Sees, KeysMatch, DistinctIds, Zero, Pow2;
    var next := EmptyNode(t.strides[t.places[i].depth + 1]);
    WithNodeInv(t, i, b);
    EmptyNodeSeesNothing(t.strides[t.places[i].depth + 1]);
    RefsUpdate(nodes, i, n);
    RefsPush(nodes[i := n], next);
    NodesSeenUpdate(nodes, t.views, i, n, t.views[i].(kids := t.views[i].kids[b := |nodes|]));
    NodesSeenPush(nodes[i := n], WithNode(t, i, b).views[..|nodes|], next, EmptyView(t.strides[t.places[i].depth + 1]));
  }

  lemma NodesSeenUpdate(nodes: seq<TreeNode>, views: seq<View>, i: nat, n: TreeNode, v: View)
    requires NodesSeen(nodes, views) && i < |nodes| && Sees(n, v)
    ensures NodesSeen(nodes[i := n], views[i := v])
  {
    var nodes', views' := nodes[i := n], views[i := v];
    forall j | 0 <= j < |nodes'|
      ensures Sees(nodes'[j], views'[j])
    {
      if j != i { assert Sees(nodes[j], views[j]); }
    }
  }

  lemma NodesSeenPush(nodes: seq<TreeNode>, views: seq<View>, n: TreeNode, v: View)
    requires NodesSeen(nodes, views) && Sees(n, v)
    ensures NodesSeen(nodes + [n], views + [v])
  {
    var nodes', views' := nodes + [n], views + [v];
    forall j | 0 <= j < |nodes'|
      ensures Sees(nodes'[j], views'[j])
    {
      if j < |nodes| { assert Sees(nodes[j], views[j]); }
    }
  }

  /** Storing a record together with its entry at the hosting node keeps the invariant. */
  lemma StoreWithPrefix<M>(bits: nat, nodes: seq<TreeNode>, prefixes: seq<Record<M>>, t: Trie, i: nat, b: seq<bool>,
                           n: TreeNode, rec: Record<M>)
    requires StoreOk(bits, t.strides, nodes, prefixes, t)
    requires i < |nodes| && |b| <= t.views[i].stride && b !in t.views[i].pfxs && (|b| > 0 || i == 0)
    requires Sees(n, t.views[i].(pfxs := t.views[i].pfxs[b := |prefixes|]))
    requires |n.pfxVec| == |nodes[i].pfxVec| + 1 && n.ptrVec == nodes[i].ptrVec
    requires Canonical(bits, rec.id) && Key(bits, rec.id) == t.places[i].path + b
    ensures StoreOk(bits, t.strides, nodes[i := n], prefixes + [rec], WithPrefix(t, i, b))
    ensures rec.id !in AsMap(prefixes)
    ensures AsMap(prefixes + [rec]) == AsMap(prefixes)[rec.id := rec.meta]
  {
    WithPrefixInv(t, i, b);
    RefsUpdate(nodes, i, n);
    NodesSeenUpdate(nodes, t.views, i, n, t.views[i].(pfxs := t.views[i].pfxs[b := |prefixes|]));
    assert KeysMatch(bits, prefixes + [rec], WithPrefix(t, i, b).keys);
    StillDistinct(bits, prefixes, rec, WithPrefix(t, i, b));
    AsMapPush(prefixes, rec);
  }

  lemma StillDistinct<M>(bits: nat, prefixes: seq<Record<M>>, rec: Record<M>, t: Trie)
    requires DistinctIds(prefixes) && Inv(t) && KeysMatch(bits, prefixes + [rec], t.keys)
    ensures DistinctIds(prefixes + [rec])
  {
    var all := prefixes + [rec];
    forall r | 0 <= r < |prefixes|
      ensures prefixes[r].id != rec.id
    {
      assert all[r] == prefixes[r] && all[|prefixes|] == rec;
      if prefixes[r].id == rec.id { KeysDistinct(t, r, |prefixes|); }
    }
  }

  /** Changing the metadata of a record keeps the invariant. */
  lemma StoreWithMeta<M>(bits: nat, nodes: seq<TreeNode>, prefixes: seq<Record<M>>, t: Trie, r: nat, meta: M)
    requires StoreOk(bits, t.strides, nodes, prefixes, t) && r < |prefixes|
    ensures StoreOk(bits, t.strides, nodes, prefixes[r := prefixes[r].(meta := meta)], t)
    ensures AsMap(prefixes[r := prefixes[r].(meta := meta)]) == AsMap(prefixes)[prefixes[r].id := meta]
  {
    AsMapUpdate(prefixes, r, meta);
  }

  // ----- On the path of a key --------------------------------------------------------------

  /** Node i stands for the first bits of key k, up to the given level. */
  ghost predicate OnPath(t: Trie, i: nat, level: nat, k: seq<bool>) {
    && level < |t.strides| && i < |t.places|
    && Offset(t.strides, level) <= |k|
    && t.places[i].path == k[..Offset(t.strides, level)]
    && t.places[i].depth == level
    && (level > 0 ==> Offset(t.strides, level) < |k|)
  }

  lemma RootOnPath(t: Trie, k: seq<bool>)
    requires Inv(t)
    ensures OnPath(t, 0, 0, k)
  {
    assert k[..0] == [];
  }

  /** The node on the path is the one that hosts the cuts of the key within its stride. */
  lemma OnPathHosts(t: Trie, i: nat, level: nat, k: seq<bool>, len: nat)
    requires Inv(t) && OnPath(t, i, level, k)
    requires Offset(t.strides, level) + len <= |k| && len <= t.strides[level]
    requires len > 0 || level == 0
    ensures t.views[i].stride == t.strides[level]
    ensures Hosts(t, i, k[..Offset(t.strides, level) + len])
    ensures k[..Offset(t.strides, level) + len][|t.places[i].path|..] == Cut(k, Offset(t.strides, level), len)
    ensures k[..Offset(t.strides, level) + len] == t.places[i].path + Cut(k, Offset(t.strides, level), len)
  {
    assert PlaceOk(t, i);
    if level == 0 { RootByDepth(t, i); }
  }

  lemma RootByDepth(t: Trie, i: nat)
    requires Inv(t) && i < |t.views| && t.places[i].depth == 0
    ensures i == 0
  {
    assert ParentOk(t, i);
  }

  /** A child at the key's full nibble is the next node on the path. */
  lemma ChildOnPath(t: Trie, i: nat, level: nat, k: seq<bool>)
    requires Inv(t) && OnPath(t, i, level, k) && Offset(t.strides, level) + t.strides[level] < |k|
    requires Cut(k, Offset(t.strides, level), t.strides[level]) in t.views[i].kids
    ensures OnPath(t, t.views[i].kids[Cut(k, Offset(t.strides, level), t.strides[level])], level + 1, k)
    ensures t.views[i].kids[Cut(k, Offset(t.strides, level), t.strides[level])] < |t.views|
  {
    hide ParentOk, PfxsOk, HostOk, Cut;
    var c := t.views[i].kids[Cut(k, Offset(t.strides, level), t.strides[level])];
    assert KidsOk(t, i);
    assert PlaceOk(t, c);
    CutAppends(k, Offset(t.strides, level), t.strides[level]);
  }

  /** The entry that the node holds for a cut of the key. */
  lemma CutEntry(t: Trie, i: nat, level: nat, k: seq<bool>, len: nat, r: nat)
    requires Inv(t) && OnPath(t, i, level, k)
    requires Offset(t.strides, level) + len <= |k| && len <= t.strides[level]
    requires len > 0 || level == 0
    ensures var b := Cut(k, Offset(t.strides, level), len);
      (r < |t.keys| && t.keys[r] == k[..Offset(t.strides, level) + len]) <==>
        (b in t.views[i].pfxs && t.views[i].pfxs[b] == r)
  {
    OnPathHosts(t, i, level, k, len);
    StoredAtHost(t, i, k[..Offset(t.strides, level) + len], r);
  }

  // ----- The best cover so far -----------------------------------------------------------

  /** Record r's key covers k, is not empty, and is at most `limit` long. */
  ghost predicate Candidate(keys: seq<seq<bool>>, k: seq<bool>, limit: nat, r: nat) {
    r < |keys| && keys[r] <= k && 1 <= |keys[r]| <= limit
  }

  /** idx is the longest candidate. */
  ghost predicate Best(keys: seq<seq<bool>>, k: seq<bool>, limit: nat, idx: Option<nat>) {
    && (idx.Some? ==> Candidate(keys, k, limit, idx.value))
    && forall r: nat :: Candidate(keys, k, limit, r) ==> idx.Some? && |keys[r]| <= |keys[idx.value]|
  }

  /** What the node on the path adds to the best cover. */
  lemma BestStep(t: Trie, i: nat, level: nat, k: seq<bool>, len: nat, idx: Option<nat>, idx': Option<nat>)
    requires Inv(t) && OnPath(t, i, level, k)
    requires Offset(t.strides, level) + len <= |k| && len <= t.strides[level]
    requires Best(t.keys, k, Offset(t.strides, level), idx)
    requires var l := LongestIn(t.views[i], k, Offset(t.strides, level), len);
      idx' == if l == 0 then idx else Some(t.views[i].pfxs[Cut(k, Offset(t.strides, level), l)])
    ensures Best(t.keys, k, Offset(t.strides, level) + len, idx')
  {
    var start := Offset(t.strides, level);
    var l := LongestIn(t.views[i], k, start, len);
    LongestInIsLongest(t.views[i], k, start, len);
    if l > 0 { CutEntry(t, i, level, k, l, idx'.value); }
    forall r: nat | Candidate(t.keys, k, start + len, r)
      ensures idx'.Some? && |t.keys[r]| <= |t.keys[idx'.value]|
    {
      if |t.keys[r]| <= start {
        assert Candidate(t.keys, k, start, r);
      } else {
        var m := |t.keys[r]| - start;
        CutEntry(t, i, level, k, m, r);
        assert Cut(k, start, m) in t.views[i].pfxs;
      }
    }
  }

  /** Without a child at the key's full nibble, no longer candidate is stored. */
  lemma BestStop(t: Trie, i: nat, level: nat, k: seq<bool>, idx: Option<nat>)
    requires Inv(t) && OnPath(t, i, level, k) && Offset(t.strides, level) + t.strides[level] < |k|
    requires Cut(k, Offset(t.strides, level), t.strides[level]) !in t.views[i].kids
    requires Best(t.keys, k, Offset(t.strides, level) + t.strides[level], idx)
    ensures Best(t.keys, k, |k|, idx)
  {
    var end := Offset(t.strides, level) + t.strides[level];
    forall r: nat | Candidate(t.keys, k, |k|, r)
      ensures Candidate(t.keys, k, end, r)
    {
      if |t.keys[r]| > end {
        var b := Cut(k, Offset(t.strides, level), t.strides[level]);
        assert PlaceOk(t, i);
        assert t.places[i].path + b == k[..end] == t.keys[r][..end];
        NothingBelow(t, i, b, r);
      }
    }
  }

  // ----- What the queries promise ------------------------------------------------------------

  lemma BestIsLongestMatch<M>(bits: nat, prefixes: seq<Record<M>>, keys: seq<seq<bool>>, s: PrefixId, idx: Option<nat>)
    requires KeysMatch(bits, prefixes, keys) && DistinctIds(prefixes) && Canonical(bits, s)
    requires Best(keys, Key(bits, s), s.len, idx)
    ensures idx.Some? ==> idx.value < |prefixes|
    ensures IsLongestMatch(bits, AsMap(prefixes), s, if idx.Some? then Some(prefixes[idx.value].id) else None)
  {
    forall r | 0 <= r < |prefixes|
      ensures Covers(bits, prefixes[r].id, s) <==> keys[r] <= Key(bits, s)
      ensures Covers(bits, prefixes[r].id, s) && 1 <= prefixes[r].id.len ==> Candidate(keys, Key(bits, s), s.len, r)
    {
      CoversIsPrefixOrder(bits, prefixes[r].id, s);
    }
  }

  // ----- The arena, node by node ------------------------------------------------------------

  /** Both vectors of a node are strictly sorted, and have one entry per set bit. */
  ghost predicate VectorsMatchBitmaps(n: TreeNode) {
    && Shaped(n)
    && StrictlySorted(n.ptrVec) && |n.ptrVec| == Count(PtrBits(n))
    && StrictlySorted(n.pfxVec) && |n.pfxVec| == Count(PfxBits(n))
  }

  /** Child c is the entry of node p at the nibble b, whose pointer bit is set. */
  ghost predicate IsParent(nodes: seq<TreeNode>, p: nat, b: seq<bool>, c: nat) {
    && p < |nodes| && WellFormed(nodes[p])
    && HasChild(nodes[p], b) && ChildAt(nodes[p], b) == c
  }

  lemma VectorsMatch(n: TreeNode, v: View)
    requires Sees(n, v)
    ensures VectorsMatchBitmaps(n)
  {
    DenseIsSorted(PtrBits(n), n.ptrVec, PtrWidth(n.stride) - 1);
    DenseIsSorted(PfxBits(n), n.pfxVec, 1);
  }

  lemma IsParentInView(nodes: seq<TreeNode>, views: seq<View>, p: nat, b: seq<bool>, c: nat)
    requires NodesSeen(nodes, views) && p < |nodes|
    ensures IsParent(nodes, p, b, c) <==> (b in views[p].kids && views[p].kids[b] == c)
  {
    assert Sees(nodes[p], views[p]);
    assert SeesChildren(nodes[p], views[p].kids);
  }

  /** Every node but the root has one parent, at one nibble, and that parent has a smaller index. */
  lemma OneParent<M>(bits: nat, nodes: seq<TreeNode>, prefixes: seq<Record<M>>, t: Trie, c: nat) returns (p: nat,
                     b: seq<bool>)
    requires StoreOk(bits, t.strides, nodes, prefixes, t) && 0 < c < |nodes|
    ensures p < c && IsParent(nodes, p, b, c)
    ensures forall p': nat, b' :: IsParent(nodes, p', b', c) ==> p' == p && b' == b
  {
    hide IsParent, Sees;
    p, b := ParentPlace(t, c);
    IsParentInView(nodes, t.views, p, b, c);
    forall p': nat, b' | IsParent(nodes, p', b', c)
      ensures p' == p && b' == b
    {
      ParentInRange(nodes, p', b', c);
      IsParentInView(nodes, t.views, p', b', c);
      SameParent(t, p, b, p', b', c);
    }
  }

  lemma ParentInRange(nodes: seq<TreeNode>, p: nat, b: seq<bool>, c: nat)
    requires IsParent(nodes, p, b, c)
    ensures p < |nodes|
  {
  }

  lemma SameParent(t: Trie, p: nat, b: seq<bool>, p': nat, b': seq<bool>, c: nat)
    requires Inv(t) && p < |t.views| && p' < |t.views|
    requires b in t.views[p].kids && t.views[p].kids[b] == c
    requires b' in t.views[p'].kids && t.views[p'].kids[b'] == c
    ensures p' == p && b' == b
  {
    assert KidsOk(t, p) && KidsOk(t, p');
    assert t.places[c].path == t.places[p].path + b;
    assert t.places[c].path == t.places[p'].path + b';
    assert (t.places[p].path + b)[|t.places[p].path|..] == b;
  }

  /** What every step of an insertion keeps, in terms of the two arenas. */
  lemma ArenaInvariant<M>(bits: nat, nodes: seq<TreeNode>, prefixes: seq<Record<M>>, t: Trie)
    requires StoreOk(bits, t.strides, nodes, prefixes, t)
    ensures forall i :: 0 <= i < |nodes| ==> VectorsMatchBitmaps(nodes[i])
    ensures forall i :: 0 <= i < |nodes| ==>
      t.places[i].depth < |t.strides| && nodes[i].stride == t.strides[t.places[i].depth]
    ensures |nodes| == 1 + ChildRefs(nodes)
    ensures |prefixes| == PrefixRefs(nodes) == |AsMap(prefixes)|
  {
    hide VectorsMatchBitmaps, WellFormed;
    RecordCount(prefixes);
    forall i | 0 <= i < |nodes|
      ensures VectorsMatchBitmaps(nodes[i])
      ensures t.places[i].depth < |t.strides| && nodes[i].stride == t.strides[t.places[i].depth]
    {
      assert Sees(nodes[i], t.views[i]);
      VectorsMatch(nodes[i], t.views[i]);
      assert PlaceOk(t, i);
    }
  }
}
