/**
 * The tree bitmap as a trie: which bit strings its nodes and prefixes stand for.
 * Every node is seen as two finite maps from nibbles to global indices.
 */
module TreeShape {
  import opened Af

  type Bits = seq<bool>

  /** A node: its children and the prefixes it hosts, by nibble. */
  datatype View = View(stride: nat, kids: imap<Bits, nat>, pfxs: imap<Bits, nat>)

  /** Where a node stands: the address bits above it, its depth, and its parent's index. */
  datatype NodePlace = NodePlace(path: Bits, depth: nat, parent: nat)

  datatype Trie = Trie(
    strides: seq<nat>,
    views: seq<View>,
    places: seq<NodePlace>,
    keys: seq<Bits>,    // the network bits of every stored prefix
    hosts: seq<nat>)    // the node that hosts it

  function EmptyView(stride: nat): View {
    View(stride, imap[], imap[])
  }

  ghost predicate GoodStrides(strides: seq<nat>) {
    |strides| > 0 && forall d :: 0 <= d < |strides| ==> strides[d] > 0
  }

  ghost predicate PlaceOk(t: Trie, i: nat)
    requires i < |t.views| == |t.places|
  {
    var p := t.places[i];
    && p.depth < |t.strides|
    && |p.path| == Offset(t.strides, p.depth)
    && t.views[i].stride == t.strides[p.depth]
  }

  /** Children have larger indices, and stand one nibble below. */
  ghost predicate KidsOk(t: Trie, i: nat)
    requires i < |t.views| == |t.places|
  {
    forall b :: b in t.views[i].kids ==>
      var c := t.views[i].kids[b];
      && |b| == t.views[i].stride
      && i < c < |t.views|
      && t.places[c] == NodePlace(t.places[i].path + b, t.places[i].depth + 1, i)
  }

  /** Every node but the root is the child that its place says. */
  ghost predicate ParentOk(t: Trie, c: nat)
    requires c < |t.views| == |t.places|
  {
    var p := t.places[c];
    c > 0 ==>
      && p.parent < c
      && p.depth > 0
      && t.places[p.parent].path <= p.path
      && var b := p.path[|t.places[p.parent].path|..];
         b in t.views[p.parent].kids && t.views[p.parent].kids[b] == c
  }

  ghost predicate PfxsOk(t: Trie, i: nat)
    requires i < |t.views| == |t.places| && |t.keys| == |t.hosts|
  {
    forall b :: b in t.views[i].pfxs ==>
      var r := t.views[i].pfxs[b];
      && |b| <= t.views[i].stride
      && (|b| > 0 || i == 0)
      && r < |t.keys|
      && t.keys[r] == t.places[i].path + b
      && t.hosts[r] == i
  }

  /** Every stored prefix is found at its host. */
  ghost predicate HostOk(t: Trie, r: nat)
    requires |t.views| == |t.places| && r < |t.keys| == |t.hosts|
  {
    var h := t.hosts[r];
    && h < |t.views|
    && t.places[h].path <= t.keys[r]
    && var b := t.keys[r][|t.places[h].path|..];
       b in t.views[h].pfxs && t.views[h].pfxs[b] == r
  }

  ghost predicate Inv(t: Trie) {
    && GoodStrides(t.strides)
    && |t.views| == |t.places| > 0
    && |t.keys| == |t.hosts|
    && t.places[0] == NodePlace([], 0, 0)
    && (forall i :: 0 <= i < |t.views| ==> PlaceOk(t, i))
    && (forall i :: 0 <= i < |t.views| ==> KidsOk(t, i))
    && (forall i :: 0 <= i < |t.views| ==> ParentOk(t, i))
    && (forall i :: 0 <= i < |t.views| ==> PfxsOk(t, i))
    && (forall r :: 0 <= r < |t.keys| ==> HostOk(t, r))
  }

  lemma InitialInv(strides: seq<nat>)
    requires GoodStrides(strides)
    ensures Inv(Trie(strides, [EmptyView(strides[0])], [NodePlace([], 0, 0)], [], []))
  {
  }

  // ----- Uniqueness ------------------------------------------------------------

  lemma DepthByPath(t: Trie, i: nat, j: nat)
    requires Inv(t) && i < |t.views| && j < |t.views|
    ensures t.places[i].depth < t.places[j].depth ==> |t.places[i].path| + t.views[i].stride <= |t.places[j].path|
    ensures |t.places[i].path| == |t.places[j].path| ==> t.places[i].depth == t.places[j].depth
  {
    assert PlaceOk(t, i) && PlaceOk(t, j);
    if t.places[i].depth < t.places[j].depth {
      OffsetMono(t.strides, t.places[i].depth, t.places[j].depth);
    } else if t.places[j].depth < t.places[i].depth {
      OffsetMono(t.strides, t.places[j].depth, t.places[i].depth);
    }
  }

  /** The place of the parent, from a child's point of view. */
  lemma ParentPlace(t: Trie, c: nat) returns (p: nat, b: Bits)
    requires Inv(t) && 0 < c < |t.views|
    ensures p < c && b in t.views[p].kids && t.views[p].kids[b] == c
    ensures t.places[c].path == t.places[p].path + b && |b| == t.views[p].stride > 0
    ensures t.places[c].depth == t.places[p].depth + 1
  {
    assert ParentOk(t, c);
    p := t.places[c].parent;
    b := t.places[c].path[|t.places[p].path|..];
    assert KidsOk(t, p) && PlaceOk(t, p);
  }

  /** No two nodes stand for the same bits. */
  lemma {:induction false} PathsDistinct(t: Trie, i: nat, j: nat)
    requires Inv(t) && i < |t.views| && j < |t.views|
    requires t.places[i].path == t.places[j].path
    ensures i == j
    decreases i + j
  {
    DepthByPath(t, i, j);
    if i == 0 && j > 0 {
      var p, b := ParentPlace(t, j);
    } else if j == 0 && i > 0 {
      var p, b := ParentPlace(t, i);
    } else if i > 0 {
      var p, b := ParentPlace(t, i);
      var q, c := ParentPlace(t, j);
      SameDepthParents(t, i, j, p, q);
      PathsDistinct(t, p, q);
      assert b == t.places[i].path[|t.places[p].path|..] == c;
    }
  }

  lemma SameDepthParents(t: Trie, i: nat, j: nat, p: nat, q: nat)
    requires Inv(t) && i < |t.views| && j < |t.views| && p < |t.views| && q < |t.views|
    requires t.places[i].path == t.places[j].path
    requires t.places[p].path <= t.places[i].path && t.places[q].path <= t.places[j].path
    requires t.places[p].depth == t.places[q].depth
    ensures t.places[p].path == t.places[q].path
  {
    assert PlaceOk(t, p) && PlaceOk(t, q);
  }

  // ----- Descending ---------------------------------------------------------------

  /** If node c stands below nibble b of node i, then i has that child. */
  lemma {:induction false} BelowNibble(t: Trie, i: nat, b: Bits, c: nat)
    requires Inv(t) && i < |t.views| && c < |t.views|
    requires |b| == t.views[i].stride && t.places[i].path + b <= t.places[c].path
    ensures b in t.views[i].kids && t.views[i].kids[b] < |t.views|
    ensures t.places[t.views[i].kids[b]].path <= t.places[c].path
    decreases c
  {
    hide KidsOk, ParentOk, PfxsOk, HostOk;
    var q := t.places[i].path + b;
    assert PlaceOk(t, i);
    assert c > 0;
    var p, n := ParentPlace(t, c);
    DepthByPath(t, i, c);
    DepthByPath(t, i, p);
    hide Inv, PlaceOk;
    if t.places[p].depth <= t.places[i].depth {
      SameDepth(t, i, p, c);
      PathsDistinct(t, p, i);
      SameTail(t.places[i].path, b, n);
    } else {
      BothPrefixes(q, t.places[p].path, t.places[c].path);
      BelowNibble(t, i, b, p);
    }
  }

  lemma BothPrefixes(a: Bits, b: Bits, k: Bits)
    requires a <= k && b <= k && |a| <= |b|
    ensures a <= b
  {
  }

  lemma SameTail(path: Bits, a: Bits, b: Bits)
    requires path + a <= path + b && |a| == |b|
    ensures a == b
  {
    assert a == (path + a)[|path|..] && b == (path + b)[|path|..];
  }

  lemma SameDepth(t: Trie, i: nat, p: nat, c: nat)
    requires Inv(t) && i < |t.views| && p < |t.views| && c < |t.views|
    requires t.places[p].depth <= t.places[i].depth && t.places[c].depth == t.places[p].depth + 1
    requires |t.places[i].path| < |t.places[c].path|
    requires t.places[i].path <= t.places[c].path && t.places[p].path <= t.places[c].path
    ensures t.places[p].depth == t.places[i].depth && t.places[p].path == t.places[i].path
  {
    assert PlaceOk(t, i) && PlaceOk(t, p) && PlaceOk(t, c);
    if t.places[p].depth < t.places[i].depth {
      OffsetMono(t.strides, t.places[c].depth, t.places[i].depth);
    }
  }

  // ----- Where a prefix is hosted ----------------------------------------------------

  /** The node that stands right above the last nibble of key k. */
  ghost predicate Hosts(t: Trie, i: nat, k: Bits)
    requires Inv(t) && i < |t.views|
  {
    && t.places[i].path <= k
    && |k| <= |t.places[i].path| + t.views[i].stride
    && (|t.places[i].path| < |k| || i == 0)
  }

  lemma HostsUnique(t: Trie, i: nat, j: nat, k: Bits)
    requires Inv(t) && i < |t.views| && j < |t.views|
    requires Hosts(t, i, k) && Hosts(t, j, k)
    ensures i == j
  {
    DepthByPath(t, i, j);
    DepthByPath(t, j, i);
    assert PlaceOk(t, i) && PlaceOk(t, j) && PlaceOk(t, 0);
    if t.places[i].depth == t.places[j].depth {
      PathsDistinct(t, i, j);
    }
  }

  lemma HostHosts(t: Trie, r: nat)
    requires Inv(t) && r < |t.keys|
    ensures t.hosts[r] < |t.views| && Hosts(t, t.hosts[r], t.keys[r])
  {
    assert HostOk(t, r);
    assert PfxsOk(t, t.hosts[r]);
  }

  /** Record r is stored for key k exactly when the hosting node has it at k's last nibble. */
  lemma StoredAtHost(t: Trie, i: nat, k: Bits, r: nat)
    requires Inv(t) && i < |t.views| && Hosts(t, i, k)
    ensures (r < |t.keys| && t.keys[r] == k)
      <==> (var b := k[|t.places[i].path|..]; b in t.views[i].pfxs && t.views[i].pfxs[b] == r)
  {
    var b := k[|t.places[i].path|..];
    assert k == t.places[i].path + b;
    assert PfxsOk(t, i);
    if r < |t.keys| && t.keys[r] == k {
      HostHosts(t, r);
      HostsUnique(t, i, t.hosts[r], k);
      assert HostOk(t, r);
    }
  }

  /** No two stored prefixes have the same network bits. */
  lemma KeysDistinct(t: Trie, r: nat, s: nat)
    requires Inv(t) && r < |t.keys| && s < |t.keys| && t.keys[r] == t.keys[s]
    ensures r == s
  {
    HostHosts(t, r);
    StoredAtHost(t, t.hosts[r], t.keys[r], r);
    StoredAtHost(t, t.hosts[r], t.keys[r], s);
  }

  /** Without a child at nibble b of node i, nothing is stored beyond that nibble. */
  lemma NothingBelow(t: Trie, i: nat, b: Bits, r: nat)
    requires Inv(t) && i < |t.views| && r < |t.keys|
    requires |b| == t.views[i].stride && b !in t.views[i].kids
    requires t.places[i].path + b <= t.keys[r]
    ensures t.keys[r] == t.places[i].path + b
  {
    HostHosts(t, r);
    var h := t.hosts[r];
    var q := t.places[i].path + b;
    if |q| <= |t.places[h].path| {
      assert q <= t.places[h].path;
      BelowNibble(t, i, b, h);
    } else if t.keys[r] != q {
      DepthByPath(t, i, h);
      DepthByPath(t, h, i);
      HostTooShort(t, i, h);
    }
  }

  lemma HostTooShort(t: Trie, i: nat, h: nat)
    requires Inv(t) && i < |t.views| && h < |t.views|
    requires |t.places[h].path| < |t.places[i].path| + t.views[i].stride
    ensures |t.places[h].path| + t.views[h].stride <= |t.places[i].path| + t.views[i].stride
  {
    assert PlaceOk(t, i) && PlaceOk(t, h);
    DepthByPath(t, i, h);
    DepthByPath(t, h, i);
  }

  /** From node i towards any node below it there is a child. */
  lemma ChildTowards(t: Trie, i: nat, j: nat) returns (b: Bits)
    requires Inv(t) && i < |t.views| && j < |t.views| && i != j
    requires t.places[i].path <= t.places[j].path
    ensures b in t.views[i].kids && t.views[i].kids[b] < |t.views|
    ensures t.places[t.views[i].kids[b]].path <= t.places[j].path
  {
    DepthByPath(t, i, j);
    DepthByPath(t, j, i);
    assert PlaceOk(t, i) && PlaceOk(t, j);
    if |t.places[i].path| == |t.places[j].path| { PathsDistinct(t, i, j); }
    b := t.places[j].path[|t.places[i].path|..][..t.views[i].stride];
    BelowNibble(t, i, b, j);
  }

  // ----- Growing the trie ---------------------------------------------------------------

  /** The trie with a new node as the child of node i at nibble b. */
  function WithNode(t: Trie, i: nat, b: Bits): Trie
    requires i < |t.views| && i < |t.places| && t.places[i].depth + 1 < |t.strides|
  {
    var v, p := t.views[i], t.places[i];
    t.(views := t.views[i := v.(kids := v.kids[b := |t.views|])] + [EmptyView(t.strides[p.depth + 1])],
       places := t.places + [NodePlace(p.path + b, p.depth + 1, i)])
  }

  /** The trie with a new prefix hosted by node i at nibble b. */
  function WithPrefix(t: Trie, i: nat, b: Bits): Trie
    requires i < |t.views| && i < |t.places|
  {
    var v := t.views[i];
    t.(views := t.views[i := v.(pfxs := v.pfxs[b := |t.keys|])],
       keys := t.keys + [t.places[i].path + b],
       hosts := t.hosts + [i])
  }

  lemma WithNodePlaces(t: Trie, i: nat, b: Bits)
    requires Inv(t) && i < |t.views| && |b| == t.views[i].stride && b !in t.views[i].kids
    requires t.places[i].depth + 1 < |t.strides|
    ensures var t' := WithNode(t, i, b);
      && (forall j :: 0 <= j < |t'.views| ==> PlaceOk(t', j))
      && (forall j :: 0 <= j < |t'.views| ==> KidsOk(t', j))
  {
    hide PlaceOk, KidsOk, ParentOk, PfxsOk, HostOk;
    var t' := WithNode(t, i, b);
    forall j | 0 <= j < |t'.views|
      ensures PlaceOk(t', j) && KidsOk(t', j)
    {
      if j < |t.views| { WithNodeAt(t, i, b, j); } else { WithNodeLast(t, i, b); }
    }
  }

  lemma WithNodeAt(t: Trie, i: nat, b: Bits, j: nat)
    requires Inv(t) && i < |t.views| && |b| == t.views[i].stride && b !in t.views[i].kids
    requires t.places[i].depth + 1 < |t.strides| && j < |t.views|
    ensures PlaceOk(WithNode(t, i, b), j) && KidsOk(WithNode(t, i, b), j)
  {
    hide ParentOk, PfxsOk, HostOk;
    assert PlaceOk(t, j) && KidsOk(t, j);
  }

  lemma WithNodeLast(t: Trie, i: nat, b: Bits)
    requires Inv(t) && i < |t.views| && |b| == t.views[i].stride && t.places[i].depth + 1 < |t.strides|
    ensures PlaceOk(WithNode(t, i, b), |t.views|) && KidsOk(WithNode(t, i, b), |t.views|)
  {
    hide ParentOk, PfxsOk, HostOk;
    assert PlaceOk(t, i);
  }

  lemma WithNodeParents(t: Trie, i: nat, b: Bits)
    requires Inv(t) && i < |t.views| && |b| == t.views[i].stride && b !in t.views[i].kids
    requires t.places[i].depth + 1 < |t.strides|
    ensures var t' := WithNode(t, i, b);
      && (forall j :: 0 <= j < |t'.views| ==> ParentOk(t', j))
      && (forall j :: 0 <= j < |t'.views| ==> PfxsOk(t', j))
      && (forall r :: 0 <= r < |t'.keys| ==> HostOk(t', r))
  {
    var t' := WithNode(t, i, b);
    forall j | 0 <= j < |t'.views|
      ensures ParentOk(t', j) && PfxsOk(t', j)
    {
      if j < |t.views| {
        assert ParentOk(t, j) && PfxsOk(t, j);
      }
    }
    forall r | 0 <= r < |t'.keys|
      ensures HostOk(t', r)
    {
      assert HostOk(t, r);
    }
  }

  lemma WithNodeInv(t: Trie, i: nat, b: Bits)
    requires Inv(t) && i < |t.views| && |b| == t.views[i].stride && b !in t.views[i].kids
    requires t.places[i].depth + 1 < |t.strides|
    ensures Inv(WithNode(t, i, b))
  {
    WithNodePlaces(t, i, b);
    WithNodeParents(t, i, b);
  }

  lemma WithPrefixInv(t: Trie, i: nat, b: Bits)
    requires Inv(t) && i < |t.views| && |b| <= t.views[i].stride && b !in t.views[i].pfxs
    requires |b| > 0 || i == 0
    ensures Inv(WithPrefix(t, i, b))
  {
    hide PlaceOk, KidsOk, ParentOk, PfxsOk;
    var t' := WithPrefix(t, i, b);
    forall j | 0 <= j < |t'.views|
      ensures PlaceOk(t', j) && KidsOk(t', j) && ParentOk(t', j) && PfxsOk(t', j)
    {
      WithPrefixPlaces(t, i, b, j);
      WithPrefixEntries(t, i, b, j);
    }
    forall r | 0 <= r < |t'.keys|
      ensures HostOk(t', r)
    {
      if r < |t.keys| { assert HostOk(t, r); }
    }
  }

  lemma WithPrefixPlaces(t: Trie, i: nat, b: Bits, j: nat)
    requires Inv(t) && i < |t.views| && j < |t.views|
    ensures var t' := WithPrefix(t, i, b); PlaceOk(t', j) && KidsOk(t', j) && ParentOk(t', j)
  {
    hide PfxsOk, HostOk;
    assert PlaceOk(t, j) && KidsOk(t, j) && ParentOk(t, j);
  }

  lemma WithPrefixEntries(t: Trie, i: nat, b: Bits, j: nat)
    requires Inv(t) && i < |t.views| && j < |t.views| && |b| <= t.views[i].stride && (|b| > 0 || i == 0)
    ensures PfxsOk(WithPrefix(t, i, b), j)
  {
    hide PlaceOk, KidsOk, ParentOk, HostOk;
    assert PfxsOk(t, j);
  }
}
