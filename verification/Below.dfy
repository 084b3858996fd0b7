/** The prefixes stored at and below a node, as the recursive collection gathers them. */
module Below {
  import opened Af
  import opened Rank
  import opened Nodes
  import opened TreeShape
  import opened TreeState

  ghost predicate NoDup(parts: seq<nat>) {
    forall i, j :: 0 <= i < j < |parts| ==> parts[i] != parts[j]
  }

  lemma NoDupAppend(a: seq<nat>, b: seq<nat>)
    requires NoDup(a) && NoDup(b) && forall r :: r in a ==> r !in b
    ensures NoDup(a + b)
  {
    forall i, j | 0 <= i < j < |a + b|
      ensures (a + b)[i] != (a + b)[j]
    {
      if i < |a| <= j { assert a[i] in a && b[j - |a|] in b; }
    }
  }

  /** Record r is hosted at or below node i. */
  ghost predicate IsBelow(t: Trie, i: nat, r: nat)
    requires Inv(t) && i < |t.views|
  {
    r < |t.keys| && (HostHosts(t, r); t.places[i].path <= t.places[t.hosts[r]].path)
  }

  /** Record r is hosted at or below one of the given nodes. */
  ghost predicate BelowSome(t: Trie, nodes: seq<nat>, r: nat)
    requires Inv(t) && forall j :: 0 <= j < |nodes| ==> nodes[j] < |t.views|
  {
    exists j :: 0 <= j < |nodes| && IsBelow(t, nodes[j], r)
  }

  /** The children of node i at the given nibbles. */
  ghost predicate ChildrenAt(t: Trie, i: nat, nodes: seq<nat>, nibbles: seq<seq<bool>>)
    requires Inv(t) && i < |t.views|
  {
    && |nodes| == |nibbles|
    && (forall j :: 0 <= j < |nodes| ==> nibbles[j] in t.views[i].kids && nodes[j] == t.views[i].kids[nibbles[j]])
    && (forall j, l :: 0 <= j < l < |nodes| ==> nibbles[j] != nibbles[l])
  }

  lemma ChildPlace(t: Trie, i: nat, b: seq<bool>)
    requires Inv(t) && i < |t.views| && b in t.views[i].kids
    ensures i < t.views[i].kids[b] < |t.views| && |b| == t.views[i].stride > 0
    ensures t.places[t.views[i].kids[b]].path == t.places[i].path + b
  {
    assert KidsOk(t, i) && PlaceOk(t, i);
  }

  /** The nibble of the child that a record is below can be read off the record's host. */
  lemma NibbleTowards(t: Trie, i: nat, b: seq<bool>, r: nat)
    requires Inv(t) && i < |t.views| && b in t.views[i].kids && t.views[i].kids[b] < |t.views|
    requires IsBelow(t, t.views[i].kids[b], r)
    ensures t.hosts[r] < |t.views|
    ensures |t.places[i].path| + t.views[i].stride <= |t.places[t.hosts[r]].path|
    ensures b == t.places[t.hosts[r]].path[|t.places[i].path|..|t.places[i].path| + t.views[i].stride]
  {
    HostHosts(t, r);
    ChildPlace(t, i, b);
  }

  /** No record is below two children of a node. */
  lemma SiblingsApart(t: Trie, i: nat, nodes: seq<nat>, nibbles: seq<seq<bool>>, j: nat, l: nat, r: nat)
    requires Inv(t) && i < |t.views| && ChildrenAt(t, i, nodes, nibbles) && j < l < |nodes|
    ensures nodes[j] < |t.views| && nodes[l] < |t.views|
    ensures !(IsBelow(t, nodes[j], r) && IsBelow(t, nodes[l], r))
  {
    ChildPlace(t, i, nibbles[j]);
    ChildPlace(t, i, nibbles[l]);
    if IsBelow(t, nodes[j], r) { NibbleTowards(t, i, nibbles[j], r); }
    if IsBelow(t, nodes[l], r) { NibbleTowards(t, i, nibbles[l], r); }
  }

  /** The parts are the records of `own`, and those below the first m children, each once. */
  ghost predicate Gathered(t: Trie, own: iset<nat>, nodes: seq<nat>, m: nat, parts: seq<nat>)
    requires Inv(t) && m <= |nodes| && forall j :: 0 <= j < |nodes| ==> nodes[j] < |t.views|
  {
    NoDup(parts) && forall r :: r in parts <==> r in own || BelowSome(t, nodes[..m], r)
  }

  /** The parts are exactly the records at and below node i, each once. */
  ghost predicate AllBelow(t: Trie, i: nat, parts: seq<nat>)
    requires Inv(t) && i < |t.views|
  {
    NoDup(parts) && forall r: nat :: r in parts <==> IsBelow(t, i, r)
  }

  lemma BelowSomeStep(t: Trie, nodes: seq<nat>, m: nat, r: nat)
    requires Inv(t) && m < |nodes| && forall j :: 0 <= j < |nodes| ==> nodes[j] < |t.views|
    ensures BelowSome(t, nodes[..m + 1], r) <==> BelowSome(t, nodes[..m], r) || IsBelow(t, nodes[m], r)
  {
    var all := nodes[..m + 1];
    if BelowSome(t, nodes[..m], r) {
      var j :| 0 <= j < m && IsBelow(t, nodes[..m][j], r);
      assert all[j] == nodes[..m][j];
    }
    if IsBelow(t, nodes[m], r) { assert all[m] == nodes[m]; }
    if BelowSome(t, all, r) {
      var j :| 0 <= j < m + 1 && IsBelow(t, all[j], r);
      if j < m { assert nodes[..m][j] == all[j]; }
    }
  }

  lemma ApartFromRest(t: Trie, i: nat, nodes: seq<nat>, nibbles: seq<seq<bool>>, m: nat, r: nat)
    requires Inv(t) && i < |t.views| && ChildrenAt(t, i, nodes, nibbles) && m < |nodes|
    requires forall j :: 0 <= j < |nodes| ==> nodes[j] < |t.views|
    requires IsBelow(t, nodes[m], r)
    ensures !BelowSome(t, nodes[..m], r)
  {
    if BelowSome(t, nodes[..m], r) {
      var j :| 0 <= j < m && IsBelow(t, nodes[..m][j], r);
      SiblingsApart(t, i, nodes, nibbles, j, m, r);
    }
  }

  /** Adding all that is below the next child. */
  lemma GatherStep(t: Trie, i: nat, own: iset<nat>, nodes: seq<nat>, nibbles: seq<seq<bool>>, m: nat,
                   parts: seq<nat>, more: seq<nat>)
    requires Inv(t) && i < |t.views| && ChildrenAt(t, i, nodes, nibbles) && m < |nodes|
    requires forall j :: 0 <= j < |nodes| ==> nodes[j] < |t.views|
    requires forall r :: r in own ==> r < |t.keys| && t.hosts[r] == i
    requires Gathered(t, own, nodes, m, parts) && AllBelow(t, nodes[m], more)
    ensures Gathered(t, own, nodes, m + 1, parts + more)
  {
    forall r: nat
      ensures r in parts + more <==> r in own || BelowSome(t, nodes[..m + 1], r)
      ensures r in more ==> r !in parts
    {
      BelowSomeStep(t, nodes, m, r);
      assert r in more <==> IsBelow(t, nodes[m], r);
      if r in more {
        ApartFromRest(t, i, nodes, nibbles, m, r);
        ChildPlace(t, i, nibbles[m]);
      }
    }
    NoDupAppend(parts, more);
  }

  /** A record below a node is its own or below one of its children. */
  lemma BelowSplits(t: Trie, i: nat, nodes: seq<nat>, nibbles: seq<seq<bool>>, r: nat)
    requires Inv(t) && i < |t.views| && ChildrenAt(t, i, nodes, nibbles)
    requires forall j :: 0 <= j < |nodes| ==> nodes[j] < |t.views|
    requires forall b :: b in t.views[i].kids ==> b in nibbles
    ensures IsBelow(t, i, r) <==> (r < |t.keys| && t.hosts[r] == i) || BelowSome(t, nodes, r)
  {
    if IsBelow(t, i, r) && t.hosts[r] != i {
      HostHosts(t, r);
      var b := ChildTowards(t, i, t.hosts[r]);
      var j :| 0 <= j < |nibbles| && nibbles[j] == b;
      assert IsBelow(t, nodes[j], r);
    }
    if BelowSome(t, nodes, r) {
      var j :| 0 <= j < |nodes| && IsBelow(t, nodes[j], r);
      ChildPlace(t, i, nibbles[j]);
    }
  }

  lemma GatheredAll(t: Trie, i: nat, own: iset<nat>, nodes: seq<nat>, nibbles: seq<seq<bool>>, parts: seq<nat>)
    requires Inv(t) && i < |t.views| && ChildrenAt(t, i, nodes, nibbles)
    requires forall j :: 0 <= j < |nodes| ==> nodes[j] < |t.views|
    requires forall b :: b in t.views[i].kids ==> b in nibbles
    requires forall r: nat :: r in own <==> r < |t.keys| && t.hosts[r] == i
    requires Gathered(t, own, nodes, |nodes|, parts)
    ensures AllBelow(t, i, parts)
  {
    assert nodes[..|nodes|] == nodes;
    forall r: nat
      ensures r in parts <==> IsBelow(t, i, r)
    {
      BelowSplits(t, i, nodes, nibbles, r);
    }
  }

  // ----- What a node's vectors list -----------------------------------------------------------

  /** Listed prefix entries are distinct records. */
  lemma ListedRecords(t: Trie, i: nat, ids: seq<NodeId>, nibbles: seq<seq<bool>>)
    requires Inv(t) && i < |t.views| && Lists(t.views[i].pfxs, ids, nibbles)
    ensures NoDup(Parts(ids))
    ensures forall r: nat :: r in Parts(ids) <==> exists c :: c in nibbles && t.views[i].pfxs[c] == r
  {
    assert PfxsOk(t, i);
    forall x, y | 0 <= x < y < |ids|
      ensures ids[x].part != ids[y].part
    {
      assert t.keys[ids[x].part] == t.places[i].path + nibbles[x];
      assert t.keys[ids[y].part] == t.places[i].path + nibbles[y];
      assert (t.places[i].path + nibbles[x])[|t.places[i].path|..] == nibbles[x];
    }
    forall r: nat
      ensures r in Parts(ids) <==> exists c :: c in nibbles && t.views[i].pfxs[c] == r
    {
      if r in Parts(ids) {
        var x :| 0 <= x < |ids| && Parts(ids)[x] == r;
        assert nibbles[x] in nibbles;
      }
      if c :| c in nibbles && t.views[i].pfxs[c] == r {
        var x :| 0 <= x < |nibbles| && nibbles[x] == c;
        assert Parts(ids)[x] == r;
      }
    }
  }

  /** All entries of a node are all the records it hosts. */
  lemma AllOwnRecords(t: Trie, i: nat, ids: seq<NodeId>, nibbles: seq<seq<bool>>, r: nat)
    requires Inv(t) && i < |t.views| && Lists(t.views[i].pfxs, ids, nibbles)
    requires forall c :: c in t.views[i].pfxs ==> c in nibbles
    ensures r in Parts(ids) <==> r < |t.keys| && t.hosts[r] == i
  {
    ListedRecords(t, i, ids, nibbles);
    assert PfxsOk(t, i);
    if r < |t.keys| { assert HostOk(t, r); }
  }

  /** Listed pointer entries are children with larger indices. */
  lemma ListedChildren(t: Trie, i: nat, ids: seq<NodeId>, nibbles: seq<seq<bool>>)
    requires Inv(t) && i < |t.views| && Lists(t.views[i].kids, ids, nibbles)
    ensures ChildrenAt(t, i, Parts(ids), nibbles)
    ensures forall j :: 0 <= j < |ids| ==> i < ids[j].part < |t.views|
  {
    forall j | 0 <= j < |ids|
      ensures i < ids[j].part < |t.views|
    {
      ChildPlace(t, i, nibbles[j]);
    }
  }

  lemma OwnGathered(t: Trie, own: iset<nat>, nodes: seq<nat>, parts: seq<nat>)
    requires Inv(t) && forall j :: 0 <= j < |nodes| ==> nodes[j] < |t.views|
    requires NoDup(parts) && forall r: nat :: r in own <==> r in parts
    ensures Gathered(t, own, nodes, 0, parts)
  {
    assert nodes[..0] == [];
  }

  // ----- From the node and nibble where a search stops -------------------------------------

  /** The search for k ends in node i: the key ends in its stride, or it has no child at the full nibble. */
  ghost predicate StopsAt(t: Trie, i: nat, level: nat, k: seq<bool>, len: nat)
    requires Inv(t)
  {
    && OnPath(t, i, level, k)
    && Offset(t.strides, level) + len <= |k|
    && (if |k| <= Offset(t.strides, level) + t.strides[level] then Offset(t.strides, level) + len == |k|
        else len == t.strides[level] && Cut(k, Offset(t.strides, level), len) !in t.views[i].kids)
  }

  /** Record r is strictly more specific than k. */
  ghost predicate IsMoreSpecific(t: Trie, k: seq<bool>, r: nat) {
    r < |t.keys| && k < t.keys[r]
  }

  /** The prefix entries of the view that strictly extend nibble b. */
  ghost function Extending(v: View, b: seq<bool>): iset<nat> {
    iset c | c in v.pfxs && b < c :: v.pfxs[c]
  }

  lemma NodePath(t: Trie, i: nat, level: nat, k: seq<bool>)
    requires Inv(t) && OnPath(t, i, level, k)
    ensures i < |t.views| == |t.places| && level < |t.strides| && t.views[i].stride == t.strides[level] > 0
    ensures t.places[i].path == k[..Offset(t.strides, level)] && |t.places[i].path| == Offset(t.strides, level)
  {
    hide KidsOk, ParentOk, PfxsOk, HostOk;
    assert PlaceOk(t, i);
  }

  lemma PathAndCut(k: seq<bool>, start: nat, len: nat)
    requires start + len <= |k|
    ensures k[..start] + Cut(k, start, len) <= k
    ensures start + len == |k| ==> k[..start] + Cut(k, start, len) == k
  {
  }

  lemma StopPath(t: Trie, i: nat, level: nat, k: seq<bool>, len: nat)
    requires Inv(t) && StopsAt(t, i, level, k, len)
    ensures i < |t.views| == |t.places| && level < |t.strides| && Offset(t.strides, level) + len <= |k|
    ensures t.views[i].stride == t.strides[level] && |t.places[i].path| == Offset(t.strides, level)
    ensures t.places[i].path + Cut(k, Offset(t.strides, level), len) <= k
    ensures len > 0 || level == 0
    ensures |k| <= Offset(t.strides, level) + t.strides[level] ==>
      t.places[i].path + Cut(k, Offset(t.strides, level), len) == k
  {
    hide Inv, Cut;
    NodePath(t, i, level, k);
    PathAndCut(k, Offset(t.strides, level), len);
  }

  /** The entries of the node that extend the nibble are strictly more specific. */
  lemma EntryIsMoreSpecific(t: Trie, i: nat, level: nat, k: seq<bool>, len: nat, c: seq<bool>)
    requires Inv(t) && StopsAt(t, i, level, k, len)
    requires Cut(k, Offset(t.strides, level), len) < c && c in t.views[i].pfxs
    ensures IsMoreSpecific(t, k, t.views[i].pfxs[c])
  {
    StopPath(t, i, level, k, len);
    assert PfxsOk(t, i);
    assert t.places[i].path + Cut(k, Offset(t.strides, level), len) < t.places[i].path + c;
  }

  /** So are the records below the children that extend it. */
  lemma BelowIsMoreSpecific(t: Trie, i: nat, level: nat, k: seq<bool>, len: nat, c: seq<bool>, r: nat)
    requires Inv(t) && StopsAt(t, i, level, k, len)
    requires Cut(k, Offset(t.strides, level), len) <= c && c in t.views[i].kids && t.views[i].kids[c] < |t.views|
    requires IsBelow(t, t.views[i].kids[c], r)
    ensures IsMoreSpecific(t, k, r)
  {
    StopPath(t, i, level, k, len);
    ChildPlace(t, i, c);
    HostHosts(t, r);
    assert len == t.strides[level] ==> c == Cut(k, Offset(t.strides, level), len);
    assert t.places[i].path + Cut(k, Offset(t.strides, level), len) <= t.places[i].path + c;
  }

  /** A more specific prefix beyond the stride is below a child at an extension of the nibble. */
  lemma MoreSpecificBelow(t: Trie, i: nat, level: nat, k: seq<bool>, len: nat, r: nat) returns (c: seq<bool>)
    requires Inv(t) && StopsAt(t, i, level, k, len) && IsMoreSpecific(t, k, r)
    requires |k| <= Offset(t.strides, level) + t.strides[level] < |t.keys[r]|
    ensures Cut(k, Offset(t.strides, level), len) <= c && c in t.views[i].kids
    ensures t.views[i].kids[c] < |t.views| && IsBelow(t, t.views[i].kids[c], r)
  {
    hide Inv, StopsAt, Cut;
    StopPath(t, i, level, k, len);
    var start, stride := Offset(t.strides, level), t.strides[level];
    c := t.keys[r][start..start + stride];
    NextNibble(t.places[i].path, Cut(k, start, len), k, t.keys[r], stride);
    if c !in t.views[i].kids { NothingBelow(t, i, c, r); }
    ChildPlace(t, i, c);
    HostHosts(t, r);
    HostReaches(t, i, r);
    BothPrefixes(t.places[i].path + c, t.places[t.hosts[r]].path, t.keys[r]);
  }

  /** The next stride of a key that goes beyond k. */
  lemma NextNibble(path: seq<bool>, b: seq<bool>, k: seq<bool>, key: seq<bool>, stride: nat)
    requires path + b <= k < key && |b| <= stride && |k| <= |path| + stride < |key|
    ensures path + key[|path|..|path| + stride] <= key
    ensures b <= key[|path|..|path| + stride]
  {
    assert path == key[..|path|] && b == key[|path|..|path| + |b|];
  }

  /** A key that goes beyond a node's stride is not hosted before that stride ends. */
  lemma HostReaches(t: Trie, i: nat, r: nat)
    requires Inv(t) && i < |t.views| && r < |t.keys| && |t.places[i].path| + t.views[i].stride < |t.keys[r]|
    ensures |t.hosts| == |t.keys| && t.hosts[r] < |t.views| == |t.places|
    ensures |t.places[i].path| + t.views[i].stride <= |t.places[t.hosts[r]].path|
  {
    hide KidsOk, ParentOk, PfxsOk, HostOk, PlaceOk;
    HostHosts(t, r);
    if |t.places[t.hosts[r]].path| < |t.places[i].path| + t.views[i].stride { HostTooShort(t, i, t.hosts[r]); }
  }

  /** A more specific prefix within the stride is an entry of the node at an extension of the nibble. */
  lemma MoreSpecificHere(t: Trie, i: nat, level: nat, k: seq<bool>, len: nat, r: nat)
    requires Inv(t) && StopsAt(t, i, level, k, len) && IsMoreSpecific(t, k, r)
    requires |k| < |t.keys[r]| <= Offset(t.strides, level) + t.strides[level]
    ensures r in Extending(t.views[i], Cut(k, Offset(t.strides, level), len))
  {
    StopPath(t, i, level, k, len);
    assert PlaceOk(t, i);
    StoredAtHost(t, i, t.keys[r], r);
    assert Cut(k, Offset(t.strides, level), len) < t.keys[r][|t.places[i].path|..];
  }

  /** Beyond a missing child there is nothing more specific. */
  lemma NothingMoreSpecific(t: Trie, i: nat, level: nat, k: seq<bool>, len: nat, r: nat)
    requires Inv(t) && StopsAt(t, i, level, k, len)
    requires Offset(t.strides, level) + t.strides[level] < |k|
    ensures !IsMoreSpecific(t, k, r)
  {
    StopPath(t, i, level, k, len);
    if IsMoreSpecific(t, k, r) { NothingBelow(t, i, Cut(k, Offset(t.strides, level), len), r); }
  }

  /** All that is gathered at and below the extensions of the nibble. */
  lemma GatheredMoreSpecifics(t: Trie, i: nat, level: nat, k: seq<bool>, len: nat, nodes: seq<nat>,
                              nibbles: seq<seq<bool>>, parts: seq<nat>)
    requires Inv(t) && StopsAt(t, i, level, k, len) && ChildrenAt(t, i, nodes, nibbles)
    requires forall j :: 0 <= j < |nodes| ==> nodes[j] < |t.views|
    requires forall c :: c in nibbles <==> c in t.views[i].kids && Cut(k, Offset(t.strides, level), len) <= c
    requires Gathered(t, Extending(t.views[i], Cut(k, Offset(t.strides, level), len)), nodes, |nodes|, parts)
    ensures NoDup(parts)
    ensures forall r: nat :: r in parts <==> IsMoreSpecific(t, k, r)
  {
    var b := Cut(k, Offset(t.strides, level), len);
    assert nodes[..|nodes|] == nodes;
    forall r: nat
      ensures r in parts <==> IsMoreSpecific(t, k, r)
    {
      if r in parts { GatheredIsMoreSpecific(t, i, level, k, len, nodes, nibbles, r); }
      if IsMoreSpecific(t, k, r) { MoreSpecificIsGathered(t, i, level, k, len, nodes, nibbles, r); }
    }
  }

  lemma MoreSpecificIsGathered(t: Trie, i: nat, level: nat, k: seq<bool>, len: nat, nodes: seq<nat>,
                               nibbles: seq<seq<bool>>, r: nat)
    requires Inv(t) && StopsAt(t, i, level, k, len) && ChildrenAt(t, i, nodes, nibbles)
    requires forall j :: 0 <= j < |nodes| ==> nodes[j] < |t.views|
    requires forall c :: c in nibbles <==> c in t.views[i].kids && Cut(k, Offset(t.strides, level), len) <= c
    requires IsMoreSpecific(t, k, r)
    ensures r in Extending(t.views[i], Cut(k, Offset(t.strides, level), len)) || BelowSome(t, nodes, r)
  {
    var end := Offset(t.strides, level) + t.strides[level];
    if |k| > end {
      NothingMoreSpecific(t, i, level, k, len, r);
    } else if |t.keys[r]| <= end {
      MoreSpecificHere(t, i, level, k, len, r);
    } else {
      var c := MoreSpecificBelow(t, i, level, k, len, r);
      var j :| 0 <= j < |nibbles| && nibbles[j] == c;
      assert IsBelow(t, nodes[j], r);
    }
  }

  lemma GatheredIsMoreSpecific(t: Trie, i: nat, level: nat, k: seq<bool>, len: nat, nodes: seq<nat>,
                               nibbles: seq<seq<bool>>, r: nat)
    requires Inv(t) && StopsAt(t, i, level, k, len) && ChildrenAt(t, i, nodes, nibbles)
    requires forall j :: 0 <= j < |nodes| ==> nodes[j] < |t.views|
    requires forall c :: c in nibbles <==> c in t.views[i].kids && Cut(k, Offset(t.strides, level), len) <= c
    requires r in Extending(t.views[i], Cut(k, Offset(t.strides, level), len)) || BelowSome(t, nodes, r)
    ensures IsMoreSpecific(t, k, r)
  {
    var b := Cut(k, Offset(t.strides, level), len);
    if r in Extending(t.views[i], b) {
      var c :| c in t.views[i].pfxs && b < c && t.views[i].pfxs[c] == r;
      EntryIsMoreSpecific(t, i, level, k, len, c);
    } else {
      var j :| 0 <= j < |nodes| && IsBelow(t, nodes[j], r);
      assert nibbles[j] in nibbles;
      BelowIsMoreSpecific(t, i, level, k, len, nibbles[j], r);
    }
  }
}
