/** The node in which a search ends. */
module LastNode {
  import opened Wrappers
  import opened Af
  import opened Nodes
  import opened TreeShape
  import opened TreeState
  import opened Below

  lemma StopLevels(t: Trie, i: nat, level: nat, k: seq<bool>, len: nat, i': nat, level': nat, len': nat)
    requires Inv(t) && StopsAt(t, i, level, k, len) && StopsAt(t, i', level', k, len')
    ensures level >= level'
  {
    if level < level' {
      OffsetMono(t.strides, level, level');
      StopPath(t, i, level, k, len);
      BelowNibble(t, i, Cut(k, Offset(t.strides, level), len), i');
    }
  }

  /** A search ends in one node only. */
  lemma StopUnique(t: Trie, i: nat, level: nat, k: seq<bool>, len: nat, i': nat, level': nat, len': nat)
    requires Inv(t) && StopsAt(t, i, level, k, len) && StopsAt(t, i', level', k, len')
    ensures i == i' && level == level' && len == len'
  {
    StopLevels(t, i, level, k, len, i', level', len');
    StopLevels(t, i', level', k, len', i, level, len);
    PathsDistinct(t, i, i');
  }

  /** The node hosts a prefix that covers the key. */
  ghost predicate CoverHere(t: Trie, i: nat, level: nat, k: seq<bool>, len: nat)
    requires Inv(t) && StopsAt(t, i, level, k, len)
  {
    LongestIn(t.views[i], k, Offset(t.strides, level), len) > 0
  }

  /** The search for k ends in a node that hosts a prefix that covers k. */
  ghost predicate EndsOnCover(t: Trie, k: seq<bool>)
    requires Inv(t)
  {
    exists i, level, len {:trigger StopsAt(t, i, level, k, len)} ::
      StopsAt(t, i, level, k, len) && CoverHere(t, i, level, k, len)
  }

  lemma EndsHere(t: Trie, i: nat, level: nat, k: seq<bool>, len: nat)
    requires Inv(t) && StopsAt(t, i, level, k, len)
    ensures EndsOnCover(t, k) <==> CoverHere(t, i, level, k, len)
  {
    if EndsOnCover(t, k) {
      var i': nat, level': nat, len': nat :| StopsAt(t, i', level', k, len') && CoverHere(t, i', level', k, len');
      StopUnique(t, i, level, k, len, i', level', len');
    }
  }

  /** Without a child to go on to, the search ends. */
  lemma SearchStops(t: Trie, i: nat, level: nat, k: seq<bool>, len: nat)
    requires Inv(t) && OnPath(t, i, level, k) && Offset(t.strides, level) + len <= |k|
    requires len == if |k| < Offset(t.strides, level + 1) then |k| - Offset(t.strides, level) else t.strides[level]
    requires |k| <= Offset(t.strides, level) + len || Cut(k, Offset(t.strides, level), len) !in t.views[i].kids
    ensures StopsAt(t, i, level, k, len)
  {
  }

  /** What is best so far in the node where the search ends is best of all. */
  lemma BestAtStop(t: Trie, i: nat, level: nat, k: seq<bool>, len: nat, idx: Option<nat>, idx': Option<nat>)
    requires Inv(t) && StopsAt(t, i, level, k, len)
    requires Best(t.keys, k, Offset(t.strides, level), idx)
    requires var l := LongestIn(t.views[i], k, Offset(t.strides, level), len);
      idx' == if l == 0 then idx else Some(t.views[i].pfxs[Cut(k, Offset(t.strides, level), l)])
    ensures Best(t.keys, k, |k|, idx')
  {
    StopPath(t, i, level, k, len);
    BestStep(t, i, level, k, len, idx, idx');
    if |k| > Offset(t.strides, level) + t.strides[level] { BestStop(t, i, level, k, idx'); }
  }

  /** The index of key k, if it is stored. */
  ghost predicate IsIndexOf(keys: seq<seq<bool>>, k: seq<bool>, idx: Option<nat>) {
    if k in keys then idx.Some? && idx.value < |keys| && keys[idx.value] == k else idx.None?
  }

  /** The node where the search ends knows whether the key itself is stored. */
  lemma ExactAtStop(t: Trie, i: nat, level: nat, k: seq<bool>, len: nat, idx: Option<nat>)
    requires Inv(t) && StopsAt(t, i, level, k, len)
    requires var b := Cut(k, Offset(t.strides, level), len);
      idx == if |k| <= Offset(t.strides, level) + len && b in t.views[i].pfxs then Some(t.views[i].pfxs[b]) else None
    ensures IsIndexOf(t.keys, k, idx)
  {
    var b := Cut(k, Offset(t.strides, level), len);
    StopPath(t, i, level, k, len);
    if |k| <= Offset(t.strides, level) + len {
      assert k[..Offset(t.strides, level) + len] == k;
      if k in t.keys {
        var r :| 0 <= r < |t.keys| && t.keys[r] == k;
        CutEntry(t, i, level, k, len, r);
      }
      if b in t.views[i].pfxs { CutEntry(t, i, level, k, len, t.views[i].pfxs[b]); }
    } else if k in t.keys {
      var r :| 0 <= r < |t.keys| && t.keys[r] == k;
      NothingBelow(t, i, b, r);
    }
  }

  // ----- No node without a prefix below it --------------------------------------------------

  /** Something is stored beyond node i's own bits. */
  ghost predicate Alive(t: Trie, i: nat)
    requires i < |t.places|
  {
    exists r :: 0 <= r < |t.keys| && t.places[i].path < t.keys[r]
  }

  ghost predicate Live(t: Trie) {
    forall i :: 0 < i < |t.places| ==> Alive(t, i)
  }

  /** During the insertion of k, nodes on its path may still be empty. */
  ghost predicate LiveBut(t: Trie, k: seq<bool>) {
    forall i {:trigger Alive(t, i)} :: 0 < i < |t.places| ==> Alive(t, i) || t.places[i].path < k
  }

  lemma StillAlive(t: Trie, t': Trie, i: nat)
    requires i < |t.places| <= |t'.places| && t'.places[i] == t.places[i] && t.keys <= t'.keys
    ensures Alive(t, i) ==> Alive(t', i)
  {
    if Alive(t, i) {
      var r :| 0 <= r < |t.keys| && t.places[i].path < t.keys[r];
      assert t'.keys[r] == t.keys[r];
    }
  }

  lemma LiveWithNode(t: Trie, i: nat, b: seq<bool>, k: seq<bool>)
    requires Inv(t) && LiveBut(t, k) && i < |t.views| && t.places[i].depth + 1 < |t.strides|
    requires t.places[i].path + b < k
    ensures LiveBut(WithNode(t, i, b), k)
  {
    var t' := WithNode(t, i, b);
    forall j | 0 < j < |t'.places|
      ensures Alive(t', j) || t'.places[j].path < k
    {
      if j < |t.places| {
        StillAlive(t, t', j);
        assert Alive(t, j) || t.places[j].path < k;
      }
    }
  }

  lemma LiveWithPrefix(t: Trie, i: nat, b: seq<bool>)
    requires Inv(t) && i < |t.views| && LiveBut(t, t.places[i].path + b)
    ensures Live(WithPrefix(t, i, b))
  {
    var k := t.places[i].path + b;
    var t' := WithPrefix(t, i, b);
    assert t'.keys[|t.keys|] == k;
    forall j | 0 < j < |t'.places|
      ensures Alive(t', j)
    {
      StillAlive(t, t', j);
      assert Alive(t, j) || t.places[j].path < k;
    }
  }

  lemma LiveOnceStored(t: Trie, k: seq<bool>, r: nat)
    requires LiveBut(t, k) && r < |t.keys| && t.keys[r] == k
    ensures Live(t)
  {
    forall j | 0 < j < |t.places|
      ensures Alive(t, j)
    {
      assert Alive(t, j) || t.places[j].path < k;
    }
  }

  // ----- Where a search ends, in terms of what is stored -----------------------------------------

  /** Some stored key goes beyond the first `depth` levels in the direction of k. */
  ghost predicate Reaches(strides: seq<nat>, keys: seq<seq<bool>>, k: seq<bool>, level: nat)
    requires level <= |strides|
  {
    level == 0 || (Offset(strides, level) < |k|
      && exists r :: 0 <= r < |keys| && k[..Offset(strides, level)] < keys[r])
  }

  /** Every node has an ancestor at each level above it. */
  lemma {:induction false} Ancestor(t: Trie, i: nat, level: nat) returns (a: nat)
    requires Inv(t) && i < |t.views| && level <= t.places[i].depth
    ensures a < |t.views| && t.places[a].depth == level && t.places[a].path <= t.places[i].path
  {
    if t.places[i].depth == level { return i; }
    var p, b := ParentPlace(t, i);
    a := Ancestor(t, p, level);
  }

  /** The deepest level at which a node stands on the path of k follows from the stored keys. */
  lemma NodeOnPath(t: Trie, k: seq<bool>, level: nat) returns (i: nat)
    requires Inv(t) && level < |t.strides| && Reaches(t.strides, t.keys, k, level)
    ensures OnPath(t, i, level, k)
  {
    if level == 0 {
      RootOnPath(t, k);
      return 0;
    }
    var r :| 0 <= r < |t.keys| && k[..Offset(t.strides, level)] < t.keys[r];
    HostHosts(t, r);
    var h := t.hosts[r];
    assert PlaceOk(t, h);
    if t.places[h].depth < level { OffsetMono(t.strides, t.places[h].depth, level); }
    i := Ancestor(t, h, level);
    assert PlaceOk(t, i);
    assert t.places[i].path == t.keys[r][..Offset(t.strides, level)];
  }

  lemma ReachedByNode(t: Trie, i: nat, level: nat, k: seq<bool>)
    requires Inv(t) && Live(t) && OnPath(t, i, level, k)
    ensures Reaches(t.strides, t.keys, k, level)
  {
    assert PlaceOk(t, 0);
    if level > 0 { assert Alive(t, i); }
  }

  /** The longest stored prefix that covers k is longer than anything but the last stored turn-off. */
  ghost predicate CoverBeyond(strides: seq<nat>, keys: seq<seq<bool>>, k: seq<bool>) {
    exists r: nat {:trigger Candidate(keys, k, |k|, r)} :: Candidate(keys, k, |k|, r) &&
      forall level :: 0 < level < |strides| && Reaches(strides, keys, k, level) ==> Offset(strides, level) < |keys[r]|
  }

  /** Every search ends somewhere. */
  lemma {:induction false} FindStop(t: Trie, i: nat, level: nat, k: seq<bool>) returns (i': nat, level': nat, len': nat)
    requires Inv(t) && OnPath(t, i, level, k) && |k| <= Offset(t.strides, |t.strides|)
    ensures StopsAt(t, i', level', k, len')
    decreases |t.strides| - level
  {
    var start := Offset(t.strides, level);
    if |k| <= start + t.strides[level] { return i, level, |k| - start; }
    var b := Cut(k, start, t.strides[level]);
    if b !in t.views[i].kids { return i, level, t.strides[level]; }
    ChildOnPath(t, i, level, k);
    i', level', len' := FindStop(t, t.views[i].kids[b], level + 1, k);
  }

  /** The search ends on a cover exactly if some cover is longer than every level the stored keys reach. */
  lemma EndsOnCoverIff(t: Trie, k: seq<bool>)
    requires Inv(t) && Live(t) && |k| <= Offset(t.strides, |t.strides|)
    ensures EndsOnCover(t, k) <==> CoverBeyond(t.strides, t.keys, k)
  {
    RootOnPath(t, k);
    var i, level, len := FindStop(t, 0, 0, k);
    EndsHere(t, i, level, k, len);
    if CoverHere(t, i, level, k, len) { CoverHereIsBeyond(t, k, i, level, len); }
    if CoverBeyond(t.strides, t.keys, k) { BeyondIsHere(t, k, i, level, len); }
  }

  lemma CoverHereIsBeyond(t: Trie, k: seq<bool>, i: nat, level: nat, len: nat)
    requires Inv(t) && StopsAt(t, i, level, k, len) && CoverHere(t, i, level, k, len)
    ensures CoverBeyond(t.strides, t.keys, k)
  {
    var l := LongestIn(t.views[i], k, Offset(t.strides, level), len);
    var r := t.views[i].pfxs[Cut(k, Offset(t.strides, level), l)];
    CutEntry(t, i, level, k, l, r);
    forall level' | 0 < level' < |t.strides| && Reaches(t.strides, t.keys, k, level')
      ensures Offset(t.strides, level') < |t.keys[r]|
    {
      NotReachedBeyond(t, k, i, level, len, level');
      OffsetMono(t.strides, level', level);
    }
    assert Candidate(t.keys, k, |k|, r);
  }

  /** No level below the one where the search ends is reached. */
  lemma NotReachedBeyond(t: Trie, k: seq<bool>, i: nat, level: nat, len: nat, level': nat)
    requires Inv(t) && StopsAt(t, i, level, k, len)
    requires level' < |t.strides| && Reaches(t.strides, t.keys, k, level')
    ensures level' <= level
  {
    if level' > level {
      var j := NodeOnPath(t, k, level');
      OffsetMono(t.strides, level, level');
      StopPath(t, i, level, k, len);
      BelowNibble(t, i, Cut(k, Offset(t.strides, level), len), j);
    }
  }

  lemma BeyondIsHere(t: Trie, k: seq<bool>, i: nat, level: nat, len: nat)
    requires Inv(t) && Live(t) && StopsAt(t, i, level, k, len) && CoverBeyond(t.strides, t.keys, k)
    ensures CoverHere(t, i, level, k, len)
  {
    ReachedByNode(t, i, level, k);
    var r: nat :| Candidate(t.keys, k, |k|, r) &&
      forall level :: 0 < level < |t.strides| && Reaches(t.strides, t.keys, k, level) ==>
        Offset(t.strides, level) < |t.keys[r]|;
    var start := Offset(t.strides, level);
    assert start < |t.keys[r]|;
    CoverWithinStride(t, k, i, level, len, r);
    var m := |t.keys[r]| - start;
    CutEntry(t, i, level, k, m, r);
    LongestInIsLongest(t.views[i], k, start, len);
    assert Cut(k, start, m) in t.views[i].pfxs;
  }

  lemma CoverWithinStride(t: Trie, k: seq<bool>, i: nat, level: nat, len: nat, r: nat)
    requires Inv(t) && StopsAt(t, i, level, k, len) && Candidate(t.keys, k, |k|, r)
    ensures |t.keys[r]| <= Offset(t.strides, level) + len
  {
    StopPath(t, i, level, k, len);
    if |t.keys[r]| > Offset(t.strides, level) + len {
      NothingBelow(t, i, Cut(k, Offset(t.strides, level), len), r);
    }
  }
}
