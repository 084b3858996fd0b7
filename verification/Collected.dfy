/** What a search of the tree collects on its way down: prefixes that cover the one searched for. */
module Collected {
  import opened Wrappers
  import opened Af
  import opened Nodes
  import opened TreeShape
  import opened TreeState
  import opened Below
  import opened LastNode

  /** The records have keys of strictly increasing length. */
  ghost predicate Ascending(keys: seq<seq<bool>>, rs: seq<nat>) {
    && (forall i :: 0 <= i < |rs| ==> rs[i] < |keys|)
    && forall i, j :: 0 <= i < j < |rs| ==> |keys[rs[i]]| < |keys[rs[j]]|
  }

  lemma AscendingJoin(keys: seq<seq<bool>>, a: seq<nat>, b: seq<nat>, limit: nat)
    requires Ascending(keys, a) && Ascending(keys, b)
    requires forall r :: r in a ==> |keys[r]| <= limit
    requires forall r :: r in b ==> limit < |keys[r]|
    ensures Ascending(keys, a + b)
  {
    forall i | 0 <= i < |a + b|
      ensures (a + b)[i] in a || (a + b)[i] in b
    {
      if i < |a| { assert (a + b)[i] == a[i]; } else { assert (a + b)[i] == b[i - |a|]; }
    }
  }

  // ----- In one node -----------------------------------------------------------------------------

  /** The node has an entry for r at length m of the nibble. */
  ghost predicate EntryAt(v: View, k: seq<bool>, start: nat, m: nat, r: nat)
    requires start + m <= |k|
  {
    Cut(k, start, m) in v.pfxs && v.pfxs[Cut(k, start, m)] == r
  }

  lemma {:induction false} CoversInHas(v: View, k: seq<bool>, start: nat, l: nat, r: nat)
    requires start + l <= |k|
    ensures r in CoversIn(v, k, start, l) <==>
      exists m: nat {:trigger EntryAt(v, k, start, m, r)} :: 0 < m <= l && EntryAt(v, k, start, m, r)
  {
    if l > 0 {
      CoversInHas(v, k, start, l - 1, r);
      if EntryAt(v, k, start, l, r) { assert r in CoversIn(v, k, start, l); }
    }
  }

  lemma {:induction false} LessInHas(v: View, k: seq<bool>, start: nat, len: nat, l: nat, r: nat)
    requires start + len <= |k| && l <= len
    ensures r in LessIn(v, k, start, len, l) <==>
      exists m: nat {:trigger EntryAt(v, k, start, m, r)} :: 0 < m <= l && EntryAt(v, k, start, m, r)
        && start + len < |k| && Misread(k, start, m, len) in v.kids
  {
    hide Misread;
    if l > 0 {
      LessInHas(v, k, start, len, l - 1, r);
      if EntryAt(v, k, start, l, r) && start + len < |k| && Misread(k, start, l, len) in v.kids {
        assert r in LessIn(v, k, start, len, l);
      }
    }
  }

  /** The entries of the node on the path, by length. */
  lemma EntryIsCover(t: Trie, i: nat, level: nat, k: seq<bool>, m: nat, r: nat)
    requires Inv(t) && OnPath(t, i, level, k)
    requires 0 < m <= t.strides[level] && Offset(t.strides, level) + m <= |k|
    ensures EntryAt(t.views[i], k, Offset(t.strides, level), m, r) <==>
      r < |t.keys| && t.keys[r] == k[..Offset(t.strides, level) + m]
    ensures EntryAt(t.views[i], k, Offset(t.strides, level), m, r) ==> t.hosts[r] == i
  {
    CutEntry(t, i, level, k, m, r);
    assert PfxsOk(t, i);
  }

  lemma {:induction false} CoversInAscend(t: Trie, i: nat, level: nat, k: seq<bool>, l: nat)
    requires Inv(t) && OnPath(t, i, level, k)
    requires l <= t.strides[level] && Offset(t.strides, level) + l <= |k|
    ensures Ascending(t.keys, CoversIn(t.views[i], k, Offset(t.strides, level), l))
    ensures forall r :: r in CoversIn(t.views[i], k, Offset(t.strides, level), l) ==>
      Offset(t.strides, level) < |t.keys[r]| <= Offset(t.strides, level) + l
  {
    hide Inv, OnPath;
    InViews(t, i, level, k);
    if l > 0 {
      var start, v := Offset(t.strides, level), t.views[i];
      CoversInAscend(t, i, level, k, l - 1);
      if Cut(k, start, l) in v.pfxs {
        var r := v.pfxs[Cut(k, start, l)];
        EntryIsCover(t, i, level, k, l, r);
        AscendingJoin(t.keys, CoversIn(v, k, start, l - 1), [r], start + l - 1);
      }
    }
  }

  lemma InViews(t: Trie, i: nat, level: nat, k: seq<bool>)
    requires Inv(t) && OnPath(t, i, level, k)
    ensures i < |t.views| && level < |t.strides| && |t.hosts| == |t.keys|
  {
  }

  lemma {:induction false} LessInAscend(t: Trie, i: nat, level: nat, k: seq<bool>, len: nat, l: nat)
    requires Inv(t) && OnPath(t, i, level, k)
    requires l <= len <= t.strides[level] && Offset(t.strides, level) + len <= |k|
    ensures Ascending(t.keys, LessIn(t.views[i], k, Offset(t.strides, level), len, l))
    ensures forall r :: r in LessIn(t.views[i], k, Offset(t.strides, level), len, l) ==>
      Offset(t.strides, level) < |t.keys[r]| <= Offset(t.strides, level) + l
  {
    hide Inv, OnPath, Misread;
    InViews(t, i, level, k);
    if l > 0 {
      var start, v := Offset(t.strides, level), t.views[i];
      LessInAscend(t, i, level, k, len, l - 1);
      if Cut(k, start, l) in v.pfxs && start + len < |k| && Misread(k, start, l, len) in v.kids {
        var r := v.pfxs[Cut(k, start, l)];
        EntryIsCover(t, i, level, k, l, r);
        AscendingJoin(t.keys, LessIn(v, k, start, len, l - 1), [r], start + l - 1);
      }
    }
  }

  // ----- Longest match ---------------------------------------------------------------------------------

  /** The child looked at for cover r is there: k goes beyond the stride of r's node, which has the misread child. */
  ghost predicate Pointed(t: Trie, k: seq<bool>, r: nat)
    requires Inv(t) && r < |t.keys|
  {
    var h := t.hosts[r];
    && h < |t.views| == |t.places|
    && var start, stride := |t.places[h].path|, t.views[h].stride;
       && start <= |t.keys[r]| <= start + stride < |k|
       && Misread(k, start, |t.keys[r]| - start, stride) in t.views[h].kids
  }

  /** What a longest-match search has collected when it has looked at the first `limit` bits. */
  ghost predicate LessSoFar(t: Trie, k: seq<bool>, limit: nat, rs: seq<nat>)
    requires Inv(t)
  {
    && Ascending(t.keys, rs)
    && forall r: nat :: r in rs <==> Candidate(t.keys, k, limit, r) && Pointed(t, k, r)
  }

  /** Record r is of a cover in this node. */
  lemma PointedHere(t: Trie, i: nat, level: nat, k: seq<bool>, len: nat, r: nat)
    requires Inv(t) && OnPath(t, i, level, k) && r < |t.keys|
    requires len <= t.strides[level] && Offset(t.strides, level) + len <= |k|
    requires Offset(t.strides, level) + len < |k| ==> len == t.strides[level]
    requires Offset(t.strides, level) < |t.keys[r]| <= Offset(t.strides, level) + len && t.keys[r] <= k
    ensures Pointed(t, k, r) <==> r in LessIn(t.views[i], k, Offset(t.strides, level), len, len)
  {
    hide Misread;
    var start := Offset(t.strides, level);
    var m := |t.keys[r]| - start;
    EntryIsCover(t, i, level, k, m, r);
    NodePath(t, i, level, k);
    LessInHas(t.views[i], k, start, len, len, r);
    hide Inv;
    if r in LessIn(t.views[i], k, start, len, len) {
      var m': nat :| 0 < m' <= len && EntryAt(t.views[i], k, start, m', r) && start + len < |k|
        && Misread(k, start, m', len) in t.views[i].kids;
      EntryIsCover(t, i, level, k, m', r);
      assert m' == m;
    }
  }

  lemma LessStep(t: Trie, i: nat, level: nat, k: seq<bool>, len: nat, rs: seq<nat>)
    requires Inv(t) && OnPath(t, i, level, k)
    requires len <= t.strides[level] && Offset(t.strides, level) + len <= |k|
    requires Offset(t.strides, level) + len < |k| ==> len == t.strides[level]
    requires LessSoFar(t, k, Offset(t.strides, level), rs)
    ensures LessSoFar(t, k, Offset(t.strides, level) + len,
      rs + LessIn(t.views[i], k, Offset(t.strides, level), len, len))
  {
    hide Inv, OnPath, Pointed, LessIn;
    InViews(t, i, level, k);
    var start := Offset(t.strides, level);
    var more := LessIn(t.views[i], k, start, len, len);
    LessInAscend(t, i, level, k, len, len);
    AscendingJoin(t.keys, rs, more, start);
    forall r: nat
      ensures r in rs + more <==> Candidate(t.keys, k, start + len, r) && Pointed(t, k, r)
    {
      if r in more { LessIsCover(t, i, level, k, len, r); }
      if r < |t.keys| && t.keys[r] <= k && start < |t.keys[r]| <= start + len { PointedHere(t, i, level, k, len, r); }
    }
  }

  lemma LessIsCover(t: Trie, i: nat, level: nat, k: seq<bool>, len: nat, r: nat)
    requires Inv(t) && OnPath(t, i, level, k)
    requires len <= t.strides[level] && Offset(t.strides, level) + len <= |k|
    requires r in LessIn(t.views[i], k, Offset(t.strides, level), len, len)
    ensures r < |t.keys| && t.keys[r] <= k && Offset(t.strides, level) < |t.keys[r]| <= Offset(t.strides, level) + len
  {
    hide Inv, OnPath, LessIn, Misread;
    InViews(t, i, level, k);
    var start := Offset(t.strides, level);
    LessInHas(t.views[i], k, start, len, len, r);
    var m: nat :| 0 < m <= len && EntryAt(t.views[i], k, start, m, r);
    EntryIsCover(t, i, level, k, m, r);
  }

  /** At its end the search has met all covers. */
  lemma LessAtStop(t: Trie, i: nat, level: nat, k: seq<bool>, len: nat, rs: seq<nat>)
    requires Inv(t) && StopsAt(t, i, level, k, len) && LessSoFar(t, k, Offset(t.strides, level) + len, rs)
    ensures LessSoFar(t, k, |k|, rs)
  {
    hide Inv, StopsAt, Pointed;
    StopWithin(t, i, level, k, len);
    forall r: nat | Candidate(t.keys, k, |k|, r)
      ensures Candidate(t.keys, k, Offset(t.strides, level) + len, r)
    {
      CoverWithinStride(t, k, i, level, len, r);
    }
  }

  lemma StopWithin(t: Trie, i: nat, level: nat, k: seq<bool>, len: nat)
    requires Inv(t) && StopsAt(t, i, level, k, len)
    ensures level < |t.strides| && Offset(t.strides, level) + len <= |k| && len <= t.strides[level]
    ensures OnPath(t, i, level, k) && i < |t.views|
    ensures Offset(t.strides, level) + len == EndAt(t.strides, k, level)
  {
  }

  // ----- Exact match -----------------------------------------------------------------------------------

  /** Where the bits that a level handles end. */
  function EndAt(strides: seq<nat>, k: seq<bool>, level: nat): (e: nat)
    requires level < |strides|
    ensures e <= |k|
  {
    if Offset(strides, level + 1) <= |k| then Offset(strides, level + 1) else |k|
  }

  /** At none of the first `levels` levels that end at the length or beyond are the bits up to the end not stored. */
  ghost predicate Kept(t: Trie, k: seq<bool>, levels: nat, length: nat)
    requires levels <= |t.strides|
  {
    forall e :: 0 <= e < levels && length <= EndAt(t.strides, k, e) ==> k[..EndAt(t.strides, k, e)] in t.keys
  }

  /**
   * What an exact-match search has collected when it has looked at the first levels, down to the first `limit`
   * bits.
   */
  ghost predicate KeptSoFar(t: Trie, k: seq<bool>, levels: nat, limit: nat, rs: seq<nat>)
    requires levels <= |t.strides|
  {
    && Ascending(t.keys, rs)
    && forall r: nat :: r in rs <==> Candidate(t.keys, k, limit, r) && Kept(t, k, levels, |t.keys[r]|)
  }

  lemma KeptStep(t: Trie, i: nat, level: nat, k: seq<bool>, len: nat, rs: seq<nat>, rs': seq<nat>)
    requires Inv(t) && OnPath(t, i, level, k)
    requires len <= t.strides[level] && Offset(t.strides, level) + len == EndAt(t.strides, k, level)
    requires len > 0 || k == []
    requires KeptSoFar(t, k, level, Offset(t.strides, level), rs)
    requires rs' == if len > 0 && Cut(k, Offset(t.strides, level), len) in t.views[i].pfxs
      then rs + CoversIn(t.views[i], k, Offset(t.strides, level), len) else []
    ensures KeptSoFar(t, k, level + 1, Offset(t.strides, level) + len, rs')
  {
    hide Inv, OnPath, CoversIn;
    InViews(t, i, level, k);
    var start := Offset(t.strides, level);
    if len > 0 {
      EndStored(t, i, level, k, len);
      if Cut(k, start, len) in t.views[i].pfxs { KeptOn(t, i, level, k, len, rs); }
    }
  }

  lemma EndStored(t: Trie, i: nat, level: nat, k: seq<bool>, len: nat)
    requires Inv(t) && OnPath(t, i, level, k)
    requires 0 < len <= t.strides[level] && Offset(t.strides, level) + len <= |k|
    ensures i < |t.views|
    ensures Cut(k, Offset(t.strides, level), len) in t.views[i].pfxs <==> k[..Offset(t.strides, level) + len] in t.keys
  {
    var start := Offset(t.strides, level);
    if Cut(k, start, len) in t.views[i].pfxs { EntryIsCover(t, i, level, k, len, t.views[i].pfxs[Cut(k, start, len)]); }
    if k[..start + len] in t.keys {
      var r :| 0 <= r < |t.keys| && t.keys[r] == k[..start + len];
      EntryIsCover(t, i, level, k, len, r);
    }
  }

  lemma KeptOn(t: Trie, i: nat, level: nat, k: seq<bool>, len: nat, rs: seq<nat>)
    requires Inv(t) && OnPath(t, i, level, k)
    requires 0 < len <= t.strides[level] && Offset(t.strides, level) + len == EndAt(t.strides, k, level)
    requires KeptSoFar(t, k, level, Offset(t.strides, level), rs) && k[..Offset(t.strides, level) + len] in t.keys
    ensures i < |t.views|
    ensures KeptSoFar(t, k, level + 1, Offset(t.strides, level) + len,
      rs + CoversIn(t.views[i], k, Offset(t.strides, level), len))
  {
    hide Inv, OnPath, CoversIn;
    InViews(t, i, level, k);
    var start := Offset(t.strides, level);
    var more := CoversIn(t.views[i], k, start, len);
    CoversInAscend(t, i, level, k, len);
    AscendingJoin(t.keys, rs, more, start);
    forall r: nat
      ensures r in rs + more <==> Candidate(t.keys, k, start + len, r) && Kept(t, k, level + 1, |t.keys[r]|)
    {
      CoversHere(t, i, level, k, len, r);
      if r in more { EarlierEnds(t, k, level, r); }
      if r < |t.keys| && |t.keys[r]| > start { EarlierEnds(t, k, level, r); }
    }
  }

  lemma CoversHere(t: Trie, i: nat, level: nat, k: seq<bool>, len: nat, r: nat)
    requires Inv(t) && OnPath(t, i, level, k)
    requires len <= t.strides[level] && Offset(t.strides, level) + len <= |k|
    ensures i < |t.views|
    ensures r in CoversIn(t.views[i], k, Offset(t.strides, level), len) <==>
      r < |t.keys| && t.keys[r] <= k && Offset(t.strides, level) < |t.keys[r]| <= Offset(t.strides, level) + len
  {
    hide Inv, OnPath, CoversIn;
    InViews(t, i, level, k);
    var start := Offset(t.strides, level);
    CoversInHas(t.views[i], k, start, len, r);
    if r in CoversIn(t.views[i], k, start, len) {
      var m: nat :| 0 < m <= len && EntryAt(t.views[i], k, start, m, r);
      EntryIsCover(t, i, level, k, m, r);
    }
    if r < |t.keys| && t.keys[r] <= k && start < |t.keys[r]| <= start + len {
      EntryIsCover(t, i, level, k, |t.keys[r]| - start, r);
    }
  }

  /** Levels further up end before a cover of this level. */
  lemma EarlierEnds(t: Trie, k: seq<bool>, level: nat, r: nat)
    requires level < |t.strides| && r < |t.keys| && Offset(t.strides, level) < |t.keys[r]|
    ensures Kept(t, k, level, |t.keys[r]|)
  {
    forall e | 0 <= e < level
      ensures EndAt(t.strides, k, e) < |t.keys[r]|
    {
      OffsetMono(t.strides, e + 1, level);
    }
  }

  // ----- Whole searches ----------------------------------------------------------------------------------

  /** What an exact-match search has collected at its end, in terms of the levels that the stored keys reach. */
  ghost predicate KeptAll(t: Trie, k: seq<bool>, rs: seq<nat>) {
    && Ascending(t.keys, rs)
    && forall r: nat :: r in rs <==> Candidate(t.keys, k, |k|, r) && KeptReached(t, k, |t.keys[r]|)
  }

  ghost predicate KeptReached(t: Trie, k: seq<bool>, length: nat) {
    forall e :: 0 <= e < |t.strides| && Reaches(t.strides, t.keys, k, e) && length <= EndAt(t.strides, k, e) ==>
      k[..EndAt(t.strides, k, e)] in t.keys
  }

  lemma ReachesUp(t: Trie, k: seq<bool>, e: nat, level: nat)
    requires e <= level <= |t.strides| && Reaches(t.strides, t.keys, k, level)
    ensures Reaches(t.strides, t.keys, k, e)
  {
    if 0 < e < level {
      OffsetMono(t.strides, e, level);
      var r :| 0 <= r < |t.keys| && k[..Offset(t.strides, level)] < t.keys[r];
      assert k[..Offset(t.strides, e)] < t.keys[r];
    }
  }

  /** The levels on the way to the end of the search are those that the stored keys reach. */
  lemma LevelsReached(t: Trie, i: nat, level: nat, k: seq<bool>, len: nat, e: nat)
    requires Inv(t) && Live(t) && StopsAt(t, i, level, k, len) && e < |t.strides|
    ensures Reaches(t.strides, t.keys, k, e) <==> e <= level
  {
    hide Inv, Reaches, Live;
    if Reaches(t.strides, t.keys, k, e) { NotReachedBeyond(t, k, i, level, len, e); }
    if e <= level {
      ReachedByNode(t, i, level, k);
      ReachesUp(t, k, e, level);
    }
  }

  lemma KeptAtStop(t: Trie, i: nat, level: nat, k: seq<bool>, len: nat, rs: seq<nat>)
    requires Inv(t) && Live(t) && StopsAt(t, i, level, k, len)
    requires level < |t.strides| && KeptSoFar(t, k, level + 1, Offset(t.strides, level) + len, rs)
    ensures KeptAll(t, k, rs)
  {
    hide Inv, StopsAt, Reaches, Live;
    StopWithin(t, i, level, k, len);
    forall e | 0 <= e < |t.strides|
      ensures Reaches(t.strides, t.keys, k, e) <==> e <= level
    {
      LevelsReached(t, i, level, k, len, e);
    }
    forall r: nat
      ensures Candidate(t.keys, k, |k|, r) <==> Candidate(t.keys, k, Offset(t.strides, level) + len, r)
    {
      if Candidate(t.keys, k, |k|, r) { CoverWithinStride(t, k, i, level, len, r); }
    }
  }

  /**
   * An exact-match search that collects reports the prefix that ends where it ends, whether that is the one
   * searched for or not.
   */
  ghost predicate FoundAtEnd(t: Trie, k: seq<bool>, idx: Option<nat>)
    requires Inv(t)
  {
    forall i, level, len {:trigger StopsAt(t, i, level, k, len)} :: StopsAt(t, i, level, k, len) ==>
      if len > 0 then IsIndexOf(t.keys, k[..Offset(t.strides, level) + len], idx) else idx.None?
  }

  lemma EndIsFound(t: Trie, i: nat, level: nat, k: seq<bool>, len: nat, idx: Option<nat>)
    requires Inv(t) && StopsAt(t, i, level, k, len)
    requires idx == if len > 0 && Cut(k, Offset(t.strides, level), len) in t.views[i].pfxs
      then Some(t.views[i].pfxs[Cut(k, Offset(t.strides, level), len)]) else None
    ensures FoundAtEnd(t, k, idx)
  {
    hide Inv, StopsAt;
    StopWithin(t, i, level, k, len);
    if len > 0 {
      EndStored(t, i, level, k, len);
      if idx.Some? { EntryIsCover(t, i, level, k, len, idx.value); }
    }
    forall i', level', len' | StopsAt(t, i', level', k, len')
      ensures i' == i && level' == level && len' == len
    {
      StopUnique(t, i, level, k, len, i', level', len');
    }
  }
}
