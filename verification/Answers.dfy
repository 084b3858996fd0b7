/** From indices into the arena to what the stored map says. */
module Answers {
  import opened Bits
  import opened Af
  import opened Rank
  import opened Records
  import opened TreeShape
  import opened TreeState
  import opened Below
  import opened LastNode

  /** Each record's key covers s, as a bit string, exactly when its prefix does. */
  lemma CoverAsKey<M>(bits: nat, prefixes: seq<Record<M>>, keys: seq<seq<bool>>, s: PrefixId, r: nat)
    requires KeysMatch(bits, prefixes, keys) && s.len <= bits && Canonical(bits, s) && r < |prefixes|
    ensures 1 <= prefixes[r].id.len && Covers(bits, prefixes[r].id, s) <==> Candidate(keys, Key(bits, s), s.len, r)
    ensures |keys[r]| == prefixes[r].id.len
  {
    CoversIsPrefixOrder(bits, prefixes[r].id, s);
  }

  /** Sharing the first bits, as bit strings and as truncated addresses. */
  lemma SharedBits<M>(bits: nat, prefixes: seq<Record<M>>, keys: seq<seq<bool>>, s: PrefixId, r: nat, off: nat)
    requires KeysMatch(bits, prefixes, keys) && s.len <= bits && Canonical(bits, s) && r < |prefixes| && off < s.len
    ensures Key(bits, s)[..off] < keys[r] <==>
      off < prefixes[r].id.len && TruncateToLen(bits, prefixes[r].id.net, off) == TruncateToLen(bits, s.net, off)
  {
    hide Val, ToBits, TruncateToLen;
    var q := prefixes[r].id;
    TruncateIsKeyPrefix(bits, q.net, off);
    TruncateIsKeyPrefix(bits, s.net, off);
    var p, p' := PrefixId(TruncateToLen(bits, q.net, off), off), PrefixId(TruncateToLen(bits, s.net, off), off);
    if off < q.len {
      assert keys[r][..off] == Key(bits, p);
      if Key(bits, p) == Key(bits, p') { KeyInjective(bits, p, p'); }
      assert Key(bits, s)[..off] == Key(bits, p');
    }
  }

  lemma ReachedAsKeys<M>(bits: nat, strides: seq<nat>, prefixes: seq<Record<M>>, keys: seq<seq<bool>>, s: PrefixId,
                         level: nat)
    requires KeysMatch(bits, prefixes, keys) && DistinctIds(prefixes) && s.len <= bits && Canonical(bits, s)
    requires level <= |strides| && Offset(strides, level) <= bits
    ensures Reached(bits, strides, AsMap(prefixes), s, level) <==> Reaches(strides, keys, Key(bits, s), level)
  {
    hide Key, TruncateToLen;
    var off := Offset(strides, level);
    if 0 < level && off < s.len {
      forall r | 0 <= r < |prefixes|
        ensures Key(bits, s)[..off] < keys[r] <==>
          off < prefixes[r].id.len && TruncateToLen(bits, prefixes[r].id.net, off) == TruncateToLen(bits, s.net, off)
      {
        SharedBits(bits, prefixes, keys, s, r, off);
      }
      if Reached(bits, strides, AsMap(prefixes), s, level) {
        var q :| q in AsMap(prefixes) && off < q.len && q.net < Pow2(bits)
          && TruncateToLen(bits, q.net, off) == TruncateToLen(bits, s.net, off);
        var r :| 0 <= r < |prefixes| && prefixes[r].id == q;
        assert Key(bits, s)[..off] < keys[r];
      }
      if Reaches(strides, keys, Key(bits, s), level) {
        var r :| 0 <= r < |keys| && Key(bits, s)[..off] < keys[r];
        assert prefixes[r].id in AsMap(prefixes);
      }
    }
  }

  lemma CoverBeyondAsMap<M>(bits: nat, strides: seq<nat>, prefixes: seq<Record<M>>, keys: seq<seq<bool>>, s: PrefixId)
    requires KeysMatch(bits, prefixes, keys) && DistinctIds(prefixes) && s.len <= bits && Canonical(bits, s)
    requires forall level :: 0 <= level <= |strides| ==> Offset(strides, level) <= bits
    ensures CoverPastLevels(bits, strides, AsMap(prefixes), s) <==> CoverBeyond(strides, keys, Key(bits, s))
  {
    hide Key, TruncateToLen, Reached, Reaches, KeysMatch;
    var m, k := AsMap(prefixes), Key(bits, s);
    forall level | 0 < level < |strides|
      ensures Reached(bits, strides, m, s, level) <==> Reaches(strides, keys, k, level)
    {
      ReachedAsKeys(bits, strides, prefixes, keys, s, level);
    }
    if CoverPastLevels(bits, strides, m, s) {
      var q :| q in m && 1 <= q.len && Covers(bits, q, s) &&
        forall level :: 0 < level < |strides| && Reached(bits, strides, m, s, level) ==> Offset(strides, level) < q.len;
      var r :| 0 <= r < |prefixes| && prefixes[r].id == q;
      CoverAsKey(bits, prefixes, keys, s, r);
    }
    if CoverBeyond(strides, keys, k) {
      var r: nat :| Candidate(keys, k, |k|, r) &&
        forall level :: 0 < level < |strides| && Reaches(strides, keys, k, level) ==>
          Offset(strides, level) < |keys[r]|;
      CandidateInRange(bits, prefixes, keys, k, |k|, r);
      CoverAsKey(bits, prefixes, keys, s, r);
      assert prefixes[r].id in m;
    }
  }

  lemma CandidateInRange<M>(bits: nat, prefixes: seq<Record<M>>, keys: seq<seq<bool>>, k: seq<bool>, limit: nat, r: nat)
    requires KeysMatch(bits, prefixes, keys) && Candidate(keys, k, limit, r)
    ensures r < |prefixes|
  {
  }

  /** The records at the given indices. */
  function Fetch<M>(prefixes: seq<Record<M>>, ids: seq<NodeId>): (recs: seq<Record<M>>)
    requires forall i :: 0 <= i < |ids| ==> ids[i].part < |prefixes|
    ensures |recs| == |ids| && forall i :: 0 <= i < |ids| ==> recs[i] == prefixes[ids[i].part]
  {
    seq(|ids|, i requires 0 <= i < |ids| => prefixes[ids[i].part])
  }

  /** Being strictly more specific, as bit strings and as prefixes. */
  lemma MoreSpecificAsMap<M>(bits: nat, prefixes: seq<Record<M>>, keys: seq<seq<bool>>, s: PrefixId, r: nat)
    requires KeysMatch(bits, prefixes, keys) && DistinctIds(prefixes)
    requires s.len <= bits && Canonical(bits, s) && r < |prefixes|
    ensures Key(bits, s) < keys[r] <==> prefixes[r].id in MoreSpecifics(bits, AsMap(prefixes), s)
  {
    hide Key, TruncateToLen;
    CoversIsPrefixOrder(bits, s, prefixes[r].id);
    assert prefixes[r].id in AsMap(prefixes);
  }

  /** Distinct indices of all more specifics fetch all more specific prefixes, each once. */
  lemma FetchedMoreSpecifics<M>(bits: nat, prefixes: seq<Record<M>>, t: Trie, s: PrefixId, ids: seq<NodeId>)
    requires KeysMatch(bits, prefixes, t.keys) && DistinctIds(prefixes) && s.len <= bits && Canonical(bits, s)
    requires NoDup(Parts(ids)) && forall r: nat :: r in Parts(ids) <==> IsMoreSpecific(t, Key(bits, s), r)
    ensures forall i :: 0 <= i < |ids| ==> ids[i].part < |prefixes|
    ensures ListsExactly(IdsOf(Fetch(prefixes, ids)), MoreSpecifics(bits, AsMap(prefixes), s))
    ensures forall rec :: rec in Fetch(prefixes, ids) ==> IsStored(AsMap(prefixes), rec)
  {
    hide Key, TruncateToLen, Canonical, MoreSpecifics;
    var k := Key(bits, s);
    forall i | 0 <= i < |ids|
      ensures ids[i].part < |prefixes| && Parts(ids)[i] in Parts(ids)
    {
      assert Parts(ids)[i] in Parts(ids);
    }
    var out, all := IdsOf(Fetch(prefixes, ids)), MoreSpecifics(bits, AsMap(prefixes), s);
    forall q
      ensures q in out <==> q in all
    {
      if q in out {
        var i :| 0 <= i < |out| && out[i] == q;
        MoreSpecificAsMap(bits, prefixes, t.keys, s, ids[i].part);
      }
      if q in all { MoreSpecificFetched(bits, prefixes, t, s, ids, q); }
    }
  }

  lemma MoreSpecificFetched<M>(bits: nat, prefixes: seq<Record<M>>, t: Trie, s: PrefixId, ids: seq<NodeId>, q: PrefixId)
    requires KeysMatch(bits, prefixes, t.keys) && DistinctIds(prefixes) && s.len <= bits && Canonical(bits, s)
    requires forall r: nat :: r in Parts(ids) <==> IsMoreSpecific(t, Key(bits, s), r)
    requires forall i :: 0 <= i < |ids| ==> ids[i].part < |prefixes|
    requires q in MoreSpecifics(bits, AsMap(prefixes), s)
    ensures q in IdsOf(Fetch(prefixes, ids))
  {
    hide Key, TruncateToLen, Canonical;
    var r :| 0 <= r < |prefixes| && prefixes[r].id == q;
    MoreSpecificAsMap(bits, prefixes, t.keys, s, r);
    assert IsMoreSpecific(t, Key(bits, s), r);
    assert r in Parts(ids);
    var i :| 0 <= i < |ids| && Parts(ids)[i] == r;
    assert IdsOf(Fetch(prefixes, ids))[i] == q;
  }
}
