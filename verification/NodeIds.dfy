/** Node ids and bit spans: where a prefix lives, and which prefixes live below a span of a node. */
module NodeIds {
  import opened Wrappers
  import opened Bits
  import opened Af
  import opened Stride
  import opened Chain
  import Protocol
  import ProtocolInv

  /** The low bits that a prefix has in its node. */
  datatype BitSpan = BitSpan(bits: nat, len: nat)

  /** The node id and the span at a level, spelled out. */
  ghost predicate LivesAt(bits: nat, strides: seq<nat>, p: PrefixId, id: PrefixId, span: BitSpan, level: nat)
    requires GoodId(bits, p)
  {
    && level < |strides| && Offset(strides, level) < p.len <= Offset(strides, level + 1)
    && id == Cleaned(bits, p.net, Offset(strides, level))
    && var len := p.len - Offset(strides, level);
       span == BitSpan(GetNibble(bits, p.net, Offset(strides, level), len), len)
  }

  /** Walks the strides up to the one that the prefix ends in; None stands for a prefix that is too long. */
  method GetNodeIdForPrefix(bits: nat, strides: seq<nat>, p: PrefixId) returns (r: Option<(PrefixId, BitSpan)>)
    requires GoodId(bits, p) && forall i :: 0 <= i < |strides| ==> IsStride(strides[i])
    ensures r.Some? <==> p.len <= Offset(strides, |strides|)
    ensures r.Some? ==> exists level :: LivesAt(bits, strides, p, r.value.0, r.value.1, level)
    ensures r.Some? ==> r.value.1.bits < Pow2(bits) && AddNibble(bits, r.value.0, r.value.1.bits, r.value.1.len) == p
  {
    hide TruncateToLen, Pow2, Val, ToBits;
    var acc := 0;
    for i := 0 to |strides|
      invariant acc == Offset(strides, i) < p.len
    {
      acc := acc + strides[i];
      OffsetMono(strides, i + 1, |strides|);
      if acc >= p.len {
        var nodeLen := acc - strides[i];
        var spanBits := Shr(Shl(p.net, nodeLen, bits), bits - (p.len - nodeLen));
        SpanIsNibble(bits, p, nodeLen, strides[i]);
        assert LivesAt(bits, strides, p, Cleaned(bits, p.net, nodeLen), BitSpan(spanBits, p.len - nodeLen), i);
        return Some((Cleaned(bits, p.net, nodeLen), BitSpan(Val(ToBits(spanBits, 32)), p.len - nodeLen)));
      }
    }
    return None;
  }

  /** The span is the nibble, unharmed by the cast to 32 bits, and appending it gives the prefix back. */
  lemma SpanIsNibble(bits: nat, p: PrefixId, nodeLen: nat, stride: nat)
    requires GoodId(bits, p) && IsStride(stride) && nodeLen < p.len <= nodeLen + stride
    ensures var n := p.len - nodeLen; var span := GetNibble(bits, p.net, nodeLen, n);
      && Shr(Shl(p.net, nodeLen, bits), bits - n) == span == Val(ToBits(span, 32))
      && AddNibble(bits, Cleaned(bits, p.net, nodeLen), span, n) == p
  {
    hide Pow2, Val, ToBits;
    var n := p.len - nodeLen;
    NibbleIsSlice(bits, p.net, nodeLen, n);
    Truncate32(GetNibble(bits, p.net, nodeLen, n), n);
    RebuildStep(bits, p.net, nodeLen, n);
  }

  /** The node that the insertion loop makes the host of a prefix is the one that the id names. */
  lemma HostIsNamed<M>(c: Protocol.Config<M>, s: Protocol.State<M>, p: PrefixId, place: Protocol.Place,
                       level: nat, id: PrefixId, span: BitSpan, level': nat)
    requires Protocol.ConfigOk(c) && GoodId(c.bits, p)
    requires ProtocolInv.HostedBy(c, s, p, level, place) && LivesAt(c.bits, c.strides, p, id, span, level')
    ensures ProtocolInv.IsNodeAt(s, place, id, level)
    ensures ProtocolInv.PfxSet(c, Protocol.BitsAt(s, place), span.bits, span.len)
  {
    hide ProtocolInv.PfxSet, TruncateToLen, GetNibble, ProtocolInv.IsNodeAt;
    Protocol.LevelWithin(c, level);
    Protocol.LevelWithin(c, level');
    if level < level' {
      OffsetMono(c.strides, level + 1, level');
    } else if level' < level {
      OffsetMono(c.strides, level' + 1, level);
    }
  }
}
