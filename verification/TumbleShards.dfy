/** Routing mutations to shards, in 64-bit wrap-around arithmetic (tumble/process.go:41-56 and
    tumble/model_mutation.go:125-133). */
module TumbleShards {

  import opened Ints

  type uint64 = x: int | 0 <= x < TWO_64
  type int64 = x: int | -TWO_63 <= x < TWO_63

  /** Conversion to int64, and the result of int64 arithmetic. */
  function Int64(x: int): int64 {
    (x + TWO_63) % TWO_64 - TWO_63
  }

  function Uint64(x: int): uint64 {
    x % TWO_64
  }

  /** expandedShardBounds; an invalid shard gets inverted bounds. */
  function ExpandedShardBounds(numShards: uint64, shard: uint64): (int64, int64) {
    if shard >= numShards then (0, -1)
    else
      var perShard := Int64(MAX_UINT64 / numShards);
      var low := Int64(MIN_INT64 + Int64(Int64(shard) * perShard));
      (low, if shard == numShards - 1 then MAX_INT64 else Int64(low + perShard))
  }

  /** realMutation.shard. */
  function Shard(numShards: uint64, expandedShard: int64): uint64
    requires numShards >= 1
  {
    var perShard := MAX_UINT64 / numShards;
    PerShardPositive(numShards);
    var ret := Uint64(Int64(expandedShard - MIN_INT64)) / perShard;
    QuotientFits(Uint64(Int64(expandedShard - MIN_INT64)), perShard);
    if ret >= numShards then numShards - 1 else ret
  }

  lemma QuotientFits(x: uint64, d: int)
    requires d >= 1
    ensures 0 <= x / d < TWO_64
  {
    DivBounds(x, d);
    if x / d >= TWO_64 { MulAtLeast(x / d, d); }
  }

  lemma MulAtLeast(a: int, d: int)
    requires a >= 0 && d >= 1
    ensures a * d >= a
  {
    assert a * d == a + a * (d - 1);
  }

  lemma DivBounds(x: int, d: int)
    requires x >= 0 && d >= 1
    ensures 0 <= x / d && (x / d) * d <= x < (x / d) * d + d
  {
    assert x == (x / d) * d + x % d;
  }

  lemma AtLeastOne(q: int, d: int, x: int)
    requires q >= 0 && d <= x < q * d + d
    ensures q >= 1
  {
  }

  lemma PerShardPositive(numShards: uint64)
    requires numShards >= 1
    ensures 1 <= MAX_UINT64 / numShards
    ensures numShards * (MAX_UINT64 / numShards) <= MAX_UINT64 < numShards * (MAX_UINT64 / numShards) + numShards
  {
    DivBounds(MAX_UINT64, numShards);
    AtLeastOne(MAX_UINT64 / numShards, numShards, MAX_UINT64);
  }

  /** Wrap-around forgets multiples of 2^64, and nothing else. */
  lemma WrapShift(x: int, k: int)
    ensures Int64(x + k * TWO_64) == Int64(x)
  {
    assert (x + TWO_63 + k * TWO_64) % TWO_64 == (x + TWO_63) % TWO_64;
  }

  lemma WrapParts(x: int) returns (k: int)
    ensures Int64(x) == x + k * TWO_64
  {
    k := -((x + TWO_63) / TWO_64);
  }

  lemma WrapOfWrap(x: int, y: int)
    ensures Int64(y + Int64(x)) == Int64(y + x)
  {
    var k := WrapParts(x);
    WrapShift(y + x, k);
  }

  lemma WrapProduct(x: int, y: int)
    ensures Int64(Int64(x) * Int64(y)) == Int64(x * y)
  {
    var a := WrapParts(x);
    var b := WrapParts(y);
    ProductParts(x, y, a, b, TWO_64);
    WrapShift(x * y, x * b + a * y + a * b * TWO_64);
  }

  /** Intermediate overflow does no harm when the true result fits. */
  lemma WrapSum(a: int, x: int)
    requires MIN_INT64 <= a + x <= MAX_INT64
    ensures Int64(a + Int64(x)) == a + x
  {
    WrapOfWrap(x, a);
  }

  lemma WrapAffine(a: int, x: int, y: int)
    requires MIN_INT64 <= a + x * y <= MAX_INT64
    ensures Int64(a + Int64(Int64(x) * Int64(y))) == a + x * y
  {
    WrapProduct(x, y);
    WrapSum(a, x * y);
  }

  lemma ProductParts(x: int, y: int, a: int, b: int, m: int)
    ensures (x + a * m) * (y + b * m) == x * y + (x * b + a * y + a * b * m) * m
  {
  }

  /** The bounds without wrap-around. */
  lemma BoundsExact(numShards: uint64, shard: uint64)
    requires numShards >= 1 && shard < numShards
    ensures var perShard := MAX_UINT64 / numShards;
      var (low, high) := ExpandedShardBounds(numShards, shard);
      && low == MIN_INT64 + shard * perShard
      && high == if shard == numShards - 1 then MAX_INT64 else low + perShard
  {
    hide Int64;
    var perShard := MAX_UINT64 / numShards;
    SharesFit(numShards, shard);
    WrapAffine(MIN_INT64, shard, perShard);
    WrapSum(MIN_INT64 + shard * perShard, perShard);
  }

  /** The shares of the shards up to a valid one fit the unsigned range. */
  lemma SharesFit(numShards: uint64, shard: uint64)
    requires numShards >= 1 && shard < numShards
    ensures 0 <= shard * (MAX_UINT64 / numShards)
    ensures shard * (MAX_UINT64 / numShards) + MAX_UINT64 / numShards <= MAX_UINT64
  {
    var perShard := MAX_UINT64 / numShards;
    PerShardPositive(numShards);
    MulMonotone(shard + 1, numShards, perShard);
    assert (shard + 1) * perShard == shard * perShard + perShard;
  }

  /** A valid shard has a proper range. */
  lemma BoundsProper(numShards: uint64, shard: uint64)
    requires numShards >= 1
    ensures ExpandedShardBounds(numShards, shard).0 < ExpandedShardBounds(numShards, shard).1 <==> shard < numShards
  {
    if shard < numShards {
      BoundsExact(numShards, shard);
      PerShardPositive(numShards);
      var perShard := MAX_UINT64 / numShards;
      MulMonotone(shard, numShards - 1, perShard);
      assert (numShards - 1) * perShard == numShards * perShard - perShard;
    }
  }

  /** Every mutation lies within the query bounds of the shard it is routed to; so the bounds cover
      all of int64. */
  lemma RoutedWithinBounds(numShards: uint64, e: int64)
    requires numShards >= 1
    ensures Shard(numShards, e) < numShards
    ensures var (low, high) := ExpandedShardBounds(numShards, Shard(numShards, e)); low <= e <= high
  {
    var perShard := MAX_UINT64 / numShards;
    PerShardPositive(numShards);
    var offset := e - MIN_INT64;
    var k := WrapParts(offset);
    assert Uint64(Int64(offset)) == offset by {
      assert (offset + k * TWO_64) % TWO_64 == offset % TWO_64;
    }
    DivBounds(offset, perShard);
    var s := Shard(numShards, e);
    BoundsExact(numShards, s);
    if offset / perShard >= numShards {
      MulMonotone(numShards - 1, offset / perShard, perShard);
    }
  }

  lemma StepsApart(s: int, t: int, d: int)
    requires 0 <= s < t && d >= 1
    ensures s * d + d <= t * d
    ensures s * d + d == t * d ==> t == s + 1
  {
    assert t * d == s * d + d + (t - s - 1) * d;
    if t > s + 1 {
      MulAtLeast(t - s - 1, d);
    }
  }

  /** Two different shards' ranges meet at most in one point, and only if they are neighbours. */
  lemma BoundsOverlap(numShards: uint64, s: uint64, t: uint64, e: int64)
    requires s < t < numShards
    requires ExpandedShardBounds(numShards, s).0 <= e <= ExpandedShardBounds(numShards, s).1
    requires ExpandedShardBounds(numShards, t).0 <= e <= ExpandedShardBounds(numShards, t).1
    ensures t == s + 1 && e == ExpandedShardBounds(numShards, s).1 == ExpandedShardBounds(numShards, t).0
  {
    var perShard := MAX_UINT64 / numShards;
    PerShardPositive(numShards);
    BoundsExact(numShards, s);
    BoundsExact(numShards, t);
    StepsApart(s, t, perShard);
  }
}
