/** What the client holds of the OSDs and groups that the monitor sent, field by field. */
module Arrival {
  import opened Wire
  import opened ClusterCodec

  // ---- Shards --------------------------------------------------------------------------------

  /** The client holds a shard's core and the port it should connect to: the raw port, if there is
      one. */
  ghost predicate ShardArrived(s: ShardInfo, e: Shard) {
    && e.shardId == s.shardId && e.coreId == s.core.coreId
    && e.port == if s.core.rawPort != 0 then s.core.rawPort else s.core.port
  }

  ghost predicate Held(s: ShardInfo, entries: seq<Shard>) {
    exists k :: 0 <= k < |entries| && ShardArrived(s, entries[k])
  }

  ghost predicate SentAs(e: Shard, shards: seq<ShardInfo>) {
    exists i :: 0 <= i < |shards| && ShardArrived(shards[i], e)
  }

  /** The entries are those of the shards and no others; with no number twice, each number has
      one entry. */
  ghost predicate ShardsArrived(shards: seq<ShardInfo>, entries: seq<Shard>) {
    && |entries| == |shards|
    && (forall i :: 0 <= i < |shards| ==> Held(shards[i], entries))
    && (forall k :: 0 <= k < |entries| ==> SentAs(entries[k], shards))
    && (UniqueOn(ShardKey, shards) ==> forall k, l :: 0 <= k < l < |entries| ==> entries[k].shardId < entries[l].shardId)
  }

  lemma {:induction false} ShardsHeld(shards: seq<ShardInfo>)
    ensures var entries := MapAll(ShardOf, SortOn(ShardKey, shards));
            && |entries| == |shards|
            && (forall i :: 0 <= i < |shards| ==> Held(shards[i], entries))
            && (forall k :: 0 <= k < |entries| ==> SentAs(entries[k], shards))
  {
    var sorted := SortOn(ShardKey, shards);
    var entries := MapAll(ShardOf, sorted);
    SortLength(ShardKey, shards);
    forall i | 0 <= i < |shards|
      ensures Held(shards[i], entries)
    {
      var k := SortedTo(ShardKey, shards, shards[i]);
      assert ShardArrived(shards[i], entries[k]);
    }
    forall k | 0 <= k < |entries|
      ensures SentAs(entries[k], shards)
    {
      SortedFrom(ShardKey, shards, k);
      var i :| 0 <= i < |shards| && shards[i] == sorted[k];
      assert ShardArrived(shards[i], entries[k]);
    }
  }

  lemma {:induction false} ShardsArrive(shards: seq<ShardInfo>)
    ensures ShardsArrived(shards, MapAll(ShardOf, SortOn(ShardKey, shards)))
  {
    ShardsHeld(shards);
    if UniqueOn(ShardKey, shards) {
      SortStrict(ShardKey, shards);
      var sorted := SortOn(ShardKey, shards);
      var entries := MapAll(ShardOf, sorted);
      forall k, l | 0 <= k < l < |entries|
        ensures entries[k].shardId < entries[l].shardId
      {
        assert ShardKey(sorted[k]) < ShardKey(sorted[l]);
      }
    }
  }

  // ---- OSDs ----------------------------------------------------------------------------------

  /** The client holds the OSD's number and address, whether it is in (bit 0) and up (bit 1), and
      its shards. */
  ghost predicate OsdArrived(o: OsdInfo, e: Endpoint) {
    && ReadsAs(o.osdId, e.osdId, 0x1_0000_0000) && e.address == o.address
    && 0 <= e.flags < 4 && (e.flags == 1 || e.flags == 3 <==> o.isIn) && (e.flags == 2 || e.flags == 3 <==> o.isUp)
    && ShardsArrived(o.shards, e.shards)
  }

  /** The entry that an OSD becomes holds what the monitor knows of it. */
  lemma {:induction false} EndpointArrives(o: OsdInfo)
    ensures OsdArrived(o, EndpointOf(o))
  {
    ShardsArrive(o.shards);
  }

  // ---- Groups --------------------------------------------------------------------------------

  /** A signed number read as unsigned. */
  ghost predicate ReadsAs(x: int, r: int, modulus: int) {
    r == if 0 <= x then x else x + modulus
  }

  /** The client holds the group's numbers, version, state, core and members. */
  ghost predicate PgArrived(poolId: Int32, g: PgInfo, r: Route) {
    && ReadsAs(poolId, r.poolId, 0x1_0000_0000) && ReadsAs(g.pgId, r.pgId, 0x1_0000_0000)
    && ReadsAs(g.version, r.version, 0x1_0000_0000_0000_0000) && ReadsAs(g.state, r.state, 0x1_0000_0000)
    && r.primaryShard == g.coreIndex && |r.osds| == |g.osds|
    && forall i :: 0 <= i < |g.osds| ==> ReadsAs(g.osds[i], r.osds[i], 0x1_0000_0000)
  }

  lemma RouteArrives(poolId: Int32, g: PgInfo)
    ensures PgArrived(poolId, g, RouteOf(PoolPg(poolId, g)))
  {
  }

  // ---- The bytes of a record -----------------------------------------------------------------

  /** Shard 1 on core 2 with raw port 9001: number, port and core, least significant byte first. */
  lemma ShardBytes()
    ensures EncodeShard(ShardInfo(1, Core(9001, 8001, 2))) == [1, 0, 0, 0, 41, 35, 2, 0]
  {
    FourBytes(1);
    TwoBytes(9001);
    TwoBytes(2);
  }

  /** OSD 300, in and up, with an address of two bytes and no shard. */
  lemma OsdBytes()
    ensures EncodeOsd(OsdInfo(300, true, true, [49, 50], [])) == [44, 1, 0, 0, 3, 0, 0, 0, 2, 0, 0, 0, 49, 50]
  {
    FourBytes(300);
    FourBytes(3);
    TwoBytes(2);
    TwoBytes(0);
  }
}
