/** The cluster map message: the monitor's encoder and the kernel client's decoder. */
module ClusterCodec {
  import opened Counting
  import opened Wire

  // ---- What the monitor has ------------------------------------------------------------------

  datatype Core = Core(rawPort: UInt32, port: UInt32, coreId: UInt32)

  /** A shard's entry in the map from shard number to core. */
  datatype ShardInfo = ShardInfo(shardId: UInt32, core: Core)

  /** The shards are listed as the map happens to yield them. */
  datatype OsdInfo = OsdInfo(osdId: Int32, isIn: bool, isUp: bool, address: seq<Byte>, shards: seq<ShardInfo>)

  datatype PgInfo = PgInfo(pgId: Int32, version: Int64, state: Int32, coreIndex: UInt32, osds: seq<Int32>)

  /** A pool's entry in the map from pool to groups. */
  datatype PoolInfo = PoolInfo(poolId: Int32, pgs: seq<PgInfo>)

  // ---- What the client holds -----------------------------------------------------------------

  datatype Shard = Shard(shardId: nat, port: nat, coreId: nat)

  datatype Endpoint = Endpoint(osdId: nat, flags: nat, address: seq<Byte>, shards: seq<Shard>)

  datatype Route = Route(poolId: nat, pgId: nat, version: nat, state: nat, primaryShard: nat, osds: seq<nat>)

  datatype ClusterView = ClusterView(osdEpoch: nat, pgEpoch: nat, poolPgCount: nat, osds: seq<Endpoint>, routes: seq<Route>)

  // ---- Encoding ------------------------------------------------------------------------------

  function Flags(o: OsdInfo): nat {
    (if o.isIn then 1 else 0) + if o.isUp then 2 else 0
  }

  /** The raw port if there is one, else the port. */
  function PortOf(c: Core): UInt32 {
    if c.rawPort == 0 then c.port else c.rawPort
  }

  function EncodeShard(s: ShardInfo): seq<Byte> {
    Le(s.shardId, 4) + Le(PortOf(s.core), 2) + Le(s.core.coreId, 2)
  }

  function OsdHeader(o: OsdInfo): (r: seq<Byte>)
    ensures |r| == 12
  {
    Le(U32(o.osdId), 4) + Le(Flags(o), 4) + Le(|o.address|, 2) + Le(|o.shards|, 2)
  }

  function EncodeOsd(o: OsdInfo): seq<Byte> {
    OsdHeader(o) + o.address + EncodeAll(EncodeShard, SortOn(ShardKey, o.shards))
  }

  function ShardKey(s: ShardInfo): int { s.shardId }

  function OsdKey(o: OsdInfo): int { o.osdId }

  function PgKey(p: PgInfo): int { p.pgId }

  function PoolKey(p: PoolInfo): int { p.poolId }

  // ---- Sorting -------------------------------------------------------------------------------

  function InsertOn<T>(key: T -> int, s: seq<T>, x: T): seq<T> {
    if s == [] || key(s[|s| - 1]) <= key(x) then s + [x]
    else InsertOn(key, s[..|s| - 1], x) + [s[|s| - 1]]
  }

  /** What sort.Slice leaves: the same elements in order of their keys. */
  function SortOn<T>(key: T -> int, s: seq<T>): seq<T> {
    if s == [] then [] else InsertOn(key, SortOn(key, s[..|s| - 1]), s[|s| - 1])
  }

  ghost predicate InOrder<T>(key: T -> int, s: seq<T>) {
    forall i, j :: 0 <= i < j < |s| ==> key(s[i]) <= key(s[j])
  }

  lemma {:induction false} InsertSame<T>(key: T -> int, s: seq<T>, x: T)
    ensures multiset(InsertOn(key, s, x)) == multiset(s) + multiset{x}
  {
    if s != [] && key(s[|s| - 1]) > key(x) {
      InsertSame(key, s[..|s| - 1], x);
      assert s == s[..|s| - 1] + [s[|s| - 1]];
    }
  }

  lemma {:induction false} InsertBelow<T>(key: T -> int, s: seq<T>, x: T, b: int)
    requires key(x) <= b && forall i :: 0 <= i < |s| ==> key(s[i]) <= b
    ensures forall i :: 0 <= i < |InsertOn(key, s, x)| ==> key(InsertOn(key, s, x)[i]) <= b
  {
    if s != [] && key(s[|s| - 1]) > key(x) {
      InsertBelow(key, s[..|s| - 1], x, b);
    }
  }

  lemma {:induction false} InsertSorted<T>(key: T -> int, s: seq<T>, x: T)
    requires InOrder(key, s)
    ensures InOrder(key, InsertOn(key, s, x))
  {
    if s != [] && key(s[|s| - 1]) > key(x) {
      InsertSorted(key, s[..|s| - 1], x);
      InsertBelow(key, s[..|s| - 1], x, key(s[|s| - 1]));
    }
  }

  lemma {:induction false} SortSorts<T>(key: T -> int, s: seq<T>)
    ensures InOrder(key, SortOn(key, s))
  {
    if s != [] {
      var k := |s| - 1;
      SortSorts(key, s[..k]);
      InsertSorted(key, SortOn(key, s[..k]), s[k]);
    }
  }

  lemma {:induction false} SortSame<T>(key: T -> int, s: seq<T>)
    ensures multiset(SortOn(key, s)) == multiset(s)
  {
    if s != [] {
      var k := |s| - 1;
      SortSame(key, s[..k]);
      InsertSame(key, SortOn(key, s[..k]), s[k]);
      assert s == s[..k] + [s[k]];
    }
  }

  function EncodeReplica(osd: Int32): seq<Byte> { Le(U32(osd), 4) }

  /** One group of a pool. */
  datatype PoolPg = PoolPg(poolId: Int32, pg: PgInfo)

  function PgHeader(p: PoolPg): (r: seq<Byte>)
    ensures |r| == 28
  {
    Le(U32(p.poolId), 4) + Le(U32(p.pg.pgId), 4) + Le(U64(p.pg.version), 8) + Le(U32(p.pg.state), 4)
    + Le(p.pg.coreIndex, 4) + Le(|p.pg.osds|, 4)
  }

  function EncodePg(p: PoolPg): seq<Byte> {
    PgHeader(p) + EncodeAll(EncodeReplica, p.pg.osds)
  }

  function PoolPgs(p: PoolInfo): seq<PoolPg> {
    MapAll((pg: PgInfo) => PoolPg(p.poolId, pg), SortOn(PgKey, p.pgs))
  }

  /** All groups, pool by pool. */
  function AllPgs(pools: seq<PoolInfo>): seq<PoolPg> {
    if pools == [] then [] else AllPgs(pools[..|pools| - 1]) + PoolPgs(pools[|pools| - 1])
  }

  function EncodeHeader(osdEpoch: UInt64, pgEpoch: UInt64, osdCount: nat, pgCount: nat): (r: seq<Byte>)
    ensures |r| == 24
  {
    Le(osdEpoch, 8) + Le(pgEpoch, 8) + Le(osdCount, 4) + Le(pgCount, 4)
  }

  function EncodeMap(osdEpoch: UInt64, pgEpoch: UInt64, osds: seq<OsdInfo>, pools: seq<PoolInfo>): seq<Byte> {
    var pgs := AllPgs(SortOn(PoolKey, pools));
    EncodeHeader(osdEpoch, pgEpoch, |osds|, |pgs|) + EncodeAll(EncodeOsd, SortOn(OsdKey, osds)) + EncodeAll(EncodePg, pgs)
  }

  // ---- Decoding ------------------------------------------------------------------------------

  const MAX_ADDR_LEN := 256

  function Field(s: seq<Byte>, at: nat, n: nat): nat
    requires at + n <= |s|
  {
    Unle(s[at..at + n])
  }

  function ParseShard(s: seq<Byte>): Parsed<Shard> {
    if |s| < 8 then Err(EPROTO)
    else Ok(Shard(Field(s, 0, 4), Field(s, 4, 2), Field(s, 6, 2)), s[8..])
  }

  function ParseOsd(s: seq<Byte>): Parsed<Endpoint> {
    if |s| < 12 then Err(EPROTO)
    else
      var addressLen := Field(s, 8, 2);
      var body := s[12..];
      if addressLen >= MAX_ADDR_LEN then Err(E2BIG)
      else if |body| < addressLen then Err(EPROTO)
      else
        match ParseAll(ParseShard, body[addressLen..], Field(s, 10, 2))
        case Err(e) => Err(e)
        case Ok(shards, rest) => Ok(Endpoint(Field(s, 0, 4), Field(s, 4, 4), body[..addressLen], shards), rest)
  }

  function ParseReplica(s: seq<Byte>): Parsed<nat> {
    if |s| < 4 then Err(EPROTO) else Ok(Field(s, 0, 4), s[4..])
  }

  function ParsePg(s: seq<Byte>): Parsed<Route> {
    if |s| < 28 then Err(EPROTO)
    else
      match ParseAll(ParseReplica, s[28..], Field(s, 24, 4))
      case Err(e) => Err(e)
      case Ok(osds, rest) =>
        Ok(Route(Field(s, 0, 4), Field(s, 4, 4), Field(s, 8, 8), Field(s, 16, 4), Field(s, 20, 4), osds), rest)
  }

  /** How many routes belong to the pool. */
  function OfPool(routes: seq<Route>, poolId: nat): nat {
    if routes == [] then 0
    else OfPool(routes[..|routes| - 1], poolId) + if routes[|routes| - 1].poolId == poolId then 1 else 0
  }

  function ParseMap(s: seq<Byte>, poolId: nat): Parsed<ClusterView> {
    if |s| < 24 then Err(EPROTO)
    else
      match ParseAll(ParseOsd, s[24..], Field(s, 16, 4))
      case Err(e) => Err(e)
      case Ok(osds, rest) =>
        match ParseAll(ParsePg, rest, Field(s, 20, 4))
        case Err(e) => Err(e)
        case Ok(routes, rest) =>
          if rest != [] then Err(EPROTO)
          else if OfPool(routes, poolId) == 0 then Err(ENOENT)
          else Ok(ClusterView(Field(s, 0, 8), Field(s, 8, 8), OfPool(routes, poolId), osds, routes), [])
  }

  // ---- Round trip ----------------------------------------------------------------------------

  predicate FitsShard(s: ShardInfo) {
    PortOf(s.core) < 0x1_0000 && s.core.coreId < 0x1_0000
  }

  function ShardOf(s: ShardInfo): Shard {
    Shard(s.shardId, PortOf(s.core), s.core.coreId)
  }

  predicate FitsOsd(o: OsdInfo) {
    && |o.address| < MAX_ADDR_LEN && |o.shards| < 0x1_0000
    && forall i :: 0 <= i < |o.shards| ==> FitsShard(o.shards[i])
  }

  /** An OSD as the client should hold it. */
  function EndpointOf(o: OsdInfo): Endpoint {
    Endpoint(U32(o.osdId), Flags(o), o.address, MapAll(ShardOf, SortOn(ShardKey, o.shards)))
  }

  predicate FitsPg(p: PgInfo) {
    |p.osds| < 0x1_0000_0000
  }

  /** A group as the client should hold it. */
  function RouteOf(p: PoolPg): Route {
    Route(U32(p.poolId), U32(p.pg.pgId), U64(p.pg.version), U32(p.pg.state), p.pg.coreIndex, MapAll(U32, p.pg.osds))
  }

  /** Six parts laid end to end are found again at their offsets. */
  lemma SixParts(a: seq<Byte>, b: seq<Byte>, c: seq<Byte>, d: seq<Byte>, e: seq<Byte>, f: seq<Byte>, rest: seq<Byte>)
    ensures var s := a + b + c + d + e + f + rest;
            var ab := |a| + |b|;
            var abcd := ab + |c| + |d|;
            && s[0..|a|] == a && s[|a|..ab] == b && s[ab..ab + |c|] == c && s[ab + |c|..abcd] == d
            && s[abcd..abcd + |e|] == e && s[abcd + |e|..abcd + |e| + |f|] == f && s[abcd + |e| + |f|..] == rest
  {
  }

  lemma FourParts(a: seq<Byte>, b: seq<Byte>, c: seq<Byte>, d: seq<Byte>, rest: seq<Byte>)
    ensures var s := a + b + c + d + rest;
            var ab := |a| + |b|;
            && s[0..|a|] == a && s[|a|..ab] == b && s[ab..ab + |c|] == c && s[ab + |c|..ab + |c| + |d|] == d
            && s[ab + |c| + |d|..] == rest
  {
  }

  lemma ThreeParts(a: seq<Byte>, b: seq<Byte>, c: seq<Byte>, rest: seq<Byte>)
    ensures var s := a + b + c + rest;
            s[0..|a|] == a && s[|a|..|a| + |b|] == b && s[|a| + |b|..|a| + |b| + |c|] == c && s[|a| + |b| + |c|..] == rest
  {
  }

  lemma ShardReads(x: ShardInfo)
    requires FitsShard(x)
    ensures Reads(EncodeShard, ParseShard, ShardOf, x)
  {
    Widths();
    LeRoundTrip(x.shardId, 4);
    LeRoundTrip(PortOf(x.core), 2);
    LeRoundTrip(x.core.coreId, 2);
    forall rest: seq<Byte>
      ensures ParseShard(EncodeShard(x) + rest) == Ok(ShardOf(x), rest)
    {
      ThreeParts(Le(x.shardId, 4), Le(PortOf(x.core), 2), Le(x.core.coreId, 2), rest);
    }
  }

  lemma ReplicaReads(x: Int32)
    ensures Reads(EncodeReplica, ParseReplica, U32, x)
  {
    Widths();
    LeRoundTrip(U32(x), 4);
    forall rest: seq<Byte>
      ensures ParseReplica(EncodeReplica(x) + rest) == Ok(U32(x), rest)
    {
      ThreeParts(Le(U32(x), 4), [], [], rest);
      assert Le(U32(x), 4) + [] + [] + rest == EncodeReplica(x) + rest;
    }
  }

  lemma PgHeaderReads(p: PoolPg, rest: seq<Byte>)
    requires FitsPg(p.pg)
    ensures var s := PgHeader(p) + rest;
            && Field(s, 0, 4) == U32(p.poolId) && Field(s, 4, 4) == U32(p.pg.pgId) && Field(s, 8, 8) == U64(p.pg.version)
            && Field(s, 16, 4) == U32(p.pg.state) && Field(s, 20, 4) == p.pg.coreIndex && Field(s, 24, 4) == |p.pg.osds|
            && s[28..] == rest
  {
    Widths();
    LeRoundTrip(U32(p.poolId), 4);
    LeRoundTrip(U32(p.pg.pgId), 4);
    LeRoundTrip(U64(p.pg.version), 8);
    LeRoundTrip(U32(p.pg.state), 4);
    LeRoundTrip(p.pg.coreIndex, 4);
    LeRoundTrip(|p.pg.osds|, 4);
    SixParts(Le(U32(p.poolId), 4), Le(U32(p.pg.pgId), 4), Le(U64(p.pg.version), 8), Le(U32(p.pg.state), 4),
             Le(p.pg.coreIndex, 4), Le(|p.pg.osds|, 4), rest);
  }

  lemma PgReads(p: PoolPg)
    requires FitsPg(p.pg)
    ensures Reads(EncodePg, ParsePg, RouteOf, p)
  {
    forall rest: seq<Byte>
      ensures ParsePg(EncodePg(p) + rest) == Ok(RouteOf(p), rest)
    {
      var tail := EncodeAll(EncodeReplica, p.pg.osds) + rest;
      assert EncodePg(p) + rest == PgHeader(p) + tail;
      PgHeaderReads(p, tail);
      forall i | 0 <= i < |p.pg.osds|
        ensures Reads(EncodeReplica, ParseReplica, U32, p.pg.osds[i])
      {
        ReplicaReads(p.pg.osds[i]);
      }
      ListRoundTrip(EncodeReplica, ParseReplica, U32, p.pg.osds, rest);
    }
  }

  lemma OsdHeaderReads(o: OsdInfo, rest: seq<Byte>)
    requires FitsOsd(o)
    ensures var s := OsdHeader(o) + rest;
            && Field(s, 0, 4) == U32(o.osdId) && Field(s, 4, 4) == Flags(o)
            && Field(s, 8, 2) == |o.address| && Field(s, 10, 2) == |o.shards| && s[12..] == rest
  {
    Widths();
    LeRoundTrip(U32(o.osdId), 4);
    LeRoundTrip(Flags(o), 4);
    LeRoundTrip(|o.address|, 2);
    LeRoundTrip(|o.shards|, 2);
    FourParts(Le(U32(o.osdId), 4), Le(Flags(o), 4), Le(|o.address|, 2), Le(|o.shards|, 2), rest);
  }

  /** Sorting neither adds nor loses elements. */
  lemma {:induction false} SortLength<T>(key: T -> int, s: seq<T>)
    ensures |SortOn(key, s)| == |s|
  {
    SortSame(key, s);
    assert |multiset(s)| == |s| && |multiset(SortOn(key, s))| == |SortOn(key, s)|;
  }

  lemma {:induction false} SortMember<T>(key: T -> int, s: seq<T>, x: T)
    ensures x in SortOn(key, s) <==> x in s
  {
    SortSame(key, s);
    assert x in s <==> x in multiset(s);
    assert x in SortOn(key, s) <==> x in multiset(SortOn(key, s));
  }

  lemma {:induction false} SortedFrom<T>(key: T -> int, s: seq<T>, i: nat)
    requires i < |SortOn(key, s)|
    ensures SortOn(key, s)[i] in s
  {
    SortMember(key, s, SortOn(key, s)[i]);
  }

  lemma {:induction false} SortedTo<T>(key: T -> int, s: seq<T>, x: T) returns (i: nat)
    requires x in s
    ensures i < |SortOn(key, s)| && SortOn(key, s)[i] == x
  {
    SortMember(key, s, x);
    i :| 0 <= i < |SortOn(key, s)| && SortOn(key, s)[i] == x;
  }

  lemma ShardsRead(o: OsdInfo, rest: seq<Byte>)
    requires FitsOsd(o)
    ensures var shards := SortOn(ShardKey, o.shards);
            ParseAll(ParseShard, EncodeAll(EncodeShard, shards) + rest, |o.shards|) == Ok(MapAll(ShardOf, shards), rest)
  {
    var shards := SortOn(ShardKey, o.shards);
    SortLength(ShardKey, o.shards);
    forall i | 0 <= i < |shards|
      ensures Reads(EncodeShard, ParseShard, ShardOf, shards[i])
    {
      SortedFrom(ShardKey, o.shards, i);
      ShardReads(shards[i]);
    }
    ListRoundTrip(EncodeShard, ParseShard, ShardOf, shards, rest);
  }

  lemma OsdReads(o: OsdInfo)
    requires FitsOsd(o)
    ensures Reads(EncodeOsd, ParseOsd, EndpointOf, o)
  {
    forall rest: seq<Byte>
      ensures ParseOsd(EncodeOsd(o) + rest) == Ok(EndpointOf(o), rest)
    {
      var tail := EncodeAll(EncodeShard, SortOn(ShardKey, o.shards)) + rest;
      assert EncodeOsd(o) + rest == OsdHeader(o) + (o.address + tail);
      OsdHeaderReads(o, o.address + tail);
      var body := (OsdHeader(o) + (o.address + tail))[12..];
      assert body == o.address + tail;
      assert body[..|o.address|] == o.address && body[|o.address|..] == tail;
      ShardsRead(o, rest);
    }
  }

  /** Everything has the width its field has. */
  predicate FitsMap(osdEpoch: UInt64, pgEpoch: UInt64, osds: seq<OsdInfo>, pools: seq<PoolInfo>) {
    && |osds| < 0x1_0000_0000 && |AllPgs(SortOn(PoolKey, pools))| < 0x1_0000_0000
    && (forall i :: 0 <= i < |osds| ==> FitsOsd(osds[i]))
    && (forall i, j :: 0 <= i < |pools| && 0 <= j < |pools[i].pgs| ==> FitsPg(pools[i].pgs[j]))
  }

  function Endpoints(osds: seq<OsdInfo>): seq<Endpoint> {
    MapAll(EndpointOf, SortOn(OsdKey, osds))
  }

  function Routes(pools: seq<PoolInfo>): seq<Route> {
    MapAll(RouteOf, AllPgs(SortOn(PoolKey, pools)))
  }

  /** The groups written are the groups of the pools. */
  lemma {:induction false} AllPgsIn(pools: seq<PoolInfo>, x: PoolPg)
    ensures x in AllPgs(pools) <==> exists i :: 0 <= i < |pools| && x.poolId == pools[i].poolId && x.pg in pools[i].pgs
  {
    if pools != [] {
      var k := |pools| - 1;
      AllPgsIn(pools[..k], x);
      PoolPgsIn(pools[k], x);
      assert forall i :: 0 <= i < k ==> pools[..k][i] == pools[i];
    }
  }

  lemma PoolPgsIn(p: PoolInfo, x: PoolPg)
    ensures x in PoolPgs(p) <==> x.poolId == p.poolId && x.pg in p.pgs
  {
    if x.poolId == p.poolId && x.pg in p.pgs {
      var i := SortedTo(PgKey, p.pgs, x.pg);
      assert PoolPgs(p)[i] == x;
    }
    if x in PoolPgs(p) {
      var i :| 0 <= i < |PoolPgs(p)| && PoolPgs(p)[i] == x;
      SortedFrom(PgKey, p.pgs, i);
    }
  }

  lemma PgsRead(pools: seq<PoolInfo>, rest: seq<Byte>)
    requires forall i, j :: 0 <= i < |pools| && 0 <= j < |pools[i].pgs| ==> FitsPg(pools[i].pgs[j])
    ensures var pgs := AllPgs(SortOn(PoolKey, pools));
            ParseAll(ParsePg, EncodeAll(EncodePg, pgs) + rest, |pgs|) == Ok(Routes(pools), rest)
  {
    var sorted := SortOn(PoolKey, pools);
    var pgs := AllPgs(sorted);
    forall i | 0 <= i < |pgs|
      ensures Reads(EncodePg, ParsePg, RouteOf, pgs[i])
    {
      AllPgsIn(sorted, pgs[i]);
      var h :| 0 <= h < |sorted| && pgs[i].poolId == sorted[h].poolId && pgs[i].pg in sorted[h].pgs;
      SortedFrom(PoolKey, pools, h);
      PgReads(pgs[i]);
    }
    ListRoundTrip(EncodePg, ParsePg, RouteOf, pgs, rest);
  }

  lemma OsdsRead(osds: seq<OsdInfo>, rest: seq<Byte>)
    requires forall i :: 0 <= i < |osds| ==> FitsOsd(osds[i])
    ensures ParseAll(ParseOsd, EncodeAll(EncodeOsd, SortOn(OsdKey, osds)) + rest, |osds|) == Ok(Endpoints(osds), rest)
  {
    var sorted := SortOn(OsdKey, osds);
    SortLength(OsdKey, osds);
    forall i | 0 <= i < |sorted|
      ensures Reads(EncodeOsd, ParseOsd, EndpointOf, sorted[i])
    {
      SortedFrom(OsdKey, osds, i);
      OsdReads(sorted[i]);
    }
    ListRoundTrip(EncodeOsd, ParseOsd, EndpointOf, sorted, rest);
  }

  lemma HeaderReads(osdEpoch: UInt64, pgEpoch: UInt64, osdCount: nat, pgCount: nat, rest: seq<Byte>)
    requires osdCount < 0x1_0000_0000 && pgCount < 0x1_0000_0000
    ensures var s := EncodeHeader(osdEpoch, pgEpoch, osdCount, pgCount) + rest;
            && Field(s, 0, 8) == osdEpoch && Field(s, 8, 8) == pgEpoch
            && Field(s, 16, 4) == osdCount && Field(s, 20, 4) == pgCount && s[24..] == rest
  {
    Widths();
    LeRoundTrip(osdEpoch, 8);
    LeRoundTrip(pgEpoch, 8);
    LeRoundTrip(osdCount, 4);
    LeRoundTrip(pgCount, 4);
    FourParts(Le(osdEpoch, 8), Le(pgEpoch, 8), Le(osdCount, 4), Le(pgCount, 4), rest);
  }

  lemma MapFrom(s: seq<Byte>, poolId: nat, osds: seq<Endpoint>, second: seq<Byte>, routes: seq<Route>)
    requires |s| >= 24
    requires ParseAll(ParseOsd, s[24..], Field(s, 16, 4)) == Ok(osds, second)
    requires ParseAll(ParsePg, second, Field(s, 20, 4)) == Ok(routes, [])
    ensures ParseMap(s, poolId) ==
            if OfPool(routes, poolId) == 0 then Err(ENOENT)
            else Ok(ClusterView(Field(s, 0, 8), Field(s, 8, 8), OfPool(routes, poolId), osds, routes), [])
  {
  }

  lemma LastPgsRead(pools: seq<PoolInfo>)
    requires forall i, j :: 0 <= i < |pools| && 0 <= j < |pools[i].pgs| ==> FitsPg(pools[i].pgs[j])
    ensures var pgs := AllPgs(SortOn(PoolKey, pools));
            ParseAll(ParsePg, EncodeAll(EncodePg, pgs), |pgs|) == Ok(Routes(pools), [])
  {
    PgsRead(pools, []);
    var bytes := EncodeAll(EncodePg, AllPgs(SortOn(PoolKey, pools)));
    assert bytes + [] == bytes;
  }

  lemma MapBytes(osdEpoch: UInt64, pgEpoch: UInt64, osds: seq<OsdInfo>, pools: seq<PoolInfo>)
    ensures var pgs := AllPgs(SortOn(PoolKey, pools));
            EncodeMap(osdEpoch, pgEpoch, osds, pools) ==
            EncodeHeader(osdEpoch, pgEpoch, |osds|, |pgs|) + (EncodeAll(EncodeOsd, SortOn(OsdKey, osds)) + EncodeAll(EncodePg, pgs))
  {
  }

  /** Decoding the encoded message gives back both epochs, every OSD with its shards and every
      group with its members, in order of their numbers, and uses the whole body; a pool
      without a group is reported as missing. */
  lemma MapRoundTrip(osdEpoch: UInt64, pgEpoch: UInt64, osds: seq<OsdInfo>, pools: seq<PoolInfo>, poolId: nat)
    requires FitsMap(osdEpoch, pgEpoch, osds, pools)
    ensures var count := OfPool(Routes(pools), poolId);
            ParseMap(EncodeMap(osdEpoch, pgEpoch, osds, pools), poolId) ==
            if count == 0 then Err(ENOENT)
            else Ok(ClusterView(osdEpoch, pgEpoch, count, Endpoints(osds), Routes(pools)), [])
  {
    var pgs := AllPgs(SortOn(PoolKey, pools));
    var second := EncodeAll(EncodePg, pgs);
    MapBytes(osdEpoch, pgEpoch, osds, pools);
    HeaderReads(osdEpoch, pgEpoch, |osds|, |pgs|, EncodeAll(EncodeOsd, SortOn(OsdKey, osds)) + second);
    OsdsRead(osds, second);
    LastPgsRead(pools);
    MapFrom(EncodeMap(osdEpoch, pgEpoch, osds, pools), poolId, Endpoints(osds), second, Routes(pools));
  }

  // ---- The encoder's loops -------------------------------------------------------------------

  function Total(pools: seq<PoolInfo>): nat {
    if pools == [] then 0 else Total(pools[..|pools| - 1]) + |pools[|pools| - 1].pgs|
  }

  lemma {:induction false} TotalInsert(s: seq<PoolInfo>, x: PoolInfo)
    ensures Total(InsertOn(PoolKey, s, x)) == Total(s) + |x.pgs|
  {
    var r := InsertOn(PoolKey, s, x);
    if s != [] && PoolKey(s[|s| - 1]) > PoolKey(x) {
      TotalInsert(s[..|s| - 1], x);
      assert r[..|r| - 1] == InsertOn(PoolKey, s[..|s| - 1], x);
    } else {
      assert r[..|r| - 1] == s;
    }
  }

  lemma {:induction false} TotalSort(s: seq<PoolInfo>)
    ensures Total(SortOn(PoolKey, s)) == Total(s)
  {
    if s != [] {
      TotalSort(s[..|s| - 1]);
      TotalInsert(SortOn(PoolKey, s[..|s| - 1]), s[|s| - 1]);
    }
  }

  lemma {:induction false} TotalIsAll(s: seq<PoolInfo>)
    ensures |AllPgs(s)| == Total(s)
  {
    if s != [] {
      TotalIsAll(s[..|s| - 1]);
      SortLength(PgKey, s[|s| - 1].pgs);
    }
  }

  lemma {:induction false} EncodeAllConcat<T>(enc: T -> seq<Byte>, a: seq<T>, b: seq<T>)
    ensures EncodeAll(enc, a + b) == EncodeAll(enc, a) + EncodeAll(enc, b)
  {
    if b == [] {
      assert a + b == a;
    } else {
      var k := |b| - 1;
      EncodeAllConcat(enc, a, b[..k]);
      assert (a + b)[..|a + b| - 1] == a + b[..k];
    }
  }

  /** Records appended to the buffer one by one. */
  method WriteAll<T>(body: seq<Byte>, enc: T -> seq<Byte>, xs: seq<T>) returns (r: seq<Byte>)
    ensures r == body + EncodeAll(enc, xs)
  {
    r := body;
    for i := 0 to |xs|
      invariant r == body + EncodeAll(enc, xs[..i])
    {
      assert xs[..i + 1][..i] == xs[..i];
      r := r + enc(xs[i]);
    }
    assert xs[..|xs|] == xs;
  }

  /** encodeOSDEntry */
  method WriteOsdEntry(body: seq<Byte>, o: OsdInfo) returns (r: seq<Byte>)
    ensures r == body + EncodeOsd(o)
  {
    r := body + OsdHeader(o);
    r := r + o.address;
    r := WriteAll(r, EncodeShard, SortOn(ShardKey, o.shards));
  }

  lemma WriteStep<T>(enc: T -> seq<Byte>, xs: seq<T>, i: nat, body: seq<Byte>, r: seq<Byte>)
    requires i < |xs| && r == body + EncodeAll(enc, xs[..i])
    ensures r + enc(xs[i]) == body + EncodeAll(enc, xs[..i + 1])
  {
    assert xs[..i + 1][..i] == xs[..i];
  }

  method WriteOsdEntries(body: seq<Byte>, osds: seq<OsdInfo>) returns (r: seq<Byte>)
    ensures r == body + EncodeAll(EncodeOsd, osds)
  {
    r := body;
    for i := 0 to |osds|
      invariant r == body + EncodeAll(EncodeOsd, osds[..i])
    {
      WriteStep(EncodeOsd, osds, i, body, r);
      r := WriteOsdEntry(r, osds[i]);
    }
    assert osds[..|osds|] == osds;
  }

  lemma WritePoolStep(enc: PoolPg -> seq<Byte>, pools: seq<PoolInfo>, i: nat, body: seq<Byte>, r: seq<Byte>)
    requires i < |pools| && r == body + EncodeAll(enc, AllPgs(pools[..i]))
    ensures r + EncodeAll(enc, PoolPgs(pools[i])) == body + EncodeAll(enc, AllPgs(pools[..i + 1]))
  {
    assert pools[..i + 1][..i] == pools[..i];
    EncodeAllConcat(enc, AllPgs(pools[..i]), PoolPgs(pools[i]));
  }

  /** encodePGEntries */
  method WritePgEntries(body: seq<Byte>, pools: seq<PoolInfo>) returns (r: seq<Byte>)
    ensures r == body + EncodeAll(EncodePg, AllPgs(SortOn(PoolKey, pools)))
  {
    var sorted := SortOn(PoolKey, pools);
    r := body;
    for i := 0 to |sorted|
      invariant r == body + EncodeAll(EncodePg, AllPgs(sorted[..i]))
    {
      WritePoolStep(EncodePg, sorted, i, body, r);
      r := WriteAll(r, EncodePg, PoolPgs(sorted[i]));
    }
    assert sorted[..|sorted|] == sorted;
  }

  method CountPgs(pools: seq<PoolInfo>) returns (count: nat)
    ensures count == |AllPgs(SortOn(PoolKey, pools))|
  {
    count := 0;
    for i := 0 to |pools|
      invariant count == Total(pools[..i])
    {
      assert pools[..i + 1][..i] == pools[..i];
      count := count + |pools[i].pgs|;
    }
    assert pools[..|pools|] == pools;
    TotalSort(pools);
    TotalIsAll(SortOn(PoolKey, pools));
  }

  /** EncodeGetClusterMapResponse */
  method WriteClusterMap(osdEpoch: UInt64, pgEpoch: UInt64, osds: seq<OsdInfo>, pools: seq<PoolInfo>) returns (body: seq<Byte>)
    ensures body == EncodeMap(osdEpoch, pgEpoch, osds, pools)
  {
    var pgCount := CountPgs(pools);
    body := EncodeHeader(osdEpoch, pgEpoch, |osds|, pgCount);
    body := WriteOsdEntries(body, SortOn(OsdKey, osds));
    body := WritePgEntries(body, pools);
  }

  // ---- The decoder's loops -------------------------------------------------------------------

  datatype Ret = Success | Failure(errno: Errno)

  /** kfastblock_transport_copy_from_body */
  method CopyFromBody(body: seq<Byte>, offset: nat, len: nat) returns (ret: Ret, next: nat, dst: seq<Byte>)
    requires offset <= |body|
    ensures ret.Success? <==> len <= |body| - offset
    ensures ret.Success? ==> next == offset + len && dst == body[offset..next]
    ensures ret.Failure? ==> ret.errno == EPROTO && next == offset
  {
    if len > |body| - offset { return Failure(EPROTO), offset, []; }
    return Success, offset + len, body[offset..offset + len];
  }

  /** A decoder's answer against the parse of what is left of the body. */
  ghost predicate Decoded<T>(parsed: Parsed<T>, body: seq<Byte>, ret: Ret, value: T, offset: nat) {
    match parsed
    case Err(e) => ret == Failure(e)
    case Ok(v, rest) => ret == Success && v == value && offset <= |body| && rest == body[offset..]
  }

  lemma {:induction false} ParseAllFails<T>(parse: seq<Byte> -> Parsed<T>, s: seq<Byte>, i: nat, n: nat)
    requires i <= n && ParseAll(parse, s, i).Err?
    ensures ParseAll(parse, s, n) == ParseAll(parse, s, i)
  {
    if i < n { ParseAllFails(parse, s, i, n - 1); }
  }

  /** One record more. */
  lemma ParseAllStep<T>(parse: seq<Byte> -> Parsed<T>, s: seq<Byte>, i: nat, n: nat, xs: seq<T>, rest: seq<Byte>)
    requires i < n && ParseAll(parse, s, i) == Ok(xs, rest)
    ensures parse(rest).Ok? ==> ParseAll(parse, s, i + 1) == Ok(xs + [parse(rest).value], parse(rest).rest)
    ensures parse(rest).Err? ==> ParseAll(parse, s, n) == Err(parse(rest).errno)
  {
    if parse(rest).Err? { ParseAllFails(parse, s, i + 1, n); }
  }

  lemma SameField(body: seq<Byte>, at: nat, len: nat, from: nat, n: nat)
    requires at + len <= |body| && from + n <= len
    ensures Field(body[at..at + len], from, n) == Field(body[at..], from, n)
  {
    var part := body[at..at + len];
    var slice := part[from..from + n];
    assert forall k :: 0 <= k < n ==> slice[k] == part[from + k] == body[at + from + k];
    assert slice == body[at + from..at + from + n];
    assert body[at..][from..from + n] == body[at + from..at + from + n];
  }

  method DecodeShard(body: seq<Byte>, start: nat) returns (ret: Ret, offset: nat, shard: Shard)
    requires start <= |body|
    ensures Decoded(ParseShard(body[start..]), body, ret, shard, offset)
  {
    var raw;
    ret, offset, raw := CopyFromBody(body, start, 8);
    if ret.Failure? { return ret, offset, Shard(0, 0, 0); }
    SameField(body, start, 8, 0, 4);
    SameField(body, start, 8, 4, 2);
    SameField(body, start, 8, 6, 2);
    shard := Shard(Field(raw, 0, 4), Field(raw, 4, 2), Field(raw, 6, 2));
  }

  method DecodeShards(body: seq<Byte>, start: nat, count: nat) returns (ret: Ret, offset: nat, shards: seq<Shard>)
    requires start <= |body|
    ensures Decoded(ParseAll(ParseShard, body[start..], count), body, ret, shards, offset)
  {
    ret, offset, shards := Success, start, [];
    for i := 0 to count
      invariant ret == Success && offset <= |body|
      invariant ParseAll(ParseShard, body[start..], i) == Ok(shards, body[offset..])
    {
      ParseAllStep(ParseShard, body[start..], i, count, shards, body[offset..]);
      var shard;
      ret, offset, shard := DecodeShard(body, offset);
      if ret.Failure? { return; }
      shards := shards + [shard];
    }
  }

  /** One round of decode_osd_entries. */
  method DecodeOsd(body: seq<Byte>, start: nat) returns (ret: Ret, offset: nat, osd: Endpoint)
    requires start <= |body|
    ensures Decoded(ParseOsd(body[start..]), body, ret, osd, offset)
  {
    osd := Endpoint(0, 0, [], []);
    var raw;
    ret, offset, raw := CopyFromBody(body, start, 12);
    if ret.Failure? { return; }
    SameField(body, start, 12, 0, 4);
    SameField(body, start, 12, 4, 4);
    SameField(body, start, 12, 8, 2);
    SameField(body, start, 12, 10, 2);
    var addressLen := Field(raw, 8, 2);
    if addressLen >= MAX_ADDR_LEN { return Failure(E2BIG), offset, osd; }
    var address;
    var shards;
    ret, offset, address := CopyFromBody(body, offset, addressLen);
    assert body[start..][12..] == body[start + 12..];
    if ret.Failure? { return; }
    assert body[start + 12..][..addressLen] == address && body[start + 12..][addressLen..] == body[offset..];
    ret, offset, shards := DecodeShards(body, offset, Field(raw, 10, 2));
    osd := Endpoint(Field(raw, 0, 4), Field(raw, 4, 4), address, shards);
  }

  /** decode_osd_entries */
  method DecodeOsdEntries(body: seq<Byte>, start: nat, count: nat) returns (ret: Ret, offset: nat, osds: seq<Endpoint>)
    requires start <= |body|
    ensures Decoded(ParseAll(ParseOsd, body[start..], count), body, ret, osds, offset)
  {
    ret, offset, osds := Success, start, [];
    for i := 0 to count
      invariant ret == Success && offset <= |body|
      invariant ParseAll(ParseOsd, body[start..], i) == Ok(osds, body[offset..])
    {
      ParseAllStep(ParseOsd, body[start..], i, count, osds, body[offset..]);
      var osd;
      ret, offset, osd := DecodeOsd(body, offset);
      if ret.Failure? { return; }
      osds := osds + [osd];
    }
  }

  method DecodeReplicas(body: seq<Byte>, start: nat, count: nat) returns (ret: Ret, offset: nat, osds: seq<nat>)
    requires start <= |body|
    ensures Decoded(ParseAll(ParseReplica, body[start..], count), body, ret, osds, offset)
  {
    ret, offset, osds := Success, start, [];
    for i := 0 to count
      invariant ret == Success && offset <= |body|
      invariant ParseAll(ParseReplica, body[start..], i) == Ok(osds, body[offset..])
    {
      ParseAllStep(ParseReplica, body[start..], i, count, osds, body[offset..]);
      var raw;
      ghost var at := offset;
      ret, offset, raw := CopyFromBody(body, offset, 4);
      if ret.Failure? { return; }
      SameField(body, at, 4, 0, 4);
      osds := osds + [Field(raw, 0, 4)];
    }
  }

  /** One round of decode_pg_entries. */
  method DecodePg(body: seq<Byte>, start: nat) returns (ret: Ret, offset: nat, route: Route)
    requires start <= |body|
    ensures Decoded(ParsePg(body[start..]), body, ret, route, offset)
  {
    route := Route(0, 0, 0, 0, 0, []);
    var raw;
    ret, offset, raw := CopyFromBody(body, start, 28);
    if ret.Failure? { return; }
    SameField(body, start, 28, 0, 4);
    SameField(body, start, 28, 4, 4);
    SameField(body, start, 28, 8, 8);
    SameField(body, start, 28, 16, 4);
    SameField(body, start, 28, 20, 4);
    SameField(body, start, 28, 24, 4);
    assert body[start..][28..] == body[start + 28..];
    var osds;
    ret, offset, osds := DecodeReplicas(body, offset, Field(raw, 24, 4));
    route := Route(Field(raw, 0, 4), Field(raw, 4, 4), Field(raw, 8, 8), Field(raw, 16, 4), Field(raw, 20, 4), osds);
  }

  lemma {:induction false} OfPoolAppend(routes: seq<Route>, r: Route, poolId: nat)
    ensures OfPool(routes + [r], poolId) == OfPool(routes, poolId) + if r.poolId == poolId then 1 else 0
  {
    assert (routes + [r])[..|routes|] == routes;
  }

  /** decode_pg_entries */
  method DecodePgEntries(body: seq<Byte>, start: nat, count: nat, poolId: nat)
    returns (ret: Ret, offset: nat, routes: seq<Route>, poolPgCount: nat)
    requires start <= |body|
    ensures Decoded(ParseAll(ParsePg, body[start..], count), body, ret, routes, offset)
    ensures ret.Success? ==> poolPgCount == OfPool(routes, poolId)
  {
    ret, offset, routes, poolPgCount := Success, start, [], 0;
    for i := 0 to count
      invariant ret == Success && offset <= |body|
      invariant ParseAll(ParsePg, body[start..], i) == Ok(routes, body[offset..])
      invariant poolPgCount == OfPool(routes, poolId)
    {
      ParseAllStep(ParsePg, body[start..], i, count, routes, body[offset..]);
      var route;
      ret, offset, route := DecodePg(body, offset);
      if ret.Failure? { return; }
      OfPoolAppend(routes, route, poolId);
      if route.poolId == poolId { poolPgCount := poolPgCount + 1; }
      routes := routes + [route];
    }
  }

  /** response_decode_cluster_map, up to the exchange of the tables */
  method DecodeClusterMap(body: seq<Byte>, poolId: nat) returns (ret: Ret, view: ClusterView)
    ensures match ParseMap(body, poolId)
            case Err(e) => ret == Failure(e)
            case Ok(v, rest) => ret == Success && view == v
  {
    view := ClusterView(0, 0, 0, [], []);
    var raw;
    var offset;
    ret, offset, raw := CopyFromBody(body, 0, 24);
    assert body[0..] == body;
    if ret.Failure? { return; }
    SameField(body, 0, 24, 0, 8);
    SameField(body, 0, 24, 8, 8);
    SameField(body, 0, 24, 16, 4);
    SameField(body, 0, 24, 20, 4);
    var osds;
    var routes;
    var poolPgCount;
    ret, offset, osds := DecodeOsdEntries(body, offset, Field(raw, 16, 4));
    if ret.Failure? { return; }
    ret, offset, routes, poolPgCount := DecodePgEntries(body, offset, Field(raw, 20, 4), poolId);
    if ret.Failure? { return; }
    if offset != |body| { return Failure(EPROTO), view; }
    if poolPgCount == 0 { return Failure(ENOENT), view; }
    view := ClusterView(Field(raw, 0, 8), Field(raw, 8, 8), poolPgCount, osds, routes);
  }

  // ---- Order ---------------------------------------------------------------------------------

  ghost predicate StrictOn<T>(key: T -> int, s: seq<T>) {
    forall i, j :: 0 <= i < j < |s| ==> key(s[i]) < key(s[j])
  }

  ghost predicate UniqueOn<T>(key: T -> int, s: seq<T>) {
    forall i, j :: 0 <= i < j < |s| ==> key(s[i]) != key(s[j])
  }

  lemma {:induction false} InsertStrictBelow<T>(key: T -> int, s: seq<T>, x: T, b: int)
    requires key(x) < b && forall i :: 0 <= i < |s| ==> key(s[i]) < b
    ensures forall i :: 0 <= i < |InsertOn(key, s, x)| ==> key(InsertOn(key, s, x)[i]) < b
  {
    if s != [] && key(s[|s| - 1]) > key(x) {
      InsertStrictBelow(key, s[..|s| - 1], x, b);
    }
  }

  lemma {:induction false} InsertStrict<T>(key: T -> int, s: seq<T>, x: T)
    requires StrictOn(key, s) && forall i :: 0 <= i < |s| ==> key(s[i]) != key(x)
    ensures StrictOn(key, InsertOn(key, s, x))
  {
    if s != [] && key(s[|s| - 1]) > key(x) {
      InsertStrict(key, s[..|s| - 1], x);
      InsertStrictBelow(key, s[..|s| - 1], x, key(s[|s| - 1]));
    }
  }

  /** Sorting by a key that does not repeat gives a strict order. */
  lemma {:induction false} SortStrict<T>(key: T -> int, s: seq<T>)
    requires UniqueOn(key, s)
    ensures StrictOn(key, SortOn(key, s))
  {
    if s != [] {
      var k := |s| - 1;
      SortStrict(key, s[..k]);
      var r := SortOn(key, s[..k]);
      forall i | 0 <= i < |r|
        ensures key(r[i]) != key(s[k])
      {
        SortedFrom(key, s[..k], i);
      }
      InsertStrict(key, r, s[k]);
    }
  }

  lemma WithoutLast<T>(s: seq<T>)
    requires s != []
    ensures multiset(s[..|s| - 1]) == multiset(s) - multiset{s[|s| - 1]}
  {
    assert s == s[..|s| - 1] + [s[|s| - 1]];
  }

  lemma SameLast<T>(key: T -> int, a: seq<T>, b: seq<T>)
    requires InOrder(key, a) && StrictOn(key, b) && multiset(a) == multiset(b) && |a| == |b| > 0
    ensures a[|a| - 1] == b[|a| - 1]
  {
    var k := |a| - 1;
    assert a[k] in multiset(b) && b[k] in multiset(a);
    var i :| 0 <= i < |b| && b[i] == a[k];
    var j :| 0 <= j < |a| && a[j] == b[k];
    assert key(b[i]) <= key(b[k]) && key(a[j]) <= key(a[k]);
  }

  /** A sequence in order that holds the elements of a strictly ordered one is that one. */
  lemma {:induction false} StrictOnly<T>(key: T -> int, a: seq<T>, b: seq<T>)
    requires InOrder(key, a) && StrictOn(key, b) && multiset(a) == multiset(b)
    ensures a == b
  {
    assert |a| == |multiset(a)| == |b|;
    if a != [] {
      var k := |a| - 1;
      SameLast(key, a, b);
      WithoutLast(a);
      WithoutLast(b);
      StrictOnly(key, a[..k], b[..k]);
    }
  }

  /** With keys that do not repeat, any sort that leaves the same elements in order leaves
      SortOn: what sort.Slice does with equal keys plays no part. */
  lemma SortOnly<T>(key: T -> int, s: seq<T>, t: seq<T>)
    requires UniqueOn(key, s) && multiset(t) == multiset(s) && InOrder(key, t)
    ensures t == SortOn(key, s)
  {
    SortStrict(key, s);
    SortSame(key, s);
    StrictOnly(key, t, SortOn(key, s));
  }
}
