/** Looking things up in the decoded tables by binary search. */
module Lookup {
  import opened Wire
  import opened ClusterCodec
  import opened Arrival

  // ---- OSDs ----------------------------------------------------------------------------------

  ghost predicate StrictOsds(osds: seq<Endpoint>) {
    forall i, j :: 0 <= i < j < |osds| ==> osds[i].osdId < osds[j].osdId
  }

  /** The first entry with the number, or -1. */
  function LinearOsd(osds: seq<Endpoint>, id: nat): (r: int)
    ensures -1 <= r < |osds|
    ensures r == -1 ==> forall i :: 0 <= i < |osds| ==> osds[i].osdId != id
    ensures r >= 0 ==> osds[r].osdId == id
  {
    if osds == [] then -1
    else
      var r := LinearOsd(osds[..|osds| - 1], id);
      if r >= 0 then r else if osds[|osds| - 1].osdId == id then |osds| - 1 else -1
  }

  /** kfastblock_meta_find_osd; the search itself does not check the order. */
  method FindOsd(osds: seq<Endpoint>, id: nat) returns (r: int)
    ensures r == -1 || (0 <= r < |osds| && osds[r].osdId == id)
    ensures StrictOsds(osds) ==> r == LinearOsd(osds, id)
  {
    var low, high := 0, |osds|;
    while low < high
      invariant 0 <= low <= high <= |osds|
      invariant StrictOsds(osds) ==> forall i :: 0 <= i < low ==> osds[i].osdId < id
      invariant StrictOsds(osds) ==> forall i :: high <= i < |osds| ==> osds[i].osdId >= id
    {
      var mid := low + (high - low) / 2;
      if osds[mid].osdId < id { low := mid + 1; } else { high := mid; }
    }
    if low < |osds| && osds[low].osdId == id { return low; }
    return -1;
  }

  /** The table the decoder leaves is in strict order of the unsigned numbers exactly when the
      monitor's numbers are all non-negative or all negative. */
  lemma EndpointsStrictIff(osds: seq<OsdInfo>)
    requires UniqueOn(OsdKey, osds)
    ensures StrictOsds(Endpoints(osds)) <==>
            (forall i :: 0 <= i < |osds| ==> 0 <= osds[i].osdId) || (forall i :: 0 <= i < |osds| ==> osds[i].osdId < 0)
  {
    if a, b :| 0 <= a < |osds| && 0 <= b < |osds| && osds[a].osdId < 0 <= osds[b].osdId {
      MixedNotStrict(osds, osds[a], osds[b]);
    } else {
      OneSignStrict(osds);
    }
  }

  lemma MixedNotStrict(osds: seq<OsdInfo>, a: OsdInfo, b: OsdInfo)
    requires UniqueOn(OsdKey, osds) && a in osds && b in osds
    requires a.osdId < 0 <= b.osdId
    ensures !StrictOsds(Endpoints(osds))
  {
    SortStrict(OsdKey, osds);
    var i := SortedTo(OsdKey, osds, a);
    var j := SortedTo(OsdKey, osds, b);
    var sorted := SortOn(OsdKey, osds);
    assert j <= i ==> OsdKey(sorted[j]) <= OsdKey(sorted[i]);
    assert Endpoints(osds)[i].osdId > Endpoints(osds)[j].osdId;
  }

  lemma OneSignStrict(osds: seq<OsdInfo>)
    requires UniqueOn(OsdKey, osds)
    requires (forall i :: 0 <= i < |osds| ==> 0 <= osds[i].osdId) || (forall i :: 0 <= i < |osds| ==> osds[i].osdId < 0)
    ensures StrictOsds(Endpoints(osds))
  {
    SortStrict(OsdKey, osds);
    var sorted := SortOn(OsdKey, osds);
    forall i, j | 0 <= i < j < |sorted|
      ensures Endpoints(osds)[i].osdId < Endpoints(osds)[j].osdId
    {
      SortedFrom(OsdKey, osds, i);
      SortedFrom(OsdKey, osds, j);
      assert OsdKey(sorted[i]) < OsdKey(sorted[j]);
    }
  }

  /** r is the answer a client should get for the number: the place of an entry that holds, field
      by field, the OSD sent under it, and -1 exactly when none was. */
  ghost predicate FindsOsd(osds: seq<OsdInfo>, table: seq<Endpoint>, id: nat, r: int) {
    && (r == -1 <==> forall i :: 0 <= i < |osds| ==> osds[i].osdId != id)
    && (forall i :: 0 <= i < |osds| && osds[i].osdId == id ==> 0 <= r < |table| && OsdArrived(osds[i], table[r]))
  }

  /** The decoded table is in strict order, and the place of a number in it is that of the one
      OSD the monitor sent under it. */
  lemma OsdLookup(osds: seq<OsdInfo>, id: nat)
    requires UniqueOn(OsdKey, osds) && forall i :: 0 <= i < |osds| ==> 0 <= osds[i].osdId
    ensures StrictOsds(Endpoints(osds)) && FindsOsd(osds, Endpoints(osds), id, LinearOsd(Endpoints(osds), id))
  {
    OneSignStrict(osds);
    var r := LinearOsd(Endpoints(osds), id);
    forall i | 0 <= i < |osds| && osds[i].osdId == id
      ensures r >= 0 && OsdArrived(osds[i], Endpoints(osds)[r])
    {
      EndpointArrives(osds[i]);
      var j := SortedTo(OsdKey, osds, osds[i]);
      assert Endpoints(osds)[j] == EndpointOf(osds[i]) && Endpoints(osds)[j].osdId == id;
      assert r == j;
    }
    if r >= 0 {
      SortedFrom(OsdKey, osds, r);
    }
  }

  // ---- Routes --------------------------------------------------------------------------------

  /** Order of pool and group numbers. */
  predicate Before(p: nat, g: nat, q: nat, h: nat) {
    p < q || (p == q && g < h)
  }

  ghost predicate StrictRoutes(routes: seq<Route>) {
    forall i, j :: 0 <= i < j < |routes| ==> Before(routes[i].poolId, routes[i].pgId, routes[j].poolId, routes[j].pgId)
  }

  function LinearRoute(routes: seq<Route>, pool: nat, pg: nat): (r: int)
    ensures -1 <= r < |routes|
    ensures r == -1 ==> forall i :: 0 <= i < |routes| ==> !(routes[i].poolId == pool && routes[i].pgId == pg)
    ensures r >= 0 ==> routes[r].poolId == pool && routes[r].pgId == pg
  {
    if routes == [] then -1
    else
      var last := routes[|routes| - 1];
      var r := LinearRoute(routes[..|routes| - 1], pool, pg);
      if r >= 0 then r else if last.poolId == pool && last.pgId == pg then |routes| - 1 else -1
  }

  /** kfastblock_meta_find_pg_route */
  method FindPgRoute(routes: seq<Route>, pool: nat, pg: nat) returns (r: int)
    ensures r == -1 || (0 <= r < |routes| && routes[r].poolId == pool && routes[r].pgId == pg)
    ensures StrictRoutes(routes) ==> r == LinearRoute(routes, pool, pg)
  {
    var low, high := 0, |routes|;
    while low < high
      invariant 0 <= low <= high <= |routes|
      invariant StrictRoutes(routes) ==> forall i :: 0 <= i < low ==> Before(routes[i].poolId, routes[i].pgId, pool, pg)
      invariant StrictRoutes(routes) ==> forall i :: high <= i < |routes| ==> !Before(routes[i].poolId, routes[i].pgId, pool, pg)
    {
      var mid := low + (high - low) / 2;
      if routes[mid].poolId < pool || (routes[mid].poolId == pool && routes[mid].pgId < pg) {
        low := mid + 1;
      } else {
        high := mid;
      }
    }
    if low < |routes| && routes[low].poolId == pool && routes[low].pgId == pg {
      OnlyRoute(routes, pool, pg, low);
      return low;
    }
    return -1;
  }

  lemma OnlyRoute(routes: seq<Route>, pool: nat, pg: nat, i: nat)
    requires i < |routes| && routes[i].poolId == pool && routes[i].pgId == pg
    ensures StrictRoutes(routes) ==> LinearRoute(routes, pool, pg) == i
  {
    var r := LinearRoute(routes, pool, pg);
    assert r >= 0;
  }

  /** Pools and groups without negative or repeated numbers. */
  ghost predicate ProperPools(pools: seq<PoolInfo>) {
    && UniqueOn(PoolKey, pools)
    && forall i :: 0 <= i < |pools| ==> 0 <= pools[i].poolId && ProperPool(pools[i])
  }

  ghost predicate ProperPool(p: PoolInfo) {
    UniqueOn(PgKey, p.pgs) && forall i :: 0 <= i < |p.pgs| ==> 0 <= p.pgs[i].pgId
  }

  ghost predicate StrictPgs(pgs: seq<PoolPg>) {
    forall i, j :: 0 <= i < j < |pgs| ==>
      pgs[i].poolId < pgs[j].poolId || (pgs[i].poolId == pgs[j].poolId && pgs[i].pg.pgId < pgs[j].pg.pgId)
  }

  lemma PoolPgsStrict(p: PoolInfo)
    requires ProperPool(p)
    ensures StrictPgs(PoolPgs(p))
  {
    SortStrict(PgKey, p.pgs);
    var sorted := SortOn(PgKey, p.pgs);
    forall i, j | 0 <= i < j < |PoolPgs(p)|
      ensures PoolPgs(p)[i].pg.pgId < PoolPgs(p)[j].pg.pgId
    {
      assert PgKey(sorted[i]) < PgKey(sorted[j]);
    }
  }

  lemma {:induction false} AllPgsStrict(pools: seq<PoolInfo>)
    requires StrictOn(PoolKey, pools) && forall i :: 0 <= i < |pools| ==> ProperPool(pools[i])
    ensures StrictPgs(AllPgs(pools))
  {
    if pools != [] {
      var k := |pools| - 1;
      var front, back := AllPgs(pools[..k]), PoolPgs(pools[k]);
      AllPgsStrict(pools[..k]);
      PoolPgsStrict(pools[k]);
      forall i, j | 0 <= i < |front| && 0 <= j < |back|
        ensures front[i].poolId < back[j].poolId
      {
        AllPgsIn(pools[..k], front[i]);
        var h :| 0 <= h < k && front[i].poolId == pools[..k][h].poolId;
        assert PoolKey(pools[h]) < PoolKey(pools[k]);
      }
    }
  }

  lemma SortedProper(pools: seq<PoolInfo>)
    requires ProperPools(pools)
    ensures StrictOn(PoolKey, SortOn(PoolKey, pools))
    ensures forall i :: 0 <= i < |SortOn(PoolKey, pools)| ==>
              0 <= SortOn(PoolKey, pools)[i].poolId && ProperPool(SortOn(PoolKey, pools)[i])
  {
    SortStrict(PoolKey, pools);
    forall i | 0 <= i < |SortOn(PoolKey, pools)|
      ensures 0 <= SortOn(PoolKey, pools)[i].poolId && ProperPool(SortOn(PoolKey, pools)[i])
    {
      SortedFrom(PoolKey, pools, i);
    }
  }

  /** The numbers of a group that is sent. */
  lemma PgNumbers(pools: seq<PoolInfo>, i: nat)
    requires ProperPools(pools) && i < |AllPgs(SortOn(PoolKey, pools))|
    ensures var x := AllPgs(SortOn(PoolKey, pools))[i]; 0 <= x.poolId && 0 <= x.pg.pgId
  {
    var sorted := SortOn(PoolKey, pools);
    var x := AllPgs(sorted)[i];
    SortedProper(pools);
    AllPgsIn(sorted, x);
    var h :| 0 <= h < |sorted| && x.poolId == sorted[h].poolId && x.pg in sorted[h].pgs;
    assert ProperPool(sorted[h]);
  }

  /** Non-negative numbers arrive as they are. */
  lemma RouteAt(pools: seq<PoolInfo>, i: nat)
    requires ProperPools(pools) && i < |AllPgs(SortOn(PoolKey, pools))|
    ensures var x := AllPgs(SortOn(PoolKey, pools))[i];
            Routes(pools)[i] == RouteOf(x) && Routes(pools)[i].poolId == x.poolId && Routes(pools)[i].pgId == x.pg.pgId
  {
    PgNumbers(pools, i);
  }

  /** The decoded routes are in strict order of pool and group. */
  lemma RoutesStrict(pools: seq<PoolInfo>)
    requires ProperPools(pools)
    ensures StrictRoutes(Routes(pools))
  {
    SortedProper(pools);
    AllPgsStrict(SortOn(PoolKey, pools));
    forall i: nat | i < |Routes(pools)|
      ensures SameKey(AllPgs(SortOn(PoolKey, pools))[i], Routes(pools)[i])
    {
      RouteAt(pools, i);
    }
    StrictBySame(AllPgs(SortOn(PoolKey, pools)), Routes(pools));
  }

  predicate SameKey(x: PoolPg, r: Route) {
    x.poolId == r.poolId && x.pg.pgId == r.pgId
  }

  lemma StrictBySame(pgs: seq<PoolPg>, routes: seq<Route>)
    requires |pgs| == |routes| && StrictPgs(pgs) && forall i: nat :: i < |routes| ==> SameKey(pgs[i], routes[i])
    ensures StrictRoutes(routes)
  {
    forall i: nat, j: nat | i < j < |routes|
      ensures Before(routes[i].poolId, routes[i].pgId, routes[j].poolId, routes[j].pgId)
    {
      assert SameKey(pgs[i], routes[i]) && SameKey(pgs[j], routes[j]);
    }
  }

  /** A group that is sent is in the table. */
  lemma RoutePresent(pools: seq<PoolInfo>, i: nat, j: nat) returns (k: nat)
    requires ProperPools(pools) && i < |pools| && j < |pools[i].pgs|
    ensures k < |Routes(pools)| && Routes(pools)[k].poolId == pools[i].poolId && Routes(pools)[k].pgId == pools[i].pgs[j].pgId
    ensures Routes(pools)[k] == RouteOf(PoolPg(pools[i].poolId, pools[i].pgs[j]))
  {
    var sorted := SortOn(PoolKey, pools);
    var x := PoolPg(pools[i].poolId, pools[i].pgs[j]);
    var h := SortedTo(PoolKey, pools, pools[i]);
    AllPgsIn(sorted, x);
    k :| 0 <= k < |AllPgs(sorted)| && AllPgs(sorted)[k] == x;
    RouteAt(pools, k);
  }

  ghost predicate Sent(pools: seq<PoolInfo>, pool: nat, pg: nat) {
    exists i, j :: 0 <= i < |pools| && 0 <= j < |pools[i].pgs| && pools[i].poolId == pool && pools[i].pgs[j].pgId == pg
  }

  /** Every group in the list was sent. */
  lemma {:induction false} PgSent(pools: seq<PoolInfo>, x: PoolPg)
    requires x in AllPgs(SortOn(PoolKey, pools)) && 0 <= x.poolId && 0 <= x.pg.pgId
    ensures Sent(pools, x.poolId, x.pg.pgId)
  {
    var sorted := SortOn(PoolKey, pools);
    AllPgsIn(sorted, x);
    var h :| 0 <= h < |sorted| && x.poolId == sorted[h].poolId && x.pg in sorted[h].pgs;
    SortedFrom(PoolKey, pools, h);
    var i :| 0 <= i < |pools| && pools[i] == sorted[h];
    var j :| 0 <= j < |pools[i].pgs| && pools[i].pgs[j] == x.pg;
    assert pools[i].poolId == x.poolId && pools[i].pgs[j].pgId == x.pg.pgId;
  }

  /** Every route in the table was sent. */
  lemma {:induction false} RouteSent(pools: seq<PoolInfo>, r: nat)
    requires ProperPools(pools) && r < |Routes(pools)|
    ensures Sent(pools, Routes(pools)[r].poolId, Routes(pools)[r].pgId)
  {
    var x := AllPgs(SortOn(PoolKey, pools))[r];
    PgNumbers(pools, r);
    RouteAt(pools, r);
    PgSent(pools, x);
  }

  /** r is the answer a client should get for the pool and group number: the place of the
      entry that holds, field by field, the group sent under them, and -1 exactly when none was. */
  ghost predicate FindsRoute(pools: seq<PoolInfo>, table: seq<Route>, pool: nat, pg: nat, r: int) {
    && (r == -1 <==> !Sent(pools, pool, pg))
    && (forall i, j :: 0 <= i < |pools| && 0 <= j < |pools[i].pgs| && pools[i].poolId == pool && pools[i].pgs[j].pgId == pg ==>
          0 <= r < |table| && PgArrived(pools[i].poolId, pools[i].pgs[j], table[r]))
  }

  /** The decoded routes are in strict order, and the place of a pool and group number in them
      is that of the one group the monitor sent under them. */
  lemma RouteLookup(pools: seq<PoolInfo>, pool: nat, pg: nat)
    requires ProperPools(pools)
    ensures StrictRoutes(Routes(pools)) && FindsRoute(pools, Routes(pools), pool, pg, LinearRoute(Routes(pools), pool, pg))
  {
    RoutesStrict(pools);
    var r := LinearRoute(Routes(pools), pool, pg);
    forall i, j | 0 <= i < |pools| && 0 <= j < |pools[i].pgs| && pools[i].poolId == pool && pools[i].pgs[j].pgId == pg
      ensures r >= 0 && PgArrived(pools[i].poolId, pools[i].pgs[j], Routes(pools)[r])
    {
      RouteArrives(pools[i].poolId, pools[i].pgs[j]);
      var k := RoutePresent(pools, i, j);
      OnlyRoute(Routes(pools), pool, pg, k);
    }
    if r >= 0 {
      RouteSent(pools, r);
    }
  }

  // ---- From the monitor to the lookup ----------------------------------------------------------

  /** A pool is counted exactly when a route is its own. */
  lemma {:induction false} OfPoolNone(routes: seq<Route>, poolId: nat)
    ensures OfPool(routes, poolId) == 0 <==> forall i :: 0 <= i < |routes| ==> routes[i].poolId != poolId
  {
    if routes != [] {
      OfPoolNone(routes[..|routes| - 1], poolId);
    }
  }

  ghost predicate HasGroup(pools: seq<PoolInfo>, poolId: nat) {
    exists i :: 0 <= i < |pools| && pools[i].poolId == poolId && pools[i].pgs != []
  }

  lemma PoolArrives(pools: seq<PoolInfo>, poolId: nat)
    requires ProperPools(pools)
    ensures OfPool(Routes(pools), poolId) > 0 <==> HasGroup(pools, poolId)
  {
    OfPoolNone(Routes(pools), poolId);
    forall i | 0 <= i < |pools| && pools[i].poolId == poolId && pools[i].pgs != []
      ensures OfPool(Routes(pools), poolId) > 0
    {
      var k := RoutePresent(pools, i, 0);
    }
    forall r | 0 <= r < |Routes(pools)| && Routes(pools)[r].poolId == poolId
      ensures HasGroup(pools, poolId)
    {
      RouteSent(pools, r);
    }
  }

  /** The monitor writes its map, the client decodes the body and searches it: every OSD number
      and every pool and group number finds exactly what was sent under it. The map is refused
      exactly when the client's own pool has no group. */
  method FetchAndFind(osdEpoch: UInt64, pgEpoch: UInt64, osds: seq<OsdInfo>, pools: seq<PoolInfo>,
                      poolId: nat, id: nat, pool: nat, pg: nat)
    returns (ret: Ret, view: ClusterView, o: int, r: int)
    requires FitsMap(osdEpoch, pgEpoch, osds, pools)
    requires UniqueOn(OsdKey, osds) && forall i :: 0 <= i < |osds| ==> 0 <= osds[i].osdId
    requires ProperPools(pools)
    ensures ret == if HasGroup(pools, poolId) then Success else Failure(ENOENT)
    ensures ret.Success? ==> view.osdEpoch == osdEpoch && view.pgEpoch == pgEpoch
    ensures ret.Success? ==> FindsOsd(osds, view.osds, id, o) && FindsRoute(pools, view.routes, pool, pg, r)
  {
    o, r := -1, -1;
    var body := WriteClusterMap(osdEpoch, pgEpoch, osds, pools);
    ret, view := DecodeClusterMap(body, poolId);
    MapRoundTrip(osdEpoch, pgEpoch, osds, pools, poolId);
    PoolArrives(pools, poolId);
    if ret.Failure? { return; }
    o := FindOsd(view.osds, id);
    OsdLookup(osds, id);
    r := FindPgRoute(view.routes, pool, pg);
    RouteLookup(pools, pool, pg);
  }
}
