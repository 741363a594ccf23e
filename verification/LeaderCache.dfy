/** The client's cached group leaders: what they are carried over by, and when they go. */
module LeaderCache {
  import opened Wire
  import opened ClusterCodec
  import opened Lookup

  datatype Leader = Leader(osdId: nat, port: nat, address: seq<Byte>)

  const NO_LEADER := Leader(0, 0, [])

  datatype Entry = Entry(route: Route, valid: bool, leader: Leader)

  function RouteIn(e: Entry): Route { e.route }

  function RoutesOf(s: seq<Entry>): (r: seq<Route>)
    ensures |r| == |s| && forall i :: 0 <= i < |s| ==> r[i] == s[i].route
  {
    MapAll(RouteIn, s)
  }

  ghost predicate Strict(s: seq<Entry>) {
    StrictRoutes(RoutesOf(s))
  }

  /** Where the group is in the table, or -1. */
  function Find(s: seq<Entry>, pool: nat, pg: nat): (r: int)
    ensures -1 <= r < |s|
    ensures r == -1 ==> forall i :: 0 <= i < |s| ==> !(s[i].route.poolId == pool && s[i].route.pgId == pg)
    ensures r >= 0 ==> s[r].route.poolId == pool && s[r].route.pgId == pg
  {
    LinearRoute(RoutesOf(s), pool, pg)
  }

  // ---- Carrying leaders over -----------------------------------------------------------------

  /** An entry of the new table with what the old table knows of its leader. */
  function Carried(e: Entry, src: seq<Entry>): Entry {
    var j := Find(src, e.route.poolId, e.route.pgId);
    if j < 0 then e
    else e.(valid := src[j].valid, leader := if src[j].valid then src[j].leader else e.leader)
  }

  function Joined(dst: seq<Entry>, src: seq<Entry>): (r: seq<Entry>)
    ensures |r| == |dst| && forall i :: 0 <= i < |dst| ==> r[i] == Carried(dst[i], src)
  {
    seq(|dst|, i requires 0 <= i < |dst| => Carried(dst[i], src))
  }

  predicate Less(a: Entry, b: Entry) {
    Before(a.route.poolId, a.route.pgId, b.route.poolId, b.route.pgId)
  }

  lemma NotFound(src: seq<Entry>, j: nat, e: Entry)
    requires Strict(src) && j < |src| && Less(e, src[j])
    requires forall k :: 0 <= k < j ==> Less(src[k], e)
    ensures Find(src, e.route.poolId, e.route.pgId) == -1
  {
  }

  /** The merge part way: dst is done below d, and everything of src below s is below the rest
      of dst. */
  ghost predicate Merging(was: seq<Entry>, now: seq<Entry>, src: seq<Entry>, d: nat, s: nat)
    requires d <= |was| && s <= |src|
  {
    && |now| == |was|
    && (forall i :: 0 <= i < d ==> now[i] == Carried(was[i], src))
    && (forall i :: d <= i < |was| ==> now[i] == was[i])
    && (forall i, k :: d <= i < |was| && 0 <= k < s ==> Less(src[k], was[i]))
  }

  lemma MergeMatch(was: seq<Entry>, now: seq<Entry>, src: seq<Entry>, d: nat, s: nat, e: Entry)
    requires Strict(was) && Strict(src) && d < |was| && s < |src| && Merging(was, now, src, d, s)
    requires src[s].route.poolId == was[d].route.poolId && src[s].route.pgId == was[d].route.pgId
    requires e == was[d].(valid := src[s].valid, leader := if src[s].valid then src[s].leader else was[d].leader)
    ensures Merging(was, now[d := e], src, d + 1, s + 1)
  {
  }

  lemma MergeSkipSource(was: seq<Entry>, now: seq<Entry>, src: seq<Entry>, d: nat, s: nat)
    requires Strict(was) && d < |was| && s < |src| && Merging(was, now, src, d, s) && Less(src[s], was[d])
    ensures Merging(was, now, src, d, s + 1)
  {
  }

  lemma MergeSkipTarget(was: seq<Entry>, now: seq<Entry>, src: seq<Entry>, d: nat, s: nat)
    requires Strict(src) && d < |was| && s < |src| && Merging(was, now, src, d, s) && Less(was[d], src[s])
    ensures Merging(was, now, src, d + 1, s)
  {
  }

  lemma MergeEnds(was: seq<Entry>, now: seq<Entry>, src: seq<Entry>, d: nat, s: nat)
    requires d <= |was| && s <= |src| && Merging(was, now, src, d, s) && (d == |was| || s == |src|)
    ensures now == Joined(was, src)
  {
  }

  /** kfastblock_meta_copy_leader_cache: on two tables in strict order, the merge is the join
      by group. */
  method CopyLeaderCache(dst: array<Entry>, src: seq<Entry>)
    modifies dst
    ensures Strict(old(dst[..])) && Strict(src) ==> dst[..] == Joined(old(dst[..]), src)
  {
    ghost var was := dst[..];
    ghost var strict := Strict(was) && Strict(src);
    var d, s := 0, 0;
    while d < dst.Length && s < |src|
      invariant d <= dst.Length && s <= |src|
      invariant strict ==> Merging(was, dst[..], src, d, s)
    {
      var from, to := src[s], dst[d];
      if from.route.poolId == to.route.poolId && from.route.pgId == to.route.pgId {
        ghost var now := dst[..];
        dst[d] := to.(valid := from.valid, leader := if from.valid then from.leader else to.leader);
        assert dst[..] == now[d := dst[d]];
        if strict { MergeMatch(was, now, src, d, s, dst[d]); }
        d, s := d + 1, s + 1;
      } else if from.route.poolId < to.route.poolId || (from.route.poolId == to.route.poolId && from.route.pgId < to.route.pgId) {
        if strict { MergeSkipSource(was, dst[..], src, d, s); }
        s := s + 1;
      } else {
        if strict { MergeSkipTarget(was, dst[..], src, d, s); }
        d := d + 1;
      }
    }
    if strict { MergeEnds(was, dst[..], src, d, s); }
  }

  // ---- The cache over a run ------------------------------------------------------------------

  datatype Cache = Cache(osdEpoch: nat, pgEpoch: nat, leaderEpoch: nat, routes: seq<Entry>)

  datatype Step =
    | Replace(osdEpoch: nat, pgEpoch: nat, table: seq<Route>)
    | SetLeader(pool: nat, pg: nat, leader: Leader)
    | Invalidate(pool: nat, pg: nat)
    | InvalidateAll

  /** A freshly decoded table. */
  function Blank(table: seq<Route>): (r: seq<Entry>)
    ensures |r| == |table| && forall i :: 0 <= i < |table| ==> r[i] == Entry(table[i], false, NO_LEADER)
  {
    seq(|table|, i requires 0 <= i < |table| => Entry(table[i], false, NO_LEADER))
  }

  predicate Changed(c: Cache, osdEpoch: nat, pgEpoch: nat) {
    c.osdEpoch != osdEpoch || c.pgEpoch != pgEpoch
  }

  function Cleared(e: Entry): Entry { e.(valid := false, leader := NO_LEADER) }

  function AllCleared(s: seq<Entry>): (r: seq<Entry>)
    ensures |r| == |s| && forall i :: 0 <= i < |s| ==> r[i] == if s[i].valid then Cleared(s[i]) else s[i]
  {
    seq(|s|, i requires 0 <= i < |s| => if s[i].valid then Cleared(s[i]) else s[i])
  }

  predicate AnyValid(s: seq<Entry>) {
    exists i :: 0 <= i < |s| && s[i].valid
  }

  function Next(c: Cache, step: Step): Cache {
    match step
    case Replace(osdEpoch, pgEpoch, table) =>
      var changed := Changed(c, osdEpoch, pgEpoch);
      Cache(osdEpoch, pgEpoch, if changed || c.leaderEpoch == 0 then c.leaderEpoch + 1 else c.leaderEpoch,
            if changed then Blank(table) else Joined(Blank(table), c.routes))
    case SetLeader(pool, pg, leader) =>
      var r := Find(c.routes, pool, pg);
      if r < 0 then c else c.(routes := c.routes[r := c.routes[r].(valid := true, leader := leader)])
    case Invalidate(pool, pg) =>
      var r := Find(c.routes, pool, pg);
      if r < 0 then c else c.(routes := c.routes[r := Cleared(c.routes[r])])
    case InvalidateAll =>
      if |c.routes| == 0 then c
      else c.(routes := AllCleared(c.routes),
              leaderEpoch := if AnyValid(c.routes) || c.leaderEpoch == 0 then c.leaderEpoch + 1 else c.leaderEpoch)
  }

  /** The leader epoch rises by one exactly when a refresh changes an epoch, when leaders that were
      known are dropped, or when it was still 0; an empty table drops nothing. */
  lemma LeaderEpochExact(c: Cache, step: Step)
    ensures Next(c, step).leaderEpoch == c.leaderEpoch +
            match step
            case Replace(osdEpoch, pgEpoch, _) => if osdEpoch != c.osdEpoch || pgEpoch != c.pgEpoch || c.leaderEpoch == 0 then 1 else 0
            case InvalidateAll =>
              if c.routes != [] && ((exists i :: 0 <= i < |c.routes| && c.routes[i].valid) || c.leaderEpoch == 0) then 1 else 0
            case _ => 0
  {
  }

  /** kfastblock_meta_get_pg_leader's answer: a leader, or none. */
  datatype Answer = Known(leader: Leader) | Unknown

  function LeaderOf(c: Cache, pool: nat, pg: nat): Answer {
    var r := Find(c.routes, pool, pg);
    if r < 0 || !c.routes[r].valid then Unknown else Known(c.routes[r].leader)
  }

  /** What the cache stands for: the groups of the current table and, for some of them, a
      leader. */
  datatype Ideal = Ideal(osdEpoch: nat, pgEpoch: nat, groups: set<(nat, nat)>, leaders: map<(nat, nat), Leader>)

  ghost function GroupsOf(table: seq<Route>): set<(nat, nat)> {
    set i | 0 <= i < |table| :: (table[i].poolId, table[i].pgId)
  }

  ghost function IdealNext(a: Ideal, step: Step): Ideal {
    match step
    case Replace(osdEpoch, pgEpoch, table) =>
      var groups := GroupsOf(table);
      var changed := a.osdEpoch != osdEpoch || a.pgEpoch != pgEpoch;
      Ideal(osdEpoch, pgEpoch, groups, if changed then map[] else map k | k in a.leaders && k in groups :: a.leaders[k])
    case SetLeader(pool, pg, leader) =>
      if (pool, pg) in a.groups then a.(leaders := a.leaders[(pool, pg) := leader]) else a
    case Invalidate(pool, pg) => a.(leaders := a.leaders - {(pool, pg)})
    case InvalidateAll => a.(leaders := map[])
  }

  ghost predicate Matches(c: Cache, a: Ideal) {
    && Strict(c.routes) && c.osdEpoch == a.osdEpoch && c.pgEpoch == a.pgEpoch
    && a.groups == GroupsOf(RoutesOf(c.routes))
    && forall pool: nat, pg: nat :: LeaderOf(c, pool, pg) == if (pool, pg) in a.leaders then Known(a.leaders[(pool, pg)]) else Unknown
  }

  ghost predicate Proper(step: Step) {
    step.Replace? ==> StrictRoutes(step.table)
  }

  lemma InGroups(s: seq<Entry>, pool: nat, pg: nat)
    ensures (pool, pg) in GroupsOf(RoutesOf(s)) <==> Find(s, pool, pg) >= 0
  {
  }

  lemma ReplaceMatches(c: Cache, a: Ideal, osdEpoch: nat, pgEpoch: nat, table: seq<Route>)
    requires Matches(c, a) && StrictRoutes(table)
    ensures Matches(Next(c, Replace(osdEpoch, pgEpoch, table)), IdealNext(a, Replace(osdEpoch, pgEpoch, table)))
  {
  }

  lemma OneEntryMatches(c: Cache, a: Ideal, pool: nat, pg: nat, e: Entry, leaders: map<(nat, nat), Leader>)
    requires Matches(c, a) && Find(c.routes, pool, pg) >= 0
    requires e.route == c.routes[Find(c.routes, pool, pg)].route
    requires forall k :: k in leaders <==> if k == (pool, pg) then e.valid else k in a.leaders
    requires forall k :: k in leaders ==> leaders[k] == if k == (pool, pg) then e.leader else a.leaders[k]
    ensures Matches(c.(routes := c.routes[Find(c.routes, pool, pg) := e]), a.(leaders := leaders))
  {
    var r := Find(c.routes, pool, pg);
    var c' := c.(routes := c.routes[r := e]);
    assert RoutesOf(c'.routes) == RoutesOf(c.routes);
    forall p: nat, g: nat
      ensures LeaderOf(c', p, g) == if (p, g) in leaders then Known(leaders[(p, g)]) else Unknown
    {
      assert LeaderOf(c, p, g) == if (p, g) in a.leaders then Known(a.leaders[(p, g)]) else Unknown;
      assert Find(c'.routes, p, g) == Find(c.routes, p, g);
    }
  }

  lemma StepMatches(c: Cache, a: Ideal, step: Step)
    requires Matches(c, a) && Proper(step)
    ensures Matches(Next(c, step), IdealNext(a, step))
  {
    match step
    case Replace(osdEpoch, pgEpoch, table) => ReplaceMatches(c, a, osdEpoch, pgEpoch, table);
    case SetLeader(pool, pg, leader) =>
      InGroups(c.routes, pool, pg);
      var r := Find(c.routes, pool, pg);
      if r >= 0 {
        OneEntryMatches(c, a, pool, pg, c.routes[r].(valid := true, leader := leader), a.leaders[(pool, pg) := leader]);
      }
    case Invalidate(pool, pg) =>
      var r := Find(c.routes, pool, pg);
      if r >= 0 {
        OneEntryMatches(c, a, pool, pg, Cleared(c.routes[r]), a.leaders - {(pool, pg)});
      } else {
        assert LeaderOf(c, pool, pg) == Unknown;
        assert a.leaders - {(pool, pg)} == a.leaders;
      }
    case InvalidateAll => AllMatches(c, a);
  }

  lemma AllMatches(c: Cache, a: Ideal)
    requires Matches(c, a)
    ensures Matches(Next(c, InvalidateAll), IdealNext(a, InvalidateAll))
  {
  }

  function Run(c: Cache, steps: seq<Step>): Cache {
    if steps == [] then c else Next(Run(c, steps[..|steps| - 1]), steps[|steps| - 1])
  }

  ghost function IdealRun(a: Ideal, steps: seq<Step>): Ideal {
    if steps == [] then a else IdealNext(IdealRun(a, steps[..|steps| - 1]), steps[|steps| - 1])
  }

  /** Over every run of refreshes, learned leaders and invalidations the cache answers exactly
      as the ideal one: a leader is known while it was learned and not dropped since, its group
      stayed in the table, and no refresh changed either epoch. */
  lemma {:induction false} RunMatches(c: Cache, a: Ideal, steps: seq<Step>)
    requires Matches(c, a) && forall i :: 0 <= i < |steps| ==> Proper(steps[i])
    ensures Matches(Run(c, steps), IdealRun(a, steps))
  {
    if steps != [] {
      var k := |steps| - 1;
      RunMatches(c, a, steps[..k]);
      StepMatches(Run(c, steps[..k]), IdealRun(a, steps[..k]), steps[k]);
    }
  }

  lemma StartMatches()
    ensures Matches(Cache(0, 0, 0, []), Ideal(0, 0, {}, map[]))
  {
  }

  /** A refresh that changes either epoch leaves no leader known and raises the leader epoch;
      no step ever lowers it. */
  lemma RefreshDrops(c: Cache, step: Step, pool: nat, pg: nat)
    ensures Next(c, step).leaderEpoch >= c.leaderEpoch
    ensures step.Replace? && Changed(c, step.osdEpoch, step.pgEpoch) ==>
              Next(c, step).leaderEpoch > c.leaderEpoch && LeaderOf(Next(c, step), pool, pg) == Unknown
  {
  }

  // ---- The view ------------------------------------------------------------------------------

  /** The part of the cluster view that holds the leaders. */
  class View {
    var osdEpoch: nat
    var pgEpoch: nat
    var leaderEpoch: nat
    var routes: array<Entry>

    ghost function Value(): Cache
      reads this, routes
    {
      Cache(osdEpoch, pgEpoch, leaderEpoch, routes[..])
    }

    constructor ()
      ensures Value() == Cache(0, 0, 0, []) && fresh(routes)
    {
      osdEpoch, pgEpoch, leaderEpoch := 0, 0, 0;
      routes := new Entry[0];
    }

    /** kfastblock_meta_replace_cluster_map with a newly decoded table */
    method ReplaceClusterMap(newOsdEpoch: nat, newPgEpoch: nat, table: array<Entry>)
      requires table != routes && table[..] == Blank(RoutesOf(table[..]))
      requires Strict(table[..]) && Strict(routes[..])
      modifies this, table
      ensures routes == table
      ensures Value() == Next(old(Value()), Replace(newOsdEpoch, newPgEpoch, old(RoutesOf(table[..]))))
    {
      var changed := osdEpoch != newOsdEpoch || pgEpoch != newPgEpoch;
      var oldRoutes := routes;
      osdEpoch, pgEpoch, routes := newOsdEpoch, newPgEpoch, table;
      if !changed { CopyLeaderCache(table, oldRoutes[..]); }
      if changed || leaderEpoch == 0 { leaderEpoch := leaderEpoch + 1; }
    }

    /** kfastblock_meta_get_pg_leader */
    method GetPgLeader(pool: nat, pg: nat) returns (a: Answer)
      requires Strict(routes[..])
      ensures a == LeaderOf(Value(), pool, pg)
    {
      var r := FindPgRoute(RoutesOf(routes[..]), pool, pg);
      if r < 0 || !routes[r].valid { return Unknown; }
      return Known(routes[r].leader);
    }

    /** kfastblock_meta_set_pg_leader; false when the table has no such group */
    method SetPgLeader(pool: nat, pg: nat, leader: Leader) returns (found: bool)
      requires Strict(routes[..])
      modifies routes
      ensures found <==> Find(old(routes[..]), pool, pg) >= 0
      ensures Value() == Next(old(Value()), SetLeader(pool, pg, leader))
    {
      var r := FindPgRoute(RoutesOf(routes[..]), pool, pg);
      if r < 0 { return false; }
      routes[r] := routes[r].(valid := true, leader := leader);
      return true;
    }

    /** kfastblock_meta_invalidate_pg_leader */
    method InvalidatePgLeader(pool: nat, pg: nat)
      requires Strict(routes[..])
      modifies routes
      ensures Value() == Next(old(Value()), Invalidate(pool, pg))
    {
      var r := FindPgRoute(RoutesOf(routes[..]), pool, pg);
      if r >= 0 { routes[r] := Cleared(routes[r]); }
    }

    /** kfastblock_meta_invalidate_all_pg_leaders */
    method InvalidateAllPgLeaders()
      modifies this, routes
      ensures routes == old(routes)
      ensures Value() == Next(old(Value()), InvalidateAll)
    {
      if routes.Length == 0 { return; }
      ghost var was := routes[..];
      var invalidated := false;
      for i := 0 to routes.Length
        invariant routes == old(routes) && Value() == old(Value()).(routes := routes[..])
        invariant forall k :: 0 <= k < i ==> routes[k] == if was[k].valid then Cleared(was[k]) else was[k]
        invariant forall k :: i <= k < routes.Length ==> routes[k] == was[k]
        invariant invalidated <==> exists k :: 0 <= k < i && was[k].valid
      {
        if routes[i].valid {
          routes[i] := Cleared(routes[i]);
          invalidated := true;
        }
      }
      assert routes[..] == AllCleared(was);
      if invalidated || leaderEpoch == 0 { leaderEpoch := leaderEpoch + 1; }
    }
  }
}
