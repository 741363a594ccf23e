/** SimpleInitial from end to end: domains, then OSDs and cores, then the groups' first
    state. */
module Initial {
  import opened Counting
  import CoreLists
  import PgState
  import Placement

  datatype Outcome = NotEnoughDomains | Created(pgs: seq<PgState.PgConfig>)

  /** A newly created group: in a good state, with as many members as asked for, on distinct
      OSDs, one in each of the group's distinct domains, the leading domain's first; all run the
      pool's number of cores, and the group serves from one of those cores. */
  ghost predicate Housed(pg: PgState.PgConfig, row: seq<nat>, leader: nat, size: nat, trees: seq<seq<CoreLists.TreeNode>>,
                         coreNum: nat)
  {
    && PgState.Good(pg) && PgState.InState(pg.state, PgState.CREATING) && 0 <= pg.coreIndex < coreNum
    && |pg.osdList| == size && Distinct(pg.osdList)
    && Distinct(row) && row != [] && row[0] == leader
    && CoreLists.OnePerDomain(row, CoreLists.Group(pg.osdList, pg.coreIndex), trees, coreNum)
  }

  lemma RowFit(rows: seq<seq<nat>>, leaders: seq<nat>, size: nat, hosts: nat, i: nat)
    requires Placement.Placed(rows, leaders, size, hosts) && i < |rows|
    ensures CoreLists.RowFits(rows[i], hosts) && |rows[i]| == size && rows[i][0] == leaders[i]
  {
  }

  lemma HousedFrom(g: CoreLists.Group, row: seq<nat>, leader: nat, size: nat, trees: seq<seq<CoreLists.TreeNode>>,
                   coreNum: nat, view: PgState.View, poolSize: nat)
    requires CoreLists.OnePerDomain(row, g, trees, coreNum) && Distinct(g.osds) && g.core < coreNum
    requires Distinct(row) && |row| == size > 0 && row[0] == leader
    ensures Housed(PgState.CreatedPg(g.osds, g.core, view, poolSize), row, leader, size, trees, coreNum)
  {
  }

  ghost predicate AllHoused(pgs: seq<PgState.PgConfig>, rows: seq<seq<nat>>, leaders: seq<nat>, size: nat,
                            trees: seq<seq<CoreLists.TreeNode>>, coreNum: nat)
  {
    && |pgs| == |rows| == |leaders|
    && forall i :: 0 <= i < |pgs| ==> Housed(pgs[i], rows[i], leaders[i], size, trees, coreNum)
  }

  /** The groups are the new ones of these OSDs and cores, each placed as lightly as the groups
      before it allow. */
  ghost predicate AllPlaced(pgs: seq<PgState.PgConfig>, groups: seq<CoreLists.Group>, rows: seq<seq<nat>>,
                            trees: seq<seq<CoreLists.TreeNode>>, coreNum: nat, view: PgState.View, poolSize: nat)
  {
    && |pgs| == |groups| == |rows| && CoreLists.Assigned(rows, groups, trees, coreNum)
    && forall i :: 0 <= i < |pgs| ==> pgs[i] == PgState.CreatedPg(groups[i].osds, groups[i].core, view, poolSize)
  }

  /** The first state of a group. */
  method CreateGroup(g: CoreLists.Group, view: PgState.View, poolSize: nat, ghost groups: seq<CoreLists.Group>, ghost i: nat,
                     ghost rows: seq<seq<nat>>, ghost leaders: seq<nat>, ghost size: nat,
                     ghost trees: seq<seq<CoreLists.TreeNode>>, ghost coreNum: nat)
    returns (pg: PgState.PgConfig)
    requires Placement.Placed(rows, leaders, size, |trees|) && size > 0 && i < |rows| == |groups| && groups[i] == g
    requires CoreLists.Assigned(rows, groups, trees, coreNum)
    ensures pg == PgState.CreatedPg(g.osds, g.core, view, poolSize)
    ensures Housed(pg, rows[i], leaders[i], size, trees, coreNum)
  {
    assert CoreLists.AssignedAt(rows, groups, trees, coreNum, i);
    RowFit(rows, leaders, size, |trees|, i);
    HousedFrom(g, rows[i], leaders[i], size, trees, coreNum, view, poolSize);
    pg := PgState.CreatedPg(g.osds, g.core, view, poolSize);
  }

  method FirstStates(groups: seq<CoreLists.Group>, view: PgState.View, poolSize: nat, ghost rows: seq<seq<nat>>,
                     ghost leaders: seq<nat>, ghost size: nat, ghost trees: seq<seq<CoreLists.TreeNode>>, ghost coreNum: nat)
    returns (pgs: seq<PgState.PgConfig>)
    requires Placement.Placed(rows, leaders, size, |trees|) && size > 0 && |rows| == |groups|
    requires CoreLists.Assigned(rows, groups, trees, coreNum)
    ensures AllHoused(pgs, rows, leaders, size, trees, coreNum)
    ensures AllPlaced(pgs, groups, rows, trees, coreNum, view, poolSize)
  {
    pgs := [];
    for i := 0 to |groups|
      invariant |pgs| == i
      invariant forall k :: 0 <= k < i ==> Housed(pgs[k], rows[k], leaders[k], size, trees, coreNum)
      invariant forall k :: 0 <= k < i ==> pgs[k] == PgState.CreatedPg(groups[k].osds, groups[k].core, view, poolSize)
    {
      var pg := CreateGroup(groups[i], view, poolSize, groups, i, rows, leaders, size, trees, coreNum);
      pgs := pgs + [pg];
    }
  }

  /** Steps 3 and 4 for rows of domains. */
  method CreateGroups(rows: seq<seq<nat>>, size: nat, poolSize: nat, trees: seq<seq<CoreLists.TreeNode>>, coreNum: nat,
                      view: PgState.View, ghost leaders: seq<nat>)
    returns (pgs: seq<PgState.PgConfig>, ghost placed: seq<CoreLists.Group>)
    requires Placement.Placed(rows, leaders, size, |trees|) && size > 0 && coreNum > 0
    requires CoreLists.OneHome(trees) && CoreLists.Staffed(trees, coreNum)
    ensures AllHoused(pgs, rows, leaders, size, trees, coreNum)
    ensures AllPlaced(pgs, placed, rows, trees, coreNum, view, poolSize)
  {
    forall i: nat | i < |rows|
      ensures CoreLists.RowFits(rows[i], |trees|)
    {
      RowFit(rows, leaders, size, |trees|, i);
    }
    var groups, lists := CoreLists.AssignOsds(rows, trees, coreNum);
    pgs := FirstStates(groups, view, poolSize, rows, leaders, size, trees, coreNum);
    placed := groups;
  }

  /** SimpleInitial for a pool without earlier groups: all groups are housed, each as lightly as
      the groups before it allow; the domains were evened out; and every domain leads the same
      number of groups or one more. */
  method SimpleInitial(pgCount: nat, size: nat, poolSize: nat, trees: seq<seq<CoreLists.TreeNode>>, coreNum: nat,
                       perm: seq<nat>, view: PgState.View)
    returns (r: Outcome, ghost rows: seq<seq<nat>>, ghost leaders: seq<nat>, ghost placed: seq<CoreLists.Group>,
             ghost trace: seq<Placement.Snapshot>, ghost onHost: seq<seq<nat>>, ghost load: seq<int>)
    requires 0 < size && pgCount < Placement.MAX_INT && coreNum > 0
    requires CoreLists.OneHome(trees) && CoreLists.Staffed(trees, coreNum)
    requires |perm| == |trees| && Distinct(perm) && forall i :: 0 <= i < |perm| ==> perm[i] < |perm|
    ensures r.NotEnoughDomains? <==> |trees| == 0 || size > |trees|
    ensures r.Created? ==> |r.pgs| == pgCount && AllHoused(r.pgs, rows, leaders, size, trees, coreNum)
    ensures r.Created? ==> AllPlaced(r.pgs, placed, rows, trees, coreNum, view, poolSize)
    ensures r.Created? ==> Placement.Evened(trace, rows, load, leaders, onHost, pgCount, size, |trees|)
    ensures r.Created? ==> forall h: nat :: h < |trees| ==>
              pgCount / |trees| <= Count(leaders, h) <= pgCount / |trees| + (if pgCount % |trees| == 0 then 0 else 1)
  {
    rows, leaders, placed, trace, onHost, load := [], [], [], [], [], [];
    var p, moves;
    p, leaders, onHost, moves, trace := Placement.PlaceGroups(pgCount, size, |trees|, perm);
    if p.NotEnoughHosts? { return NotEnoughDomains, [], [], [], [], [], []; }
    rows, load := p.rows, p.load;
    var pgs;
    pgs, placed := CreateGroups(p.rows, size, poolSize, trees, coreNum, view, leaders);
    r := Created(pgs);
  }
}
