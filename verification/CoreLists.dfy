/** Steps 3 and 4 of SimpleInitial: per failure domain a list of (OSD, core) entries kept in
    order of load, from which every placement group takes one OSD per domain, all on one
    core. */
module CoreLists {
  import opened Counting

  datatype OsdCore = OsdCore(osd: int, core: nat, pgnum: nat)

  datatype TreeNode = TreeNode(osd: int, coreNum: nat)

  datatype Group = Group(osds: seq<int>, core: nat)

  predicate Sorted(list: seq<OsdCore>) {
    forall i, j :: 0 <= i < j < |list| ==> list[i].pgnum <= list[j].pgnum
  }

  ghost predicate HasCore(entries: multiset<OsdCore>, core: nat) {
    exists e :: e in entries && e.core == core
  }

  /** In order, and with every core on offer. */
  ghost predicate ListOk(list: seq<OsdCore>, cores: nat) {
    && Sorted(list)
    && forall c: nat :: c < cores ==> HasCore(multiset(list), c)
  }

  /** No OSD and core is listed twice. */
  ghost predicate UniqueKeys(entries: multiset<OsdCore>) {
    forall a, b :: a in entries && b in entries && a.osd == b.osd && a.core == b.core ==>
      a == b && entries[a] == 1
  }

  function Busier(e: OsdCore): OsdCore { e.(pgnum := e.pgnum + 1) }

  /** One entry counts one more group; nothing else changes. */
  ghost predicate Took(before: multiset<OsdCore>, after: multiset<OsdCore>, e: OsdCore) {
    e in before && after == before - multiset{e} + multiset{Busier(e)}
  }

  /** The taken entry is on the core, and the least loaded of that core. */
  ghost predicate Choice(before: multiset<OsdCore>, e: OsdCore, core: nat) {
    && e in before && e.core == core
    && forall o :: o in before && o.core == core ==> e.pgnum <= o.pgnum
  }

  /** searchMinCore: the first entry on the core; in a sorted list its least loaded one. */
  method SearchMinCore(list: seq<OsdCore>, core: nat) returns (pos: int)
    ensures pos == -1 <==> !HasCore(multiset(list), core)
    ensures pos != -1 ==> 0 <= pos < |list| && list[pos].core == core
    ensures pos != -1 && Sorted(list) ==> Choice(multiset(list), list[pos], core)
  {
    for i := 0 to |list|
      invariant forall k :: 0 <= k < i ==> list[k].core != core
    {
      if list[i].core == core {
        assert list[i] in multiset(list);
        return i;
      }
    }
    return -1;
  }

  /** What sortOsdList leaves when the entry at pos moves to just before e. */
  function Moved(list: seq<OsdCore>, pos: nat, e: nat): (r: seq<OsdCore>)
    requires pos < e <= |list|
    ensures |r| == |list|
  {
    list[..pos] + list[pos + 1..e] + [list[pos]] + list[e..]
  }

  lemma MovedSame(list: seq<OsdCore>, pos: nat, e: nat)
    requires pos < e <= |list|
    ensures multiset(Moved(list, pos, e)) == multiset(list)
  {
    assert list == list[..pos] + [list[pos]] + list[pos + 1..e] + list[e..];
  }

  /** Everything but the entry at pos is in order. */
  predicate SortedBut(list: seq<OsdCore>, pos: nat) {
    forall i, j :: 0 <= i < j < |list| && i != pos && j != pos ==> list[i].pgnum <= list[j].pgnum
  }

  lemma MovedSorted(list: seq<OsdCore>, pos: nat, e: nat)
    requires pos < e <= |list| && SortedBut(list, pos)
    requires forall k :: 0 <= k < e ==> list[k].pgnum <= list[pos].pgnum
    requires e < |list| ==> list[pos].pgnum < list[e].pgnum
    ensures Sorted(Moved(list, pos, e))
  {
  }

  /** sortOsdList: the entry at pos, just incremented, moves behind the last entry that is
      not more loaded. */
  method SortOsdList(list: seq<OsdCore>, pos: nat) returns (r: seq<OsdCore>)
    requires pos < |list| && SortedBut(list, pos)
    requires forall i :: 0 <= i < pos ==> list[i].pgnum <= list[pos].pgnum
    ensures Sorted(r) && multiset(r) == multiset(list)
  {
    var e := pos + 1;
    while e < |list| && !(list[pos].pgnum < list[e].pgnum)
      invariant pos < e <= |list|
      invariant forall k :: pos < k < e ==> list[k].pgnum <= list[pos].pgnum
    {
      e := e + 1;
    }
    MovedSame(list, pos, e);
    MovedSorted(list, pos, e);
    r := Moved(list, pos, e);
  }

  /** Taking an entry and putting the list back in order. */
  method TakeEntry(list: seq<OsdCore>, pos: nat, ghost cores: nat) returns (r: seq<OsdCore>)
    requires ListOk(list, cores) && pos < |list|
    ensures ListOk(r, cores)
    ensures Took(multiset(list), multiset(r), list[pos])
  {
    r := SortOsdList(list[pos := Busier(list[pos])], pos);
    TookKeepsCores(multiset(list), multiset(r), list[pos], cores);
  }

  lemma TookKeepsCores(before: multiset<OsdCore>, after: multiset<OsdCore>, e: OsdCore, cores: nat)
    requires Took(before, after, e)
    requires forall c: nat :: c < cores ==> HasCore(before, c)
    ensures forall c: nat :: c < cores ==> HasCore(after, c)
  {
    forall c: nat | c < cores
      ensures HasCore(after, c)
    {
      assert HasCore(before, c);
      var o :| o in before && o.core == c;
      assert (if o == e then Busier(e) else o) in after;
    }
  }

  lemma TookKeepsKeys(before: multiset<OsdCore>, after: multiset<OsdCore>, e: OsdCore)
    requires Took(before, after, e) && UniqueKeys(before)
    ensures UniqueKeys(after)
  {
  }

  // ---- Step 3: the lists ----

  predicate DistinctOsds(nodes: seq<TreeNode>) {
    forall i, j :: 0 <= i < j < |nodes| ==> nodes[i].osd != nodes[j].osd
  }

  /** The domain has an OSD with the pool's core number. */
  ghost predicate HasOsd(nodes: seq<TreeNode>, coreNum: nat) {
    exists i :: 0 <= i < |nodes| && nodes[i].coreNum == coreNum
  }

  /** Node i accounts for e once c rounds and the first k nodes of the next are done. */
  ghost predicate Covers(nodes: seq<TreeNode>, coreNum: nat, c: nat, k: nat, i: int, e: OsdCore) {
    && 0 <= i < |nodes| && nodes[i] == TreeNode(e.osd, coreNum) && e.pgnum == 0
    && e.core < if i < k then c + 1 else c
  }

  ghost predicate Due(nodes: seq<TreeNode>, coreNum: nat, c: nat, k: nat, e: OsdCore) {
    exists i :: Covers(nodes, coreNum, c, k, i, e)
  }

  ghost predicate Listed(entries: multiset<OsdCore>, nodes: seq<TreeNode>, coreNum: nat, c: nat, k: nat) {
    forall e :: e in entries <==> Due(nodes, coreNum, c, k, e)
  }

  ghost predicate Built(list: seq<OsdCore>, nodes: seq<TreeNode>, coreNum: nat, c: nat, k: nat) {
    && Listed(multiset(list), nodes, coreNum, c, k)
    && (DistinctOsds(nodes) ==> UniqueKeys(multiset(list)))
    && Sorted(list)
  }

  lemma DueStep(nodes: seq<TreeNode>, coreNum: nat, c: nat, k: nat, next: nat, e: OsdCore)
    requires k < |nodes| && next == k + 1
    ensures Due(nodes, coreNum, c, next, e) <==>
            Due(nodes, coreNum, c, k, e) || (nodes[k].coreNum == coreNum && e == OsdCore(nodes[k].osd, c, 0))
  {
    if i :| Covers(nodes, coreNum, c, next, i, e) {
      assert i != k || e.core < c ==> Covers(nodes, coreNum, c, k, i, e);
    }
    if i :| Covers(nodes, coreNum, c, k, i, e) {
      assert Covers(nodes, coreNum, c, next, i, e);
    }
    assert nodes[k].coreNum == coreNum ==> Covers(nodes, coreNum, c, next, k, OsdCore(nodes[k].osd, c, 0));
  }

  lemma SkipNode(list: seq<OsdCore>, nodes: seq<TreeNode>, coreNum: nat, c: nat, k: nat)
    requires k < |nodes| && Built(list, nodes, coreNum, c, k) && nodes[k].coreNum != coreNum
    ensures Built(list, nodes, coreNum, c, k + 1)
  {
    forall e: OsdCore
      ensures Due(nodes, coreNum, c, k + 1, e) <==> e in multiset(list)
    {
      DueStep(nodes, coreNum, c, k, k + 1, e);
    }
  }

  lemma AddNode(list: seq<OsdCore>, nodes: seq<TreeNode>, coreNum: nat, c: nat, k: nat)
    requires k < |nodes| && Built(list, nodes, coreNum, c, k) && nodes[k].coreNum == coreNum
    ensures Built(list + [OsdCore(nodes[k].osd, c, 0)], nodes, coreNum, c, k + 1)
  {
    var x := OsdCore(nodes[k].osd, c, 0);
    var m := multiset(list);
    assert multiset(list + [x]) == m + multiset{x};
    forall e: OsdCore
      ensures Due(nodes, coreNum, c, k + 1, e) <==> e in m + multiset{x}
    {
      DueStep(nodes, coreNum, c, k, k + 1, e);
    }
    forall e | e in list
      ensures e.pgnum == 0
      ensures DistinctOsds(nodes) && e.osd == x.osd ==> e.core != x.core
    {
      assert e in m;
      assert Due(nodes, coreNum, c, k, e);
    }
  }

  lemma NextRound(list: seq<OsdCore>, nodes: seq<TreeNode>, coreNum: nat, c: nat)
    requires Built(list, nodes, coreNum, c, |nodes|)
    ensures Built(list, nodes, coreNum, c + 1, 0)
  {
    var next := c + 1;
    forall e: OsdCore
      ensures Due(nodes, coreNum, next, 0, e) <==> Due(nodes, coreNum, c, |nodes|, e)
    {
      if i :| Covers(nodes, coreNum, c, |nodes|, i, e) {
        assert Covers(nodes, coreNum, next, 0, i, e);
      }
      if i :| Covers(nodes, coreNum, next, 0, i, e) {
        assert Covers(nodes, coreNum, c, |nodes|, i, e);
      }
    }
  }

  /** One domain's list: an idle entry for every core of every OSD with the pool's core
      number, and for nothing else. */
  method BuildList(nodes: seq<TreeNode>, coreNum: nat) returns (list: seq<OsdCore>)
    ensures Listed(multiset(list), nodes, coreNum, coreNum, 0)
    ensures DistinctOsds(nodes) ==> UniqueKeys(multiset(list))
    ensures HasOsd(nodes, coreNum) ==> ListOk(list, coreNum)
  {
    list := [];
    for c := 0 to coreNum
      invariant Built(list, nodes, coreNum, c, 0)
    {
      for j := 0 to |nodes|
        invariant Built(list, nodes, coreNum, c, j)
      {
        if coreNum == nodes[j].coreNum {
          AddNode(list, nodes, coreNum, c, j);
          list := list + [OsdCore(nodes[j].osd, c, 0)];
        } else {
          SkipNode(list, nodes, coreNum, c, j);
        }
      }
      NextRound(list, nodes, coreNum, c);
    }
    AllCores(list, nodes, coreNum);
  }

  lemma AllCores(list: seq<OsdCore>, nodes: seq<TreeNode>, coreNum: nat)
    requires Built(list, nodes, coreNum, coreNum, 0)
    ensures HasOsd(nodes, coreNum) ==> ListOk(list, coreNum)
  {
    if i :| 0 <= i < |nodes| && nodes[i].coreNum == coreNum {
      forall c: nat | c < coreNum
        ensures HasCore(multiset(list), c)
      {
        var e := OsdCore(nodes[i].osd, c, 0);
        assert Covers(nodes, coreNum, coreNum, 0, i, e);
        assert Due(nodes, coreNum, coreNum, 0, e);
      }
    }
  }

  // ---- Step 4: one OSD per domain, all on one core ----

  ghost predicate RowFits(row: seq<nat>, hosts: nat) {
    |row| > 0 && Distinct(row) && forall j :: 0 <= j < |row| ==> row[j] < hosts
  }

  ghost predicate ListsOk(lists: seq<seq<OsdCore>>, cores: nat) {
    forall h :: 0 <= h < |lists| ==> ListOk(lists[h], cores)
  }

  /** The first loop: which of the group's domains has the least loaded front. */
  method IdlestFront(row: seq<nat>, lists: seq<seq<OsdCore>>, ghost cores: nat) returns (index: nat, core: nat)
    requires RowFits(row, |lists|) && ListsOk(lists, cores)
    requires forall h :: 0 <= h < |lists| ==> lists[h] != []
    ensures index < |row| && core == lists[row[index]][0].core
    ensures forall j, e :: 0 <= j < |row| && e in lists[row[j]] ==> lists[row[index]][0].pgnum <= e.pgnum
  {
    index, core := 0, lists[row[0]][0].core;
    var least := lists[row[0]][0].pgnum;
    for j := 1 to |row|
      invariant index < |row| && least == lists[row[index]][0].pgnum && core == lists[row[index]][0].core
      invariant forall k :: 0 <= k < j ==> least <= lists[row[k]][0].pgnum
    {
      if lists[row[j]][0].pgnum < least {
        index, core, least := j, lists[row[j]][0].core, lists[row[j]][0].pgnum;
      }
    }
    assert forall j :: 0 <= j < |row| ==> Sorted(lists[row[j]]);
  }

  /** What one group did to its domains: in each the least loaded entry of the core went up
      by one, and the OSDs chosen are those of these entries. */
  ghost predicate Chosen(row: seq<nat>, before: seq<seq<OsdCore>>, after: seq<seq<OsdCore>>,
                         took: seq<OsdCore>, g: Group, n: nat)
    requires RowFits(row, |before|)
  {
    && |after| == |before| && |took| == |g.osds| == n <= |row|
    && (forall j :: 0 <= j < n ==>
          && took[j].osd == g.osds[j]
          && Choice(multiset(before[row[j]]), took[j], g.core)
          && Took(multiset(before[row[j]]), multiset(after[row[j]]), took[j]))
    && (forall h: nat :: h < |before| && h !in row[..n] ==> after[h] == before[h])
  }

  lemma ChosenStep(row: seq<nat>, before: seq<seq<OsdCore>>, lists: seq<seq<OsdCore>>, list: seq<OsdCore>,
                   took: seq<OsdCore>, g: Group, j: nat, e: OsdCore)
    requires RowFits(row, |before|) && j < |row| && Chosen(row, before, lists, took, g, j)
    requires Choice(multiset(before[row[j]]), e, g.core)
    requires Took(multiset(before[row[j]]), multiset(list), e)
    ensures Chosen(row, before, lists[row[j] := list], took + [e], Group(g.osds + [e.osd], g.core), j + 1)
  {
    var r := lists[row[j] := list];
    assert row[..j + 1] == row[..j] + [row[j]];
    forall k | 0 <= k < j
      ensures r[row[k]] == lists[row[k]]
    {
      assert row[k] != row[j];
    }
  }

  lemma FrontChoice(list: seq<OsdCore>)
    requires Sorted(list) && list != []
    ensures Choice(multiset(list), list[0], list[0].core)
  {
  }

  /** The domain's part in one group: the front, or the first entry on the core. */
  method TakeFrom(list: seq<OsdCore>, front: bool, core: nat, ghost cores: nat)
    returns (r: seq<OsdCore>, e: OsdCore)
    requires ListOk(list, cores) && core < cores
    requires front ==> list != [] && list[0].core == core
    ensures ListOk(r, cores)
    ensures Choice(multiset(list), e, core) && Took(multiset(list), multiset(r), e)
    ensures front ==> e == list[0]
  {
    var pos: int := 0;
    if front {
      FrontChoice(list);
    } else {
      pos := SearchMinCore(list, core);
    }
    e := list[pos];
    r := TakeEntry(list, pos, cores);
  }

  /** Some domain of the group gave its least loaded entry of all, on the group's core. */
  ghost predicate LedByIdlest(row: seq<nat>, before: seq<seq<OsdCore>>, took: seq<OsdCore>, index: nat)
    requires RowFits(row, |before|)
  {
    && index < |row| == |took|
    && forall j, e :: 0 <= j < |row| && e in before[row[j]] ==> took[index].pgnum <= e.pgnum
  }

  lemma ListsOkUpdate(lists: seq<seq<OsdCore>>, h: nat, list: seq<OsdCore>, cores: nat)
    requires h < |lists| && ListsOk(lists, cores) && ListOk(list, cores)
    ensures ListsOk(lists[h := list], cores)
  {
  }

  /** One step of the second loop. */
  method ChooseOne(row: seq<nat>, ghost before: seq<seq<OsdCore>>, lists: seq<seq<OsdCore>>,
                   ghost took: seq<OsdCore>, g: Group, j: nat, front: bool, ghost cores: nat)
    returns (r: seq<seq<OsdCore>>, e: OsdCore)
    requires RowFits(row, |before|) && j < |row| && Chosen(row, before, lists, took, g, j)
    requires ListsOk(lists, cores) && g.core < cores
    requires front ==> before[row[j]] != [] && before[row[j]][0].core == g.core
    ensures Chosen(row, before, r, took + [e], Group(g.osds + [e.osd], g.core), j + 1)
    ensures ListsOk(r, cores)
    ensures front ==> e == before[row[j]][0]
  {
    var h := row[j];
    assert lists[h] == before[h] by {
      assert h !in row[..j];
    }
    var list;
    list, e := TakeFrom(lists[h], front, g.core, cores);
    ChosenStep(row, before, lists, list, took, g, j, e);
    r := lists[h := list];
    ListsOkUpdate(lists, h, list, cores);
  }

  /** The two loops of one group. */
  method ChooseMembers(row: seq<nat>, before: seq<seq<OsdCore>>, ghost cores: nat)
    returns (lists: seq<seq<OsdCore>>, g: Group, ghost took: seq<OsdCore>, index: nat)
    requires RowFits(row, |before|) && ListsOk(before, cores) && cores > 0
    requires forall h, e :: 0 <= h < |before| && e in before[h] ==> e.core < cores
    ensures Chosen(row, before, lists, took, g, |row|)
    ensures LedByIdlest(row, before, took, index)
    ensures ListsOk(lists, cores)
  {
    forall h | 0 <= h < |before|
      ensures before[h] != []
    {
      assert HasCore(multiset(before[h]), 0);
    }
    var core;
    index, core := IdlestFront(row, before, cores);
    lists, g, took := before, Group([], core), [];
    ghost var first := before[row[index]][0];
    assert first in before[row[index]];
    for j := 0 to |row|
      invariant Chosen(row, before, lists, took, g, j)
      invariant ListsOk(lists, cores) && g.core == core
      invariant index < j ==> took[index] == first
    {
      var e;
      lists, e := ChooseOne(row, before, lists, took, g, j, j == index, cores);
      g, took := Group(g.osds + [e.osd], core), took + [e];
    }
  }

  // ---- All groups ----

  /** How many groups have the OSD as a member and run on the core. */
  function Uses(groups: seq<Group>, osd: int, core: nat): nat {
    if groups == [] then 0
    else
      var g := groups[|groups| - 1];
      Uses(groups[..|groups| - 1], osd, core) + if g.core == core && osd in g.osds then 1 else 0
  }

  /** An OSD sits in one place of the tree. */
  ghost predicate OneHome(trees: seq<seq<TreeNode>>) {
    && (forall h :: 0 <= h < |trees| ==> DistinctOsds(trees[h]))
    && (forall h, k, a, b :: 0 <= h < |trees| && 0 <= k < |trees| && a in trees[h] && b in trees[k] && a.osd == b.osd ==> h == k)
  }

  ghost predicate Staffed(trees: seq<seq<TreeNode>>, coreNum: nat) {
    forall h :: 0 <= h < |trees| ==> HasOsd(trees[h], coreNum)
  }

  /** The entry belongs to the domain and counts exactly the groups placed on it. */
  ghost predicate EntryTrue(e: OsdCore, nodes: seq<TreeNode>, groups: seq<Group>, coreNum: nat) {
    && TreeNode(e.osd, coreNum) in nodes && e.core < coreNum
    && e.pgnum == Uses(groups, e.osd, e.core)
  }

  ghost predicate EntriesTrue(entries: multiset<OsdCore>, nodes: seq<TreeNode>, groups: seq<Group>, coreNum: nat) {
    UniqueKeys(entries) && forall e :: e in entries ==> EntryTrue(e, nodes, groups, coreNum)
  }

  ghost predicate HasEntry(entries: multiset<OsdCore>, osd: int, core: nat) {
    exists e :: e in entries && e.osd == osd && e.core == core
  }

  /** Every core of every OSD with the pool's core number has an entry. */
  ghost predicate AllListed(entries: multiset<OsdCore>, nodes: seq<TreeNode>, coreNum: nat) {
    forall osd, core: nat :: TreeNode(osd, coreNum) in nodes && core < coreNum ==> HasEntry(entries, osd, core)
  }

  ghost predicate Bookkept(lists: seq<seq<OsdCore>>, trees: seq<seq<TreeNode>>, groups: seq<Group>, coreNum: nat) {
    && |lists| == |trees| && ListsOk(lists, coreNum)
    && (forall h :: 0 <= h < |lists| ==> EntriesTrue(multiset(lists[h]), trees[h], groups, coreNum))
    && (forall h :: 0 <= h < |lists| ==> AllListed(multiset(lists[h]), trees[h], coreNum))
  }

  lemma TookKeepsListed(before: multiset<OsdCore>, after: multiset<OsdCore>, x: OsdCore, nodes: seq<TreeNode>, coreNum: nat)
    requires Took(before, after, x) && AllListed(before, nodes, coreNum)
    ensures AllListed(after, nodes, coreNum)
  {
    forall osd, core: nat | TreeNode(osd, coreNum) in nodes && core < coreNum
      ensures HasEntry(after, osd, core)
    {
      assert HasEntry(before, osd, core);
      var e :| e in before && e.osd == osd && e.core == core;
      assert (if e == x then Busier(x) else e) in after;
    }
  }

  /** The member of domain nodes is on the core an OSD with the fewest groups. */
  ghost predicate LeastOnCore(osd: int, core: nat, nodes: seq<TreeNode>, groups: seq<Group>, coreNum: nat) {
    forall o :: TreeNode(o, coreNum) in nodes ==> Uses(groups, osd, core) <= Uses(groups, o, core)
  }

  /** The OSD and core have the fewest groups of all OSDs and cores in the group's domains. */
  ghost predicate LeastOfAll(osd: int, core: nat, row: seq<nat>, trees: seq<seq<TreeNode>>, groups: seq<Group>, coreNum: nat) {
    forall j, o, c: nat :: 0 <= j < |row| && row[j] < |trees| && TreeNode(o, coreNum) in trees[row[j]] && c < coreNum ==>
      Uses(groups, osd, core) <= Uses(groups, o, c)
  }

  /** How a group is placed after the earlier ones: its core is one where some member has the
      fewest groups anywhere in its domains, and each member has the fewest on that core in its
      own domain. */
  ghost predicate LightlyPlaced(row: seq<nat>, g: Group, trees: seq<seq<TreeNode>>, groups: seq<Group>, coreNum: nat) {
    && |g.osds| == |row|
    && (forall j :: 0 <= j < |row| ==> row[j] < |trees| && LeastOnCore(g.osds[j], g.core, trees[row[j]], groups, coreNum))
    && exists k :: 0 <= k < |row| && LeastOfAll(g.osds[k], g.core, row, trees, groups, coreNum)
  }

  lemma MemberLeast(entries: multiset<OsdCore>, x: OsdCore, nodes: seq<TreeNode>, groups: seq<Group>, coreNum: nat)
    requires EntriesTrue(entries, nodes, groups, coreNum) && AllListed(entries, nodes, coreNum)
    requires Choice(entries, x, x.core)
    ensures LeastOnCore(x.osd, x.core, nodes, groups, coreNum)
  {
    assert EntryTrue(x, nodes, groups, coreNum);
    forall o | TreeNode(o, coreNum) in nodes
      ensures Uses(groups, x.osd, x.core) <= Uses(groups, o, x.core)
    {
      assert HasEntry(entries, o, x.core);
      var e :| e in entries && e.osd == o && e.core == x.core;
      assert EntryTrue(e, nodes, groups, coreNum);
    }
  }

  lemma LeaderLeast(row: seq<nat>, before: seq<seq<OsdCore>>, x: OsdCore, trees: seq<seq<TreeNode>>, groups: seq<Group>, coreNum: nat)
    requires Bookkept(before, trees, groups, coreNum) && RowFits(row, |before|)
    requires forall j, e :: 0 <= j < |row| && e in before[row[j]] ==> x.pgnum <= e.pgnum
    requires x.pgnum == Uses(groups, x.osd, x.core)
    ensures LeastOfAll(x.osd, x.core, row, trees, groups, coreNum)
  {
    forall j, o, c: nat | 0 <= j < |row| && TreeNode(o, coreNum) in trees[row[j]] && c < coreNum
      ensures Uses(groups, x.osd, x.core) <= Uses(groups, o, c)
    {
      var entries := multiset(before[row[j]]);
      assert AllListed(entries, trees[row[j]], coreNum) && HasEntry(entries, o, c);
      var e :| e in entries && e.osd == o && e.core == c;
      assert EntryTrue(e, trees[row[j]], groups, coreNum) && e in before[row[j]];
    }
  }

  lemma {:induction false} GroupLight(row: seq<nat>, before: seq<seq<OsdCore>>, lists: seq<seq<OsdCore>>, took: seq<OsdCore>,
                                      g: Group, index: nat, trees: seq<seq<TreeNode>>, groups: seq<Group>, coreNum: nat)
    requires Bookkept(before, trees, groups, coreNum) && RowFits(row, |before|)
    requires Chosen(row, before, lists, took, g, |row|) && LedByIdlest(row, before, took, index)
    ensures LightlyPlaced(row, g, trees, groups, coreNum)
  {
    forall j | 0 <= j < |row|
      ensures LeastOnCore(g.osds[j], g.core, trees[row[j]], groups, coreNum)
    {
      MemberLeast(multiset(before[row[j]]), took[j], trees[row[j]], groups, coreNum);
    }
    assert EntryTrue(took[index], trees[row[index]], groups, coreNum);
    LeaderLeast(row, before, took[index], trees, groups, coreNum);
  }

  lemma UsesAppend(groups: seq<Group>, g: Group, osd: int, core: nat)
    ensures Uses(groups + [g], osd, core) == Uses(groups, osd, core) + if g.core == core && osd in g.osds then 1 else 0
  {
  }

  /** The group's OSDs, in the order of its domains. */
  ghost predicate OnePerDomain(row: seq<nat>, g: Group, trees: seq<seq<TreeNode>>, coreNum: nat) {
    && |g.osds| == |row|
    && forall j :: 0 <= j < |row| ==> row[j] < |trees| && TreeNode(g.osds[j], coreNum) in trees[row[j]]
  }

  lemma NoMember(osd: int, h: nat, row: seq<nat>, g: Group, trees: seq<seq<TreeNode>>, coreNum: nat)
    requires OneHome(trees) && OnePerDomain(row, g, trees, coreNum)
    requires h < |trees| && TreeNode(osd, coreNum) in trees[h]
    ensures h !in row ==> osd !in g.osds
    ensures forall j :: 0 <= j < |row| && Distinct(row) && row[j] == h && osd != g.osds[j] ==> osd !in g.osds
  {
  }

  /** A domain outside the group. */
  lemma SameEntries(entries: multiset<OsdCore>, h: nat, row: seq<nat>, g: Group, trees: seq<seq<TreeNode>>,
                    groups: seq<Group>, coreNum: nat)
    requires OneHome(trees) && h < |trees| && h !in row && OnePerDomain(row, g, trees, coreNum)
    requires EntriesTrue(entries, trees[h], groups, coreNum)
    ensures EntriesTrue(entries, trees[h], groups + [g], coreNum)
  {
  }

  /** A domain of the group. */
  lemma TookEntries(before: multiset<OsdCore>, after: multiset<OsdCore>, x: OsdCore, j: nat, row: seq<nat>, g: Group,
                    trees: seq<seq<TreeNode>>, groups: seq<Group>, coreNum: nat)
    requires OneHome(trees) && j < |row| && Distinct(row) && OnePerDomain(row, g, trees, coreNum)
    requires x.osd == g.osds[j] && x.core == g.core && Took(before, after, x)
    requires EntriesTrue(before, trees[row[j]], groups, coreNum)
    ensures EntriesTrue(after, trees[row[j]], groups + [g], coreNum)
  {
    TookKeepsKeys(before, after, x);
    forall e | e in after
      ensures EntryTrue(e, trees[row[j]], groups + [g], coreNum)
    {
      UsesAppend(groups, g, e.osd, e.core);
      assert EntryTrue(x, trees[row[j]], groups, coreNum);
      if e != Busier(x) {
        assert EntryTrue(e, trees[row[j]], groups, coreNum);
        assert e.osd != x.osd || e.core != x.core;
        NoMember(e.osd, row[j], row, g, trees, coreNum);
      }
    }
  }

  lemma GroupShape(row: seq<nat>, before: seq<seq<OsdCore>>, lists: seq<seq<OsdCore>>, took: seq<OsdCore>, g: Group,
                   trees: seq<seq<TreeNode>>, groups: seq<Group>, coreNum: nat)
    requires Bookkept(before, trees, groups, coreNum)
    requires RowFits(row, |before|) && Chosen(row, before, lists, took, g, |row|)
    ensures OnePerDomain(row, g, trees, coreNum) && g.core < coreNum
  {
    forall j | 0 <= j < |row|
      ensures TreeNode(g.osds[j], coreNum) in trees[row[j]] && g.core < coreNum
    {
      assert EntriesTrue(multiset(before[row[j]]), trees[row[j]], groups, coreNum);
      assert EntryTrue(took[j], trees[row[j]], groups, coreNum);
    }
    assert Choice(multiset(before[row[0]]), took[0], g.core);
  }

  lemma {:induction false} DomainKept(row: seq<nat>, before: seq<seq<OsdCore>>, lists: seq<seq<OsdCore>>, took: seq<OsdCore>, g: Group,
                   trees: seq<seq<TreeNode>>, groups: seq<Group>, coreNum: nat, h: nat)
    requires OneHome(trees) && h < |before| == |trees| && OnePerDomain(row, g, trees, coreNum)
    requires EntriesTrue(multiset(before[h]), trees[h], groups, coreNum) && AllListed(multiset(before[h]), trees[h], coreNum)
    requires RowFits(row, |before|) && Chosen(row, before, lists, took, g, |row|)
    ensures EntriesTrue(multiset(lists[h]), trees[h], groups + [g], coreNum) && AllListed(multiset(lists[h]), trees[h], coreNum)
  {
    if h in row {
      var j: nat :| j < |row| && row[j] == h;
      TookEntries(multiset(before[h]), multiset(lists[h]), took[j], j, row, g, trees, groups, coreNum);
      TookKeepsListed(multiset(before[h]), multiset(lists[h]), took[j], trees[h], coreNum);
    } else {
      assert row[..|row|] == row;
      SameEntries(multiset(before[h]), h, row, g, trees, groups, coreNum);
    }
  }

  lemma GroupKeepsBooks(row: seq<nat>, before: seq<seq<OsdCore>>, lists: seq<seq<OsdCore>>, took: seq<OsdCore>, g: Group,
                        trees: seq<seq<TreeNode>>, groups: seq<Group>, coreNum: nat)
    requires OneHome(trees) && Bookkept(before, trees, groups, coreNum)
    requires RowFits(row, |before|) && Chosen(row, before, lists, took, g, |row|) && ListsOk(lists, coreNum)
    ensures OnePerDomain(row, g, trees, coreNum) && g.core < coreNum
    ensures Bookkept(lists, trees, groups + [g], coreNum)
  {
    GroupShape(row, before, lists, took, g, trees, groups, coreNum);
    forall h: nat | h < |lists|
      ensures EntriesTrue(multiset(lists[h]), trees[h], groups + [g], coreNum) && AllListed(multiset(lists[h]), trees[h], coreNum)
    {
      DomainKept(row, before, lists, took, g, trees, groups, coreNum, h);
    }
  }

  lemma DistinctMembers(row: seq<nat>, g: Group, trees: seq<seq<TreeNode>>, coreNum: nat)
    requires OneHome(trees) && Distinct(row) && OnePerDomain(row, g, trees, coreNum)
    ensures Distinct(g.osds)
  {
  }

  /** Step 3: every domain's list. */
  method BuildLists(trees: seq<seq<TreeNode>>, coreNum: nat) returns (lists: seq<seq<OsdCore>>)
    requires OneHome(trees)
    requires Staffed(trees, coreNum)
    ensures Bookkept(lists, trees, [], coreNum)
  {
    lists := [];
    for h := 0 to |trees|
      invariant |lists| == h && ListsOk(lists, coreNum)
      invariant forall k :: 0 <= k < h ==> EntriesTrue(multiset(lists[k]), trees[k], [], coreNum)
      invariant forall k :: 0 <= k < h ==> AllListed(multiset(lists[k]), trees[k], coreNum)
    {
      var list := BuildList(trees[h], coreNum);
      FreshEntries(list, trees[h], coreNum);
      lists := lists + [list];
    }
  }

  /** One group of step 4. */
  method AssignGroup(row: seq<nat>, before: seq<seq<OsdCore>>, ghost trees: seq<seq<TreeNode>>,
                     ghost groups: seq<Group>, ghost coreNum: nat)
    returns (g: Group, lists: seq<seq<OsdCore>>)
    requires OneHome(trees) && coreNum > 0 && RowFits(row, |trees|)
    requires Bookkept(before, trees, groups, coreNum)
    ensures OnePerDomain(row, g, trees, coreNum) && Distinct(g.osds) && g.core < coreNum
    ensures Bookkept(lists, trees, groups + [g], coreNum)
    ensures LightlyPlaced(row, g, trees, groups, coreNum)
  {
    CoresBelow(before, trees, groups, coreNum);
    var index;
    ghost var took;
    lists, g, took, index := ChooseMembers(row, before, coreNum);
    GroupKeepsBooks(row, before, lists, took, g, trees, groups, coreNum);
    GroupLight(row, before, lists, took, g, index, trees, groups, coreNum);
    DistinctMembers(row, g, trees, coreNum);
  }

  /** The i-th group: one OSD of each of its domains, in their order, distinct and on one core,
      placed as lightly as the groups before it allow. */
  ghost predicate AssignedAt(rows: seq<seq<nat>>, groups: seq<Group>, trees: seq<seq<TreeNode>>, coreNum: nat, i: nat) {
    && i < |groups| && i < |rows|
    && OnePerDomain(rows[i], groups[i], trees, coreNum) && Distinct(groups[i].osds) && groups[i].core < coreNum
    && LightlyPlaced(rows[i], groups[i], trees, groups[..i], coreNum)
  }

  ghost predicate Assigned(rows: seq<seq<nat>>, groups: seq<Group>, trees: seq<seq<TreeNode>>, coreNum: nat) {
    forall i: nat {:trigger AssignedAt(rows, groups, trees, coreNum, i)} :: i < |groups| ==>
      AssignedAt(rows, groups, trees, coreNum, i)
  }

  lemma {:induction false} AssignedStep(rows: seq<seq<nat>>, groups: seq<Group>, g: Group, trees: seq<seq<TreeNode>>, coreNum: nat)
    requires Assigned(rows, groups, trees, coreNum) && |groups| < |rows|
    requires var row := rows[|groups|];
             && OnePerDomain(row, g, trees, coreNum) && Distinct(g.osds) && g.core < coreNum
             && LightlyPlaced(row, g, trees, groups, coreNum)
    ensures Assigned(rows, groups + [g], trees, coreNum)
  {
    var more := groups + [g];
    forall i: nat {:trigger AssignedAt(rows, more, trees, coreNum, i)} | i < |more|
      ensures AssignedAt(rows, more, trees, coreNum, i)
    {
      if i < |groups| {
        assert AssignedAt(rows, groups, trees, coreNum, i);
        assert more[..i] == groups[..i];
      } else {
        assert more[..i] == groups;
      }
    }
  }

  /** Step 4 over all groups. Each group gets one OSD of each of its domains, in their order,
      all with the pool's core number and all on the group's core, which together are as lightly
      used by the groups before as can be; and every list is in order and counts exactly the
      groups placed on each OSD and core. */
  method AssignOsds(rows: seq<seq<nat>>, trees: seq<seq<TreeNode>>, coreNum: nat)
    returns (groups: seq<Group>, lists: seq<seq<OsdCore>>)
    requires OneHome(trees) && coreNum > 0
    requires Staffed(trees, coreNum)
    requires forall i :: 0 <= i < |rows| ==> RowFits(rows[i], |trees|)
    ensures |groups| == |rows| && Assigned(rows, groups, trees, coreNum)
    ensures Bookkept(lists, trees, groups, coreNum)
  {
    lists := BuildLists(trees, coreNum);
    groups := [];
    for i := 0 to |rows|
      invariant |groups| == i && Assigned(rows, groups, trees, coreNum)
      invariant Bookkept(lists, trees, groups, coreNum)
    {
      var g;
      g, lists := AssignGroup(rows[i], lists, trees, groups, coreNum);
      AssignedStep(rows, groups, g, trees, coreNum);
      groups := groups + [g];
    }
  }

  lemma FreshEntries(list: seq<OsdCore>, nodes: seq<TreeNode>, coreNum: nat)
    requires Listed(multiset(list), nodes, coreNum, coreNum, 0) && UniqueKeys(multiset(list))
    ensures EntriesTrue(multiset(list), nodes, [], coreNum) && AllListed(multiset(list), nodes, coreNum)
  {
    forall osd, core: nat | TreeNode(osd, coreNum) in nodes && core < coreNum
      ensures HasEntry(multiset(list), osd, core)
    {
      var i :| 0 <= i < |nodes| && nodes[i] == TreeNode(osd, coreNum);
      assert Covers(nodes, coreNum, coreNum, 0, i, OsdCore(osd, core, 0));
      assert Due(nodes, coreNum, coreNum, 0, OsdCore(osd, core, 0));
    }
  }

  lemma CoresBelow(lists: seq<seq<OsdCore>>, trees: seq<seq<TreeNode>>, groups: seq<Group>, coreNum: nat)
    requires Bookkept(lists, trees, groups, coreNum)
    ensures forall h, e :: 0 <= h < |lists| && e in lists[h] ==> e.core < coreNum
  {
  }
}
