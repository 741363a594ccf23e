/** The life of a pool's placement groups on the monitor: state bits, member lists, core
    index and versions under every handler that changes them. */
module PgState {
  import opened Counting

  // ---- State bits ----------------------------------------------------------------------------

  type Bits = bv64

  const CREATING: Bits := 1
  const ACTIVE: Bits := 2
  const UNDERSIZE: Bits := 4
  const DOWN: Bits := 8
  const REMAPPED: Bits := 16

  predicate Flag(f: Bits) {
    f == CREATING || f == ACTIVE || f == UNDERSIZE || f == DOWN || f == REMAPPED
  }

  function SetState(s: Bits, f: Bits): Bits {
    if f == CREATING then (s & !ACTIVE & !REMAPPED) | f
    else if f == ACTIVE then f
    else if f == UNDERSIZE then (s & !ACTIVE & !DOWN) | f
    else if f == DOWN then (s & !ACTIVE & !UNDERSIZE) | f
    else if f == REMAPPED then (s & !ACTIVE & !CREATING) | f
    else s
  }

  function UnsetState(s: Bits, f: Bits): Bits {
    if Flag(f) then s & !f else s
  }

  predicate InState(s: Bits, f: Bits) {
    Flag(f) && s & f != 0
  }

  /** The combinations the monitor has a name for. */
  predicate Documented(s: Bits) {
    || s == CREATING || s == ACTIVE || s == UNDERSIZE || s == DOWN || s == REMAPPED
    || s == CREATING | UNDERSIZE || s == CREATING | DOWN
    || s == UNDERSIZE | REMAPPED || s == DOWN | REMAPPED
  }

  // ---- OSD liveness --------------------------------------------------------------------------

  datatype Osd = Osd(isIn: bool, isUp: bool)

  type View = map<int, Osd>

  function UpNum(list: seq<int>, view: View): nat {
    if list == [] then 0
    else
      var id := list[|list| - 1];
      UpNum(list[..|list| - 1], view) + if id in view && view[id].isUp then 1 else 0
  }

  function OutNum(list: seq<int>, view: View): nat {
    if list == [] then 0
    else
      var id := list[|list| - 1];
      OutNum(list[..|list| - 1], view) + if id in view && !view[id].isIn then 1 else 0
  }

  function DownNum(list: seq<int>, view: View): nat {
    if list == [] then 0
    else
      var id := list[|list| - 1];
      DownNum(list[..|list| - 1], view) + if id in view && !view[id].isUp then 1 else 0
  }

  /** What CheckPgState makes of a number of live members: nothing to report exactly when the
      group is full, down exactly when at most half is up. */
  function Health(up: nat, size: nat): (s: Bits)
    ensures s == DOWN <==> 2 * up <= size
    ensures s == UNDERSIZE <==> size < 2 * up && up < size
    ensures s == 0 <==> size < 2 * up && size <= up
    ensures s == 0 || s == UNDERSIZE || s == DOWN
  {
    if up > size / 2 && up < size then UNDERSIZE
    else if up <= size / 2 then DOWN
    else 0
  }

  method CheckPgState(list: seq<int>, view: View, size: nat) returns (s: Bits)
    ensures s == Health(UpNum(list, view), size)
  {
    var up := 0;
    for i := 0 to |list|
      invariant up == UpNum(list[..i], view)
    {
      assert list[..i + 1][..i] == list[..i];
      if list[i] in view && view[list[i]].isUp { up := up + 1; }
    }
    assert list[..|list|] == list;
    if up > size / 2 && up < size { return UNDERSIZE; }
    if up <= size / 2 { return DOWN; }
    return 0;
  }

  // ---- Comparing member lists ----------------------------------------------------------------

  predicate SameMembers(a: seq<int>, b: seq<int>) {
    |a| == |b| && forall i :: 0 <= i < |b| ==> b[i] in a
  }

  /** Compare_arry */
  method CompareArry(a: seq<int>, b: seq<int>) returns (r: bool)
    ensures r <==> SameMembers(a, b)
  {
    if |a| != |b| { return false; }
    var mp: map<int, int> := map[];
    for i := 0 to |a|
      invariant forall x :: x in mp <==> x in a[..i]
    {
      mp := mp[a[i] := 1];
      assert a[..i + 1] == a[..i] + [a[i]];
    }
    assert a[..|a|] == a;
    assert forall x :: x in mp <==> x in a;
    for i := 0 to |b|
      invariant forall k :: 0 <= k < i ==> b[k] in a
    {
      if b[i] !in mp { return false; }
    }
    return true;
  }

  /** A number above all of the list. */
  function Above(s: seq<int>): (r: int)
    ensures forall i :: 0 <= i < |s| ==> s[i] < r
  {
    if s == [] then 0
    else
      var r := Above(s[..|s| - 1]);
      if s[|s| - 1] < r then r else s[|s| - 1] + 1
  }

  /** The comparison with a list is equality up to order exactly when the list has no member
      twice. */
  lemma SameMembersIff(b: seq<int>)
    ensures (forall a :: SameMembers(a, b) <==> multiset(a) == multiset(b)) <==> Distinct(b)
  {
    if Distinct(b) {
      forall a
        ensures SameMembers(a, b) <==> multiset(a) == multiset(b)
      {
        DistinctCompared(a, b);
      }
    } else {
      var i, j :| 0 <= i < j < |b| && b[i] == b[j];
      var other := b[j := Above(b)];
      assert other[i] == b[j] && forall k :: 0 <= k < |b| && k != j ==> other[k] == b[k];
      assert SameMembers(other, b);
      assert Above(b) in multiset(other) && Above(b) !in multiset(b);
    }
  }

  lemma DistinctCompared(a: seq<int>, b: seq<int>)
    requires Distinct(b)
    ensures SameMembers(a, b) <==> multiset(a) == multiset(b)
  {
    if SameMembers(a, b) {
      Covers(a, b);
    } else if multiset(a) == multiset(b) {
      assert |multiset(a)| == |a| && |multiset(b)| == |b|;
      forall i | 0 <= i < |b|
        ensures b[i] in a
      {
        assert b[i] in multiset(b);
      }
    }
  }

  lemma {:induction false} Covers(a: seq<int>, b: seq<int>)
    requires Distinct(b) && |a| == |b| && forall i :: 0 <= i < |b| ==> b[i] in a
    ensures multiset(a) == multiset(b)
  {
    if b != [] {
      var k := |b| - 1;
      var j :| 0 <= j < |a| && a[j] == b[k];
      var a' := a[..j] + a[j + 1..];
      assert a == a[..j] + [a[j]] + a[j + 1..];
      assert b == b[..k] + [b[k]];
      forall i | 0 <= i < k
        ensures b[..k][i] in a'
      {
        assert b[i] in a && b[i] != a[j];
      }
      Covers(a', b[..k]);
    }
  }

  /** With a repeated member it is not, and not symmetric either. */
  lemma SameMembersNotEquality()
    ensures SameMembers([1, 2], [1, 1]) && multiset([1, 2]) != multiset([1, 1]) && !SameMembers([1, 1], [1, 2])
  {
  }

  // ---- One group under each handler ----------------------------------------------------------

  const MAX_CORE := 0xFFFF_FFFF

  datatype PgConfig = PgConfig(version: int, state: Bits, osdList: seq<int>, newOsdList: seq<int>,
                               coreIndex: int, newCoreIndex: int)

  /** A group after a handler looked at it, and whether the handler marks the pool changed. */
  datatype Touch = Touch(pg: PgConfig, touched: bool)

  /** A group as SimpleInitial writes it. */
  function CreatedPg(osdList: seq<int>, core: int, view: View, size: nat): PgConfig {
    var s := SetState(0, CREATING);
    var h := Health(UpNum(osdList, view), size);
    PgConfig(1, if h == UNDERSIZE || h == DOWN then SetState(s, h) else s, osdList, [], core, MAX_CORE)
  }

  /** ProcessOsdDown */
  function OsdDownPg(pg: PgConfig, osd: int, view: View, size: nat): Touch {
    if osd !in pg.osdList then Touch(pg, false)
    else if !InState(pg.state, UNDERSIZE) && !InState(pg.state, DOWN) then
      Touch(pg.(state := SetState(pg.state, UNDERSIZE), version := pg.version + 1), true)
    else if InState(pg.state, UNDERSIZE) && Health(UpNum(pg.osdList, view), size) == DOWN then
      Touch(pg.(state := SetState(pg.state, DOWN), version := pg.version + 1), true)
    else Touch(pg, false)
  }

  /** Members that are in, in order. */
  function StayingIn(list: seq<int>, view: View): seq<int> {
    if list == [] then []
    else
      var id := list[|list| - 1];
      StayingIn(list[..|list| - 1], view) + if id in view && view[id].isIn then [id] else []
  }

  predicate IsIn(id: int, view: View) {
    id in view && view[id].isIn
  }

  /** The members that stay are exactly those that are in, in their order: they stand in the
      list at the places at. */
  lemma {:induction false} StayingInExact(list: seq<int>, view: View) returns (at: seq<nat>)
    ensures |at| == |StayingIn(list, view)|
    ensures forall k :: 0 <= k < |at| ==> at[k] < |list| && StayingIn(list, view)[k] == list[at[k]]
    ensures forall k, l :: 0 <= k < l < |at| ==> at[k] < at[l]
    ensures forall i: nat :: i < |list| ==> (i in at <==> IsIn(list[i], view))
  {
    at := [];
    if list != [] {
      var n := |list| - 1;
      at := StayingInExact(list[..n], view);
      assert forall i: nat :: i < n ==> list[..n][i] == list[i];
      if IsIn(list[n], view) {
        at := at + [n];
      }
    }
  }

  /** redistributionPg, with the added OSDs given. */
  function RedistributedPg(pg: PgConfig, view: View, effective: int, added: seq<int>): Touch {
    var kept := StayingIn(pg.osdList, view);
    if effective - |kept| <= 0 || added == [] then Touch(pg, false)
    else
      Touch(pg.(version := pg.version + 1, state := SetState(pg.state, REMAPPED),
                newOsdList := kept + added, newCoreIndex := pg.coreIndex), true)
  }

  datatype Switch = InToOut | DownToUp | OtherSwitch

  function ShouldChange(list: seq<int>, size: nat, osd: int, view: View): bool {
    var down := DownNum(list, view);
    var out := OutNum(list, view);
    && down >= 1 && down * 2 < size && (down + 1) * 2 >= size
    && out >= 1
    && !(out == 1 && osd in list && osd in view && !view[osd].isIn && !view[osd].isUp)
  }

  predicate IsOut(id: int, view: View) {
    id in view && !view[id].isIn
  }

  ghost predicate OtherOut(list: seq<int>, osd: int, view: View) {
    exists i :: 0 <= i < |list| && list[i] != osd && IsOut(list[i], view)
  }

  lemma {:induction false} OtherOutStep(list: seq<int>, osd: int, view: View)
    requires list != []
    ensures var n := |list| - 1;
      OtherOut(list, osd, view) <==> OtherOut(list[..n], osd, view) || (list[n] != osd && IsOut(list[n], view))
  {
    var n := |list| - 1;
    if OtherOut(list[..n], osd, view) {
      var i :| 0 <= i < n && list[..n][i] != osd && IsOut(list[..n][i], view);
      assert list[i] == list[..n][i];
    }
    if i :| 0 <= i < n && list[i] != osd && IsOut(list[i], view) {
      assert list[..n][i] == list[i];
    }
  }

  lemma {:induction false} OutOthers(list: seq<int>, osd: int, view: View)
    requires Distinct(list)
    ensures var own := if osd in list && IsOut(osd, view) then 1 else 0;
      OutNum(list, view) >= own && (OtherOut(list, osd, view) <==> OutNum(list, view) > own)
  {
    if list != [] {
      var n := |list| - 1;
      OutOthers(list[..n], osd, view);
      OtherOutStep(list, osd, view);
      assert osd in list <==> osd in list[..n] || osd == list[n];
    }
  }

  lemma {:induction false} UpAndDown(list: seq<int>, view: View)
    requires forall i :: 0 <= i < |list| ==> list[i] in view
    ensures UpNum(list, view) + DownNum(list, view) == |list|
  {
    if list != [] {
      UpAndDown(list[..|list| - 1], view);
    }
  }

  /** An OSD that came up starts a remap exactly when it took the group from down to undersize
      and a member is out, other than the OSD itself while it is down. */
  lemma {:induction false} ShouldChangeIff(list: seq<int>, osd: int, view: View)
    requires Distinct(list) && forall i :: 0 <= i < |list| ==> list[i] in view
    ensures ShouldChange(list, |list|, osd, view) <==>
            && Health(UpNum(list, view), |list|) == UNDERSIZE && Health(UpNum(list, view) - 1, |list|) == DOWN
            && (OtherOut(list, osd, view) || (osd in list && IsOut(osd, view) && view[osd].isUp))
  {
    UpAndDown(list, view);
    OutOthers(list, osd, view);
  }

  /** The tail of CheckPgs for an OSD that came up. */
  function RecheckedPg(t: Touch, view: View, size: nat): Touch {
    var h := Health(UpNum(t.pg.osdList, view), size);
    if h == 0 then Touch(t.pg.(state := HealedState(t.pg.state)), true)
    else if !InState(t.pg.state, h) then Touch(t.pg.(state := SetState(t.pg.state, h)), true)
    else t
  }

  /** All members are up again. */
  function HealedState(s: Bits): Bits {
    var s := UnsetState(UnsetState(s, UNDERSIZE), DOWN);
    if !InState(s, CREATING) && !InState(s, REMAPPED) then SetState(s, ACTIVE) else s
  }

  /** The head of CheckPgs for a group that is not being remapped. */
  function ReassignedPg(pg: PgConfig, osd: int, sw: Switch, view: View, size: nat, effective: int, added: seq<int>): Touch {
    if InState(pg.state, CREATING) then
      if InState(pg.state, DOWN) && sw == InToOut then
        var t := RedistributedPg(pg, view, effective, added);
        if t.touched then
          Touch(t.pg.(state := SetState(UnsetState(t.pg.state, REMAPPED), CREATING)), true)
        else t
      else Touch(pg, false)
    else if !InState(pg.state, DOWN) then
      if sw == InToOut || sw == DownToUp then RedistributedPg(pg, view, effective, added) else Touch(pg, false)
    else
      if sw == DownToUp && ShouldChange(pg.osdList, size, osd, view) then RedistributedPg(pg, view, effective, added)
      else Touch(pg, false)
  }

  /** CheckPgs */
  function CheckedPg(pg: PgConfig, osd: int, sw: Switch, view: View, size: nat, effective: int, added: seq<int>): Touch {
    var concerned := osd in pg.osdList || (InState(pg.state, REMAPPED) && osd in pg.newOsdList);
    if !concerned then Touch(pg, false)
    else
      var t := if InState(pg.state, REMAPPED) then Touch(pg, false)
               else ReassignedPg(pg, osd, sw, view, size, effective, added);
      if sw == DownToUp then RecheckedPg(t, view, size) else t
  }

  /** The state a group takes from its live members once nothing is pending. */
  function Settled(s: Bits, h: Bits): Bits {
    if h == 0 then SetState(s, ACTIVE)
    else if h == UNDERSIZE then SetState(s, UNDERSIZE)
    else if h == DOWN then SetState(s, DOWN)
    else s
  }

  /** ProcessLeaderBeElected */
  function LeaderElectedPg(pg: PgConfig, osdList: seq<int>, view: View, size: nat): Touch {
    if InState(pg.state, CREATING) then
      Touch(pg.(version := pg.version + 1,
                state := if InState(pg.state, UNDERSIZE) || InState(pg.state, DOWN) then UnsetState(pg.state, CREATING)
                         else SetState(pg.state, ACTIVE)), true)
    else if InState(pg.state, REMAPPED) then
      if SameMembers(pg.osdList, osdList) then
        if OutNum(osdList, view) > 0 then Touch(pg.(version := pg.version + 1), true)
        else
          var s := UnsetState(pg.state, REMAPPED);
          Touch(pg.(version := pg.version + 1, newOsdList := [], newCoreIndex := MAX_CORE,
                    state := if !InState(s, UNDERSIZE) && !InState(s, DOWN) then SetState(s, ACTIVE) else s), true)
      else if SameMembers(pg.newOsdList, osdList) then
        Touch(pg.(version := pg.version + 1, osdList := pg.newOsdList, newOsdList := [],
                  coreIndex := pg.newCoreIndex, newCoreIndex := MAX_CORE,
                  state := Settled(UnsetState(pg.state, REMAPPED), Health(UpNum(pg.newOsdList, view), size))), true)
      else Touch(pg, false)
    else Touch(pg, false)
  }

  function ClearedState(s: Bits): Bits {
    UnsetState(UnsetState(UnsetState(UnsetState(UnsetState(s, CREATING), ACTIVE), UNDERSIZE), DOWN), REMAPPED)
  }

  /** ProcessPgMemberChangeFinish */
  function MemberChangedPg(pg: PgConfig, result: int, osdList: seq<int>, view: View, size: nat): Touch {
    if result != 0 then Touch(pg, false)
    else if InState(pg.state, REMAPPED) || !SameMembers(pg.osdList, osdList) || |pg.newOsdList| > 0 then
      Touch(PgConfig(pg.version + 1, Settled(ClearedState(pg.state), Health(UpNum(osdList, view), size)), osdList, [],
                     if pg.newCoreIndex != MAX_CORE then pg.newCoreIndex else pg.coreIndex, MAX_CORE), true)
    else Touch(pg, false)
  }

  /** What reblancePool does to a group it plans a new list for; groups being remapped or
      down are left alone. */
  function PlannedPg(pg: PgConfig, newList: seq<int>, size: nat): Touch {
    if newList == [] || InState(pg.state, REMAPPED) || InState(pg.state, DOWN) then Touch(pg, false)
    else
      var s := SetState(pg.state, REMAPPED);
      Touch(pg.(version := pg.version + 1, state := if |newList| == size then s & !UNDERSIZE else s,
                newOsdList := newList, newCoreIndex := pg.coreIndex), true)
  }

  // ---- The pool ------------------------------------------------------------------------------

  type PgId = string

  datatype Pool = Pool(version: int, pgs: map<PgId, PgConfig>, size: nat)

  datatype Event =
    | OsdDown(osd: int, view: View)
    | CheckPgs(osd: int, sw: Switch, view: View, effective: int, added: map<PgId, seq<int>>)
    | LeaderBeElected(pg: PgId, osdList: seq<int>, view: View)
    | PgMemberChangeFinish(pg: PgId, result: int, osdList: seq<int>, view: View)
    | Rebalance(plan: map<PgId, seq<int>>)

  function Lookup(m: map<PgId, seq<int>>, id: PgId): seq<int> {
    if id in m then m[id] else []
  }

  /** What an event does to one group. */
  function PgStep(ev: Event, size: nat, id: PgId, pg: PgConfig): Touch {
    match ev
    case OsdDown(osd, view) => OsdDownPg(pg, osd, view, size)
    case CheckPgs(osd, sw, view, effective, added) => CheckedPg(pg, osd, sw, view, size, effective, Lookup(added, id))
    case LeaderBeElected(target, osdList, view) =>
      if id == target then LeaderElectedPg(pg, osdList, view, size) else Touch(pg, false)
    case PgMemberChangeFinish(target, result, osdList, view) =>
      if id == target then MemberChangedPg(pg, result, osdList, view, size) else Touch(pg, false)
    case Rebalance(plan) => PlannedPg(pg, Lookup(plan, id), size)
  }

  ghost function StepOf(ev: Event, size: nat): (PgId, PgConfig) -> Touch {
    (id, pg) => PgStep(ev, size, id, pg)
  }

  /** Some group is touched. */
  ghost predicate Touches(pgs: map<PgId, PgConfig>, f: (PgId, PgConfig) -> Touch) {
    exists id :: id in pgs && f(id, pgs[id]).touched
  }

  /** Every group is visited once; the version rises when one was touched. */
  ghost function Sweep(pool: Pool, f: (PgId, PgConfig) -> Touch): Pool {
    Pool(if Touches(pool.pgs, f) then pool.version + 1 else pool.version,
         map id | id in pool.pgs :: f(id, pool.pgs[id]).pg,
         pool.size)
  }

  /** The pool after an event. */
  ghost function Next(pool: Pool, ev: Event): Pool {
    Sweep(pool, StepOf(ev, pool.size))
  }

  ghost function Run(pool: Pool, events: seq<Event>): Pool {
    if events == [] then pool else Next(Run(pool, events[..|events| - 1]), events[|events| - 1])
  }

  // ---- What every run keeps ------------------------------------------------------------------

  /** Documented bits; a remapped group has somewhere to go and keeps its core. */
  predicate Good(pg: PgConfig) {
    && Documented(pg.state)
    && (InState(pg.state, REMAPPED) ==> pg.newOsdList != [] && pg.newCoreIndex == pg.coreIndex)
    && (pg.newCoreIndex == pg.coreIndex || pg.newCoreIndex == MAX_CORE)
  }

  /** A handler's effect on a good group: it stays good, its core stays, and any change is
      reported. */
  predicate Keeps(pg: PgConfig, t: Touch) {
    Good(t.pg) && t.pg.coreIndex == pg.coreIndex && (t.touched || t.pg == pg)
  }

  lemma CreatedGood(osdList: seq<int>, core: int, view: View, size: nat)
    ensures Good(CreatedPg(osdList, core, view, size)) && InState(CreatedPg(osdList, core, view, size).state, CREATING)
  {
  }

  lemma OsdDownKeeps(pg: PgConfig, osd: int, view: View, size: nat)
    requires Good(pg)
    ensures Keeps(pg, OsdDownPg(pg, osd, view, size))
  {
  }

  lemma ReassignedKeeps(pg: PgConfig, osd: int, sw: Switch, view: View, size: nat, effective: int, added: seq<int>)
    requires Good(pg)
    ensures Keeps(pg, ReassignedPg(pg, osd, sw, view, size, effective, added))
  {
  }

  lemma HealthBits(s: Bits, h: Bits)
    requires Documented(s) && (h == UNDERSIZE || h == DOWN)
    ensures Documented(HealedState(s)) && Documented(SetState(s, h))
    ensures InState(HealedState(s), REMAPPED) == InState(SetState(s, h), REMAPPED) == InState(s, REMAPPED)
  {
  }

  lemma RecheckedKeeps(pg: PgConfig, t: Touch, view: View, size: nat)
    requires Keeps(pg, t)
    ensures Keeps(pg, RecheckedPg(t, view, size))
  {
    var h := Health(UpNum(t.pg.osdList, view), size);
    HealthBits(t.pg.state, if h == 0 then DOWN else h);
  }

  lemma {:induction false} CheckedKeeps(pg: PgConfig, osd: int, sw: Switch, view: View, size: nat, effective: int, added: seq<int>)
    requires Good(pg)
    ensures Keeps(pg, CheckedPg(pg, osd, sw, view, size, effective, added))
  {
    var t := if InState(pg.state, REMAPPED) then Touch(pg, false)
             else ReassignedPg(pg, osd, sw, view, size, effective, added);
    ReassignedKeeps(pg, osd, sw, view, size, effective, added);
    assert Keeps(pg, t);
    RecheckedKeeps(pg, t, view, size);
  }

  lemma LeaderElectedKeeps(pg: PgConfig, osdList: seq<int>, view: View, size: nat)
    requires Good(pg)
    ensures Keeps(pg, LeaderElectedPg(pg, osdList, view, size))
  {
  }

  lemma MemberChangedKeeps(pg: PgConfig, result: int, osdList: seq<int>, view: View, size: nat)
    requires Good(pg)
    ensures Keeps(pg, MemberChangedPg(pg, result, osdList, view, size))
  {
  }

  lemma PlannedKeeps(pg: PgConfig, newList: seq<int>, size: nat)
    requires Good(pg)
    ensures Keeps(pg, PlannedPg(pg, newList, size))
  {
  }

  lemma {:induction false} PgStepKeeps(ev: Event, size: nat, id: PgId, pg: PgConfig)
    requires Good(pg)
    ensures Keeps(pg, PgStep(ev, size, id, pg))
  {
    match ev
    case OsdDown(osd, view) => OsdDownKeeps(pg, osd, view, size);
    case CheckPgs(osd, sw, view, effective, added) =>
      CheckedKeeps(pg, osd, sw, view, size, effective, Lookup(added, id));
    case LeaderBeElected(target, osdList, view) => LeaderElectedKeeps(pg, osdList, view, size);
    case PgMemberChangeFinish(target, result, osdList, view) => MemberChangedKeeps(pg, result, osdList, view, size);
    case Rebalance(plan) => PlannedKeeps(pg, Lookup(plan, id), size);
  }

  /** The liveness bits say what the live members say. */
  predicate Reports(s: Bits, h: Bits) {
    (InState(s, UNDERSIZE) <==> h == UNDERSIZE) && (InState(s, DOWN) <==> h == DOWN)
  }

  lemma RecheckedReports(s: Bits, h: Bits)
    requires Documented(s) && (h == 0 || h == UNDERSIZE || h == DOWN)
    ensures Reports(if h == 0 then HealedState(s) else if !InState(s, h) then SetState(s, h) else s, h)
  {
  }

  /** After an OSD of the group came up the group reports exactly the health of its members,
      whatever else the check did. */
  lemma CheckedReports(pg: PgConfig, osd: int, view: View, size: nat, effective: int, added: seq<int>)
    requires Good(pg) && (osd in pg.osdList || (InState(pg.state, REMAPPED) && osd in pg.newOsdList))
    ensures var t := CheckedPg(pg, osd, DownToUp, view, size, effective, added);
            t.pg.osdList == pg.osdList && Reports(t.pg.state, Health(UpNum(pg.osdList, view), size))
  {
    ReassignedKeeps(pg, osd, DownToUp, view, size, effective, added);
    var t := if InState(pg.state, REMAPPED) then Touch(pg, false)
             else ReassignedPg(pg, osd, DownToUp, view, size, effective, added);
    RecheckedReports(t.pg.state, Health(UpNum(pg.osdList, view), size));
  }

  lemma SettledReports(s: Bits, h: Bits)
    requires (s == 0 || s == UNDERSIZE || s == DOWN) && (h == 0 || h == UNDERSIZE || h == DOWN)
    ensures Settled(s, h) == if h == 0 then ACTIVE else h
  {
  }

  /** A finished member change leaves the group with the reported members, nothing pending,
      and exactly one bit: active, undersize or down, as the members' health is. */
  lemma MemberChangedReports(pg: PgConfig, osdList: seq<int>, view: View, size: nat)
    requires Good(pg)
    ensures var t := MemberChangedPg(pg, 0, osdList, view, size);
            var h := Health(UpNum(osdList, view), size);
            t.touched ==> t.pg.osdList == osdList && t.pg.newOsdList == [] && t.pg.state == if h == 0 then ACTIVE else h
  {
    ClearedIsZero(pg.state);
    SettledReports(ClearedState(pg.state), Health(UpNum(osdList, view), size));
  }

  lemma ClearedIsZero(s: Bits)
    requires Documented(s)
    ensures ClearedState(s) == 0
  {
  }

  /** A leader elected by the new members of a remapped group makes them the members, and the
      group reports their health. */
  lemma ElectedReports(pg: PgConfig, osdList: seq<int>, view: View, size: nat)
    requires Good(pg) && InState(pg.state, REMAPPED) && !SameMembers(pg.osdList, osdList) && SameMembers(pg.newOsdList, osdList)
    ensures var t := LeaderElectedPg(pg, osdList, view, size);
            var h := Health(UpNum(pg.newOsdList, view), size);
            && t.touched && t.pg.osdList == pg.newOsdList && t.pg.newOsdList == []
            && t.pg.state == if h == 0 then ACTIVE else h
  {
    UnmappedBits(pg.state);
    SettledReports(UnsetState(pg.state, REMAPPED), Health(UpNum(pg.newOsdList, view), size));
  }

  lemma UnmappedBits(s: Bits)
    requires Documented(s) && InState(s, REMAPPED)
    ensures !InState(s, CREATING)
    ensures UnsetState(s, REMAPPED) == 0 || UnsetState(s, REMAPPED) == UNDERSIZE || UnsetState(s, REMAPPED) == DOWN
  {
  }

  /** An OSD going down marks each of its groups undersize or down: down exactly when it was,
      or when it was undersize and no majority is up. */
  lemma OsdDownReports(pg: PgConfig, osd: int, view: View, size: nat)
    requires Good(pg) && osd in pg.osdList
    ensures var s := OsdDownPg(pg, osd, view, size).pg.state;
            && (InState(s, UNDERSIZE) || InState(s, DOWN))
            && (InState(s, DOWN) <==>
                  InState(pg.state, DOWN) || (InState(pg.state, UNDERSIZE) && Health(UpNum(pg.osdList, view), size) == DOWN))
  {
  }

  ghost predicate AllGood(pool: Pool) {
    forall id :: id in pool.pgs ==> Good(pool.pgs[id])
  }

  /** From one state of a pool to a later one: the same groups on the same cores, and a
      version that rises with every change. */
  ghost predicate Later(p: Pool, q: Pool) {
    && q.size == p.size && q.pgs.Keys == p.pgs.Keys
    && (forall id :: id in p.pgs ==> q.pgs[id].coreIndex == p.pgs[id].coreIndex)
    && p.version <= q.version && (p.version == q.version ==> p.pgs == q.pgs)
  }

  lemma SweepLater(pool: Pool, f: (PgId, PgConfig) -> Touch)
    requires AllGood(pool)
    requires forall id :: id in pool.pgs ==> Keeps(pool.pgs[id], f(id, pool.pgs[id]))
    ensures AllGood(Sweep(pool, f)) && Later(pool, Sweep(pool, f))
  {
  }

  lemma {:induction false} NextLater(pool: Pool, ev: Event)
    requires AllGood(pool)
    ensures AllGood(Next(pool, ev)) && Later(pool, Next(pool, ev))
  {
    var f := StepOf(ev, pool.size);
    forall id | id in pool.pgs
      ensures Keeps(pool.pgs[id], f(id, pool.pgs[id]))
    {
      PgStepKeeps(ev, pool.size, id, pool.pgs[id]);
    }
    SweepLater(pool, f);
  }

  /** Over every run: the bits of every group are a documented combination, a remapped group
      has a new list and keeps its core, no core index ever changes, and two states of the
      run with the same pool version hold the same groups. */
  lemma {:induction false} RunKeepsGood(pool: Pool, events: seq<Event>)
    requires AllGood(pool)
    ensures AllGood(Run(pool, events)) && Later(pool, Run(pool, events))
  {
    if events != [] {
      var k := |events| - 1;
      RunKeepsGood(pool, events[..k]);
      NextLater(Run(pool, events[..k]), events[k]);
    }
  }

  lemma {:induction false} RunSplit(pool: Pool, events: seq<Event>, i: nat)
    requires i <= |events|
    ensures Run(pool, events) == Run(Run(pool, events[..i]), events[i..])
  {
    if i < |events| {
      var k := |events| - 1;
      RunSplit(pool, events[..k], i);
      assert events[..k][..i] == events[..i] && events[..k][i..] == events[i..][..k - i];
    } else {
      assert events[..i] == events;
    }
  }

  /** Within one run the version identifies the map. */
  lemma VersionIdentifiesMap(pool: Pool, events: seq<Event>, i: nat, j: nat)
    requires AllGood(pool) && i <= j <= |events|
    requires Run(pool, events[..i]).version == Run(pool, events[..j]).version
    ensures Run(pool, events[..i]).pgs == Run(pool, events[..j]).pgs
  {
    var mid := Run(pool, events[..i]);
    RunKeepsGood(pool, events[..i]);
    RunSplit(pool, events[..j], i);
    assert events[..j][..i] == events[..i];
    RunKeepsGood(mid, events[..j][i..]);
  }

  // ---- The kernel client ---------------------------------------------------------------------

  /** What the client holds of one pool: the version it was last given and the groups that
      came with it. Version 0 stands for nothing yet. */
  datatype Client = Client(osdEpoch: int, pgEpoch: int, pgs: map<PgId, PgConfig>)

  datatype Reply = StaleEpoch | Full(osdEpoch: int, pgEpoch: int, pgs: map<PgId, PgConfig>)

  /** The client takes a full reply unless it has no group of the pool; a stale reply is
      success and changes nothing. */
  function Receive(c: Client, r: Reply): Client {
    match r
    case StaleEpoch => c
    case Full(osdEpoch, pgEpoch, pgs) => if |pgs| == 0 then c else Client(osdEpoch, pgEpoch, pgs)
  }

  /** A refresh on its way: the request with the client's versions, the monitor past its check,
      the answer. Beside it stand the pool's version when the client asked and when the monitor
      answered. */
  datatype Exchange =
    | Idle
    | Asked(osdEpoch: int, pgEpoch: int, since: int)
    | Reading(since: int)
    | Answered(reply: Reply, since: int, at: int)

  datatype SystemStep = MonitorStep(ev: Event) | Ask | Check(osdVersion: int) | ReadMaps(osdVersion: int) | Deliver | Lose

  /** The pool, a client, and the groups the pool had at each version so far. */
  datatype System = System(pool: Pool, client: Client, exchange: Exchange, history: map<int, map<PgId, PgConfig>>)

  /** handleGetClusterMap compares versions first and reads the maps later; monitor events may
      come at any point. */
  ghost function SystemNext(s: System, step: SystemStep): System {
    match (step, s.exchange)
    case (MonitorStep(ev), _) =>
      var pool := Next(s.pool, ev);
      s.(pool := pool, history := s.history[pool.version := pool.pgs])
    case (Ask, Idle) => s.(exchange := Asked(s.client.osdEpoch, s.client.pgEpoch, s.pool.version))
    case (Check(osdVersion), Asked(osdEpoch, pgEpoch, since)) =>
      if osdEpoch == osdVersion && pgEpoch == s.pool.version
      then s.(exchange := Answered(StaleEpoch, since, s.pool.version))
      else s.(exchange := Reading(since))
    case (ReadMaps(osdVersion), Reading(since)) =>
      s.(exchange := Answered(Full(osdVersion, s.pool.version, s.pool.pgs), since, s.pool.version))
    case (Deliver, Answered(reply, _, _)) => s.(client := Receive(s.client, reply), exchange := Idle)
    case (Lose, _) => s.(exchange := Idle)
    case _ => s
  }

  ghost function SystemRun(s: System, steps: seq<SystemStep>): System {
    if steps == [] then s else SystemNext(SystemRun(s, steps[..|steps| - 1]), steps[|steps| - 1])
  }

  /** A client that holds nothing, and a pool. */
  function Unsynced(pool: Pool, osdEpoch: int): System {
    System(pool, Client(osdEpoch, 0, map[]), Idle, map[pool.version := pool.pgs])
  }

  ghost predicate HistoryOk(s: System) {
    && AllGood(s.pool) && s.pool.version >= 1
    && s.pool.version in s.history && s.history[s.pool.version] == s.pool.pgs
    && forall v :: v in s.history ==> 1 <= v <= s.pool.version
  }

  /** The groups are those the pool had at the version. */
  ghost predicate Recorded(s: System, version: int, pgs: map<PgId, PgConfig>) {
    version in s.history && s.history[version] == pgs
  }

  /** What a message on its way says is true. */
  ghost predicate ExchangeOk(s: System) {
    match s.exchange
    case Idle => true
    case Asked(_, pgEpoch, since) => pgEpoch == s.client.pgEpoch && since <= s.pool.version
    case Reading(since) => since <= s.pool.version
    case Answered(StaleEpoch, since, at) => at == s.client.pgEpoch && since <= at && at in s.history
    case Answered(Full(_, pgEpoch, pgs), since, at) => at == pgEpoch && since <= at && Recorded(s, at, pgs)
  }

  /** The client holds the groups of the version it has. */
  ghost predicate Synced(s: System) {
    HistoryOk(s) && ExchangeOk(s) && (s.client.pgEpoch == 0 || Recorded(s, s.client.pgEpoch, s.client.pgs))
  }

  /** What was recorded stays recorded. */
  ghost predicate Extends(s: System, s': System) {
    forall v :: v in s.history ==> Recorded(s', v, s.history[v])
  }

  lemma StepSynced(s: System, step: SystemStep)
    requires Synced(s)
    ensures Synced(SystemNext(s, step)) && Extends(s, SystemNext(s, step))
  {
    if step.MonitorStep? {
      NextLater(s.pool, step.ev);
    }
  }

  lemma {:induction false} RunSynced(s: System, steps: seq<SystemStep>)
    requires Synced(s)
    ensures Synced(SystemRun(s, steps))
  {
    if steps != [] {
      var k := |steps| - 1;
      RunSynced(s, steps[..k]);
      StepSynced(SystemRun(s, steps[..k]), steps[k]);
    }
  }

  lemma {:induction false} RunExtends(s: System, steps: seq<SystemStep>, i: nat)
    requires Synced(s) && i <= |steps|
    ensures Extends(SystemRun(s, steps[..i]), SystemRun(s, steps))
    decreases |steps|
  {
    if i < |steps| {
      var k := |steps| - 1;
      RunExtends(s, steps[..k], i);
      assert steps[..k][..i] == steps[..i];
      RunSynced(s, steps[..k]);
      StepSynced(SystemRun(s, steps[..k]), steps[k]);
      ExtendsOn(SystemRun(s, steps[..i]), SystemRun(s, steps[..k]), SystemRun(s, steps));
    } else {
      assert steps[..i] == steps;
    }
  }

  lemma ExtendsOn(a: System, b: System, c: System)
    requires Extends(a, b) && Extends(b, c)
    ensures Extends(a, c)
  {
    forall v | v in a.history
      ensures Recorded(c, v, a.history[v])
    {
      assert Recorded(b, v, a.history[v]);
    }
  }

  /** Delivering an answer leaves the client with the groups recorded for the version it was
      given at, unless there were none. */
  lemma DeliverSyncs(s: System)
    requires Synced(s) && s.exchange.Answered?
    ensures s.exchange.since <= s.exchange.at <= s.pool.version && s.exchange.at in s.history
    ensures s.history[s.exchange.at].Keys != {} ==>
              && SystemNext(s, Deliver).client.pgs == s.history[s.exchange.at]
              && SystemNext(s, Deliver).client.pgEpoch == s.exchange.at
  {
  }

  /** A client that asks with both current versions is answered that it is up to date; any other
      is sent the maps as they are when the monitor reads them. */
  lemma AskedAndAnswered(s: System, osdVersion: int, later: Pool, osdLater: int)
    requires s.exchange.Asked?
    ensures var t := SystemNext(s, Check(osdVersion));
            if s.exchange.osdEpoch == osdVersion && s.exchange.pgEpoch == s.pool.version
            then t == s.(exchange := Answered(StaleEpoch, s.exchange.since, s.pool.version))
            else SystemNext(t.(pool := later), ReadMaps(osdLater)).exchange ==
                 Answered(Full(osdLater, later.version, later.pgs), s.exchange.since, later.version)
  {
  }

  /** From a client that holds nothing, through any run: when an answer is delivered, whether
      stale or full, the client holds exactly the groups the pool had when the monitor answered,
      unless the pool had none; that version is not older than when the client asked. */
  lemma {:induction false} StaleMeansCurrent(pool: Pool, osdEpoch: int, steps: seq<SystemStep>, i: nat)
    requires AllGood(pool) && pool.version >= 1 && i <= |steps|
    requires SystemRun(Unsynced(pool, osdEpoch), steps).exchange.Answered?
    ensures var s := SystemRun(Unsynced(pool, osdEpoch), steps);
            var earlier := SystemRun(Unsynced(pool, osdEpoch), steps[..i]).pool;
            && s.exchange.since <= s.exchange.at <= s.pool.version
            && (earlier.version == s.exchange.at && earlier.pgs.Keys != {} ==>
                  SystemNext(s, Deliver).client.pgs == earlier.pgs && SystemNext(s, Deliver).client.pgEpoch == earlier.version)
  {
    var start := Unsynced(pool, osdEpoch);
    RunSynced(start, steps);
    RunSynced(start, steps[..i]);
    RunExtends(start, steps, i);
    DeliverSyncs(SystemRun(start, steps));
    var earlier := SystemRun(start, steps[..i]);
    assert Recorded(SystemRun(start, steps), earlier.pool.version, earlier.pool.pgs);
  }

  // ---- The handlers --------------------------------------------------------------------------

  /** The order in which a map's keys happen to be visited. */
  ghost predicate Visits(order: seq<PgId>, pgs: map<PgId, PgConfig>) {
    Distinct(order) && forall id :: id in order <==> id in pgs
  }

  /** A sweep over the groups, part way. */
  ghost predicate Swept(start: map<PgId, PgConfig>, f: (PgId, PgConfig) -> Touch, order: seq<PgId>, i: nat,
                        pgs: map<PgId, PgConfig>, changed: bool)
    requires i <= |order| && Visits(order, start)
  {
    && pgs.Keys == start.Keys
    && (forall id :: id in pgs ==> pgs[id] == if id in order[..i] then f(id, start[id]).pg else start[id])
    && (changed <==> exists j :: 0 <= j < i && f(order[j], start[order[j]]).touched)
  }

  lemma SweptStep(start: map<PgId, PgConfig>, f: (PgId, PgConfig) -> Touch, order: seq<PgId>, i: nat,
                  pgs: map<PgId, PgConfig>, changed: bool)
    requires i < |order| && Visits(order, start) && Swept(start, f, order, i, pgs, changed)
    ensures order[i] in pgs && pgs[order[i]] == start[order[i]]
    ensures var t := f(order[i], pgs[order[i]]);
            Swept(start, f, order, i + 1, pgs[order[i] := t.pg], changed || t.touched)
  {
  }

  lemma SweptAll(pool: Pool, f: (PgId, PgConfig) -> Touch, order: seq<PgId>, pgs: map<PgId, PgConfig>, changed: bool)
    requires Visits(order, pool.pgs) && Swept(pool.pgs, f, order, |order|, pgs, changed)
    ensures Sweep(pool, f) == Pool(if changed then pool.version + 1 else pool.version, pgs, pool.size)
  {
  }

  /** The body of ProcessOsdDown's loop. */
  method DownOne(pg: PgConfig, osd: int, view: View, size: nat, ghost id: PgId) returns (t: Touch)
    ensures t == StepOf(OsdDown(osd, view), size)(id, pg)
  {
    t := Touch(pg, false);
    if osd in pg.osdList {
      if !InState(pg.state, UNDERSIZE) && !InState(pg.state, DOWN) {
        t := Touch(pg.(state := SetState(pg.state, UNDERSIZE), version := pg.version + 1), true);
      } else if InState(pg.state, UNDERSIZE) {
        var h := CheckPgState(pg.osdList, view, size);
        if h == DOWN {
          t := Touch(pg.(state := SetState(pg.state, DOWN), version := pg.version + 1), true);
        }
      }
    }
  }

  /** redistributionPg; the OSDs calculatePgOsds would add are given. */
  method RedistributionPg(pg: PgConfig, view: View, effective: int, added: seq<int>) returns (t: Touch)
    ensures t == RedistributedPg(pg, view, effective, added)
  {
    var newOsdList: seq<int> := [];
    for i := 0 to |pg.osdList|
      invariant newOsdList == StayingIn(pg.osdList[..i], view)
    {
      assert pg.osdList[..i + 1][..i] == pg.osdList[..i];
      if pg.osdList[i] in view && view[pg.osdList[i]].isIn { newOsdList := newOsdList + [pg.osdList[i]]; }
    }
    assert pg.osdList[..|pg.osdList|] == pg.osdList;
    if effective - |newOsdList| <= 0 || |added| == 0 { return Touch(pg, false); }
    return Touch(pg.(version := pg.version + 1, state := SetState(pg.state, REMAPPED),
                     newOsdList := newOsdList + added, newCoreIndex := pg.coreIndex), true);
  }

  /** shouldChange: one loop counts what three functions say. */
  method ShouldChangeNow(list: seq<int>, size: nat, osd: int, view: View) returns (r: bool)
    ensures r == ShouldChange(list, size, osd, view)
  {
    var down, out, osdIsDownOut := 0, 0, false;
    for i := 0 to |list|
      invariant down == DownNum(list[..i], view) && out == OutNum(list[..i], view)
      invariant osdIsDownOut == (osd in list[..i] && osd in view && !view[osd].isIn && !view[osd].isUp)
    {
      var id := list[i];
      assert list[..i + 1] == list[..i] + [id] && list[..i + 1][..i] == list[..i];
      if id in view {
        if !view[id].isUp { down := down + 1; }
        if !view[id].isIn {
          out := out + 1;
          if !view[id].isUp && osd == id { osdIsDownOut := true; }
        }
      }
    }
    assert list[..|list|] == list;
    if down >= 1 && down * 2 < size && (down + 1) * 2 >= size && out >= 1 {
      return !(out == 1 && osdIsDownOut);
    }
    return false;
  }

  /** The head of CheckPgs' loop body for a group that is not being remapped. */
  method ReassignOne(pg: PgConfig, osd: int, sw: Switch, view: View, size: nat, effective: int, added: seq<int>)
    returns (t: Touch)
    ensures t == ReassignedPg(pg, osd, sw, view, size, effective, added)
  {
    t := Touch(pg, false);
    if InState(pg.state, CREATING) {
      if InState(pg.state, DOWN) && sw == InToOut {
        t := RedistributionPg(pg, view, effective, added);
        if t.touched {
          t := Touch(t.pg.(state := SetState(UnsetState(t.pg.state, REMAPPED), CREATING)), true);
        }
      }
    } else if !InState(pg.state, DOWN) {
      if sw == InToOut || sw == DownToUp { t := RedistributionPg(pg, view, effective, added); }
    } else if sw == DownToUp {
      var change := ShouldChangeNow(pg.osdList, size, osd, view);
      if change { t := RedistributionPg(pg, view, effective, added); }
    }
  }

  /** The body of CheckPgs' loop. */
  method CheckOne(pg: PgConfig, osd: int, sw: Switch, view: View, size: nat, effective: int, added: seq<int>)
    returns (t: Touch)
    ensures t == CheckedPg(pg, osd, sw, view, size, effective, added)
  {
    t := Touch(pg, false);
    if InState(pg.state, REMAPPED) {
      if osd !in pg.osdList && osd !in pg.newOsdList { return; }
    } else {
      if osd !in pg.osdList { return; }
      t := ReassignOne(pg, osd, sw, view, size, effective, added);
    }
    if sw == DownToUp {
      var h := CheckPgState(t.pg.osdList, view, size);
      if h == 0 {
        t := Touch(t.pg.(state := HealedState(t.pg.state)), true);
      } else if !InState(t.pg.state, h) {
        t := Touch(t.pg.(state := SetState(t.pg.state, h)), true);
      }
    }
  }

  /** getPgOsdOutNum */
  method GetPgOsdOutNum(list: seq<int>, view: View) returns (out: nat)
    ensures out == OutNum(list, view)
  {
    out := 0;
    for i := 0 to |list|
      invariant out == OutNum(list[..i], view)
    {
      assert list[..i + 1][..i] == list[..i];
      if list[i] in view && !view[list[i]].isIn { out := out + 1; }
    }
    assert list[..|list|] == list;
  }

  /** ProcessLeaderBeElected for a group the pool has. */
  method LeaderOne(pg: PgConfig, osdList: seq<int>, view: View, size: nat) returns (t: Touch)
    ensures t == LeaderElectedPg(pg, osdList, view, size)
  {
    t := Touch(pg, false);
    if InState(pg.state, CREATING) {
      if InState(pg.state, UNDERSIZE) || InState(pg.state, DOWN) {
        t := Touch(pg.(state := UnsetState(pg.state, CREATING), version := pg.version + 1), true);
      } else {
        t := Touch(pg.(state := SetState(pg.state, ACTIVE), version := pg.version + 1), true);
      }
    } else if InState(pg.state, REMAPPED) {
      var here := CompareArry(pg.osdList, osdList);
      var there := CompareArry(pg.newOsdList, osdList);
      if here {
        var out := GetPgOsdOutNum(osdList, view);
        if out > 0 {
          t := Touch(pg.(version := pg.version + 1), true);
        } else {
          var s := UnsetState(pg.state, REMAPPED);
          if !InState(s, UNDERSIZE) && !InState(s, DOWN) { s := SetState(s, ACTIVE); }
          t := Touch(pg.(newOsdList := [], state := s, newCoreIndex := MAX_CORE, version := pg.version + 1), true);
        }
      } else if there {
        var h := CheckPgState(pg.newOsdList, view, size);
        var s := UnsetState(pg.state, REMAPPED);
        t := Touch(pg.(osdList := pg.newOsdList, newOsdList := [], coreIndex := pg.newCoreIndex,
                       newCoreIndex := MAX_CORE, state := Settled(s, h), version := pg.version + 1), true);
      }
    }
  }

  /** ProcessPgMemberChangeFinish for a group the pool has. */
  method FinishOne(pg: PgConfig, result: int, osdList: seq<int>, view: View, size: nat) returns (t: Touch)
    ensures t == MemberChangedPg(pg, result, osdList, view, size)
  {
    if result != 0 { return Touch(pg, false); }
    var same := CompareArry(pg.osdList, osdList);
    if !InState(pg.state, REMAPPED) && same && |pg.newOsdList| == 0 { return Touch(pg, false); }
    var h := CheckPgState(osdList, view, size);
    var core := if pg.newCoreIndex != MAX_CORE then pg.newCoreIndex else pg.coreIndex;
    return Touch(PgConfig(pg.version + 1, Settled(ClearedState(pg.state), h), osdList, [], core, MAX_CORE), true);
  }

  /** An event aimed at one group. */
  lemma SweepOne(pool: Pool, f: (PgId, PgConfig) -> Touch, target: PgId)
    requires forall id :: id in pool.pgs && id != target ==> f(id, pool.pgs[id]) == Touch(pool.pgs[id], false)
    ensures target !in pool.pgs ==> Sweep(pool, f) == pool
    ensures target in pool.pgs ==>
              var t := f(target, pool.pgs[target]);
              Sweep(pool, f) == Pool(if t.touched then pool.version + 1 else pool.version, pool.pgs[target := t.pg], pool.size)
  {
  }

  /** The shared pool record the handlers change. */
  class PoolConfig {
    const size: nat
    var version: int
    var pgs: map<PgId, PgConfig>

    function Value(): Pool
      reads this
    {
      Pool(version, pgs, size)
    }

    constructor (size: nat, pgs: map<PgId, PgConfig>)
      ensures Value() == Pool(1, pgs, size)
    {
      this.size, this.version, this.pgs := size, 1, pgs;
    }

    method ProcessOsdDown(osd: int, view: View, order: seq<PgId>)
      requires Visits(order, pgs)
      modifies this
      ensures Value() == Next(old(Value()), OsdDown(osd, view))
    {
      ghost var start := pgs;
      ghost var f := StepOf(OsdDown(osd, view), size);
      var isChange := false;
      for i := 0 to |order|
        invariant Swept(start, f, order, i, pgs, isChange)
        invariant version == old(version)
      {
        SweptStep(start, f, order, i, pgs, isChange);
        var t := DownOne(pgs[order[i]], osd, view, size, order[i]);
        pgs := pgs[order[i] := t.pg];
        isChange := isChange || t.touched;
      }
      SweptAll(old(Value()), f, order, pgs, isChange);
      if isChange { version := version + 1; }
    }

    method CheckPgs(osd: int, sw: Switch, view: View, effective: int, added: map<PgId, seq<int>>, order: seq<PgId>)
      requires Visits(order, pgs)
      modifies this
      ensures Value() == Next(old(Value()), Event.CheckPgs(osd, sw, view, effective, added))
    {
      ghost var start := pgs;
      ghost var f := StepOf(Event.CheckPgs(osd, sw, view, effective, added), size);
      var isChange := false;
      for i := 0 to |order|
        invariant Swept(start, f, order, i, pgs, isChange)
        invariant version == old(version)
      {
        SweptStep(start, f, order, i, pgs, isChange);
        var t := CheckOne(pgs[order[i]], osd, sw, view, size, effective, Lookup(added, order[i]));
        pgs := pgs[order[i] := t.pg];
        isChange := isChange || t.touched;
      }
      SweptAll(old(Value()), f, order, pgs, isChange);
      if isChange { version := version + 1; }
    }

    /** An unknown group is an error and changes nothing. */
    method ProcessLeaderBeElected(id: PgId, osdList: seq<int>, view: View)
      modifies this
      ensures Value() == Next(old(Value()), LeaderBeElected(id, osdList, view))
    {
      ghost var f := StepOf(LeaderBeElected(id, osdList, view), size);
      SweepOne(Value(), f, id);
      if id in pgs {
        var t := LeaderOne(pgs[id], osdList, view, size);
        if t.touched {
          version := version + 1;
          pgs := pgs[id := t.pg];
        } else {
          assert t.pg == pgs[id];
        }
      }
    }

    method ProcessPgMemberChangeFinish(id: PgId, result: int, osdList: seq<int>, view: View)
      modifies this
      ensures Value() == Next(old(Value()), PgMemberChangeFinish(id, result, osdList, view))
    {
      ghost var f := StepOf(PgMemberChangeFinish(id, result, osdList, view), size);
      SweepOne(Value(), f, id);
      if id in pgs {
        var t := FinishOne(pgs[id], result, osdList, view, size);
        if t.touched {
          pgs := pgs[id := t.pg];
          version := version + 1;
        } else {
          assert t.pg == pgs[id];
        }
      }
    }
  }
}
