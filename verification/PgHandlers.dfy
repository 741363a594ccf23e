/** What each event does to a group, field by field: the members it has, the members it is given,
    its version, its core and its state bits. */
module PgHandlers {
  import opened PgState

  /** The group of the pool after an event. */
  ghost function After(pool: Pool, ev: Event, id: PgId): PgConfig
    requires id in pool.pgs
  {
    Next(pool, ev).pgs[id]
  }

  // ---- Counting members ----------------------------------------------------------------------

  predicate IsUp(id: int, view: View) {
    id in view && view[id].isUp
  }

  predicate IsDown(id: int, view: View) {
    id in view && !view[id].isUp
  }

  /** The places of a list whose members pass the test. */
  ghost function Places(list: seq<int>, test: int -> bool): set<nat> {
    set i: nat | i < |list| && test(list[i]) :: i
  }

  lemma {:induction false} PlacesStep(list: seq<int>, test: int -> bool)
    requires list != []
    ensures var k := |list| - 1;
            |Places(list, test)| == |Places(list[..k], test)| + if test(list[k]) then 1 else 0
  {
    var k := |list| - 1;
    var before := Places(list[..k], test);
    assert Places(list, test) == before + if test(list[k]) then {k} else {};
  }

  /** The counts the monitor decides by are the numbers of members that are known and up, known
      and down, and known and out. */
  lemma {:induction false} CountsExact(list: seq<int>, view: View)
    ensures UpNum(list, view) == |Places(list, id => IsUp(id, view))|
    ensures DownNum(list, view) == |Places(list, id => IsDown(id, view))|
    ensures OutNum(list, view) == |Places(list, id => IsOut(id, view))|
    ensures |StayingIn(list, view)| == |Places(list, id => IsIn(id, view))|
  {
    if list != [] {
      CountsExact(list[..|list| - 1], view);
      PlacesStep(list, id => IsUp(id, view));
      PlacesStep(list, id => IsDown(id, view));
      PlacesStep(list, id => IsOut(id, view));
      PlacesStep(list, id => IsIn(id, view));
    }
  }

  // ---- A new group ---------------------------------------------------------------------------

  /** A new group is being created, with the bit of its members' health and nothing pending. */
  lemma CreatedExact(osdList: seq<int>, core: int, view: View, size: nat)
    ensures var pg := CreatedPg(osdList, core, view, size);
            && pg.osdList == osdList && pg.newOsdList == [] && pg.version == 1
            && pg.coreIndex == core && pg.newCoreIndex == MAX_CORE
            && pg.state == CREATING | Health(UpNum(osdList, view), size)
  {
  }

  // ---- An OSD goes down ----------------------------------------------------------------------

  /** Only the state and the version of the OSD's groups change: the group stops being active,
      stays in creation or remapping, and its version rises exactly when its state changes. */
  lemma OsdDownExact(pool: Pool, osd: int, view: View, id: PgId)
    requires id in pool.pgs && Good(pool.pgs[id])
    ensures var pg, now := pool.pgs[id], After(pool, OsdDown(osd, view), id);
            && now == pg.(state := now.state, version := now.version)
            && now.version == (if now.state == pg.state then pg.version else pg.version + 1)
            && (osd !in pg.osdList ==> now == pg)
            && (osd in pg.osdList ==> !InState(now.state, ACTIVE) && Pending(now.state) == Pending(pg.state))
  {
    var pg := pool.pgs[id];
    DownBits(pg.state);
  }

  /** Whether a group is in creation or remapping. */
  function Pending(s: Bits): (bool, bool) {
    (InState(s, CREATING), InState(s, REMAPPED))
  }

  lemma DownBits(s: Bits)
    requires Documented(s)
    ensures forall h :: h == UNDERSIZE || h == DOWN ==>
              !InState(SetState(s, h), ACTIVE) && Pending(SetState(s, h)) == Pending(s)
    ensures InState(s, UNDERSIZE) || InState(s, DOWN) ==> !InState(s, ACTIVE)
    ensures InState(s, UNDERSIZE) ==> SetState(s, DOWN) != s
    ensures !InState(s, UNDERSIZE) ==> SetState(s, UNDERSIZE) != s
  {
  }

  // ---- CheckPgs ------------------------------------------------------------------------------

  /** When a check gives a group new members: the OSD is one of its members, it is not being
      remapped, fewer members are in than wanted and some can be added, and the change of the OSD
      calls for it. */
  ghost predicate Starts(pg: PgConfig, osd: int, sw: Switch, view: View, size: nat, effective: int, added: seq<int>) {
    && osd in pg.osdList && !InState(pg.state, REMAPPED)
    && |Places(pg.osdList, id => IsIn(id, view))| < effective && added != []
    && (if InState(pg.state, CREATING) then InState(pg.state, DOWN) && sw == InToOut
        else if InState(pg.state, DOWN) then sw == DownToUp && ShouldChange(pg.osdList, size, osd, view)
        else sw == InToOut || sw == DownToUp)
  }

  /** The new list is the members that are in, in their order, and then the added OSDs. */
  ghost predicate KeepsThoseIn(list: seq<int>, now: seq<int>, view: View, added: seq<int>, at: seq<nat>) {
    && |at| <= |now| && now[|at|..] == added
    && (forall k :: 0 <= k < |at| ==> at[k] < |list| && now[k] == list[at[k]])
    && (forall k, l :: 0 <= k < l < |at| ==> at[k] < at[l])
    && (forall i: nat :: i < |list| ==> (i in at <==> IsIn(list[i], view)))
  }

  /** What the head of the check leaves. */
  ghost predicate Headed(pg: PgConfig, now: PgConfig, starts: bool, kept: seq<int>, added: seq<int>) {
    if starts
    then && now == pg.(state := now.state, version := pg.version + 1, newOsdList := kept + added, newCoreIndex := pg.coreIndex)
         && Pending(now.state) == (InState(pg.state, CREATING), !InState(pg.state, CREATING))
    else now == pg
  }

  lemma {:induction false} ReassignedExact(pg: PgConfig, osd: int, sw: Switch, view: View, size: nat, effective: int, added: seq<int>)
    requires Good(pg) && !InState(pg.state, REMAPPED) && osd in pg.osdList
    ensures Headed(pg, ReassignedPg(pg, osd, sw, view, size, effective, added).pg,
                   Starts(pg, osd, sw, view, size, effective, added), StayingIn(pg.osdList, view), added)
  {
    CountsExact(pg.osdList, view);
    RemapBits(pg.state);
  }

  lemma RemapBits(s: Bits)
    requires Documented(s) && !InState(s, REMAPPED)
    ensures InState(s, CREATING) ==> Pending(SetState(UnsetState(SetState(s, REMAPPED), REMAPPED), CREATING)) == (true, false)
    ensures Pending(SetState(s, REMAPPED)) == (false, true)
  {
  }

  lemma RecheckBits(s: Bits)
    requires Documented(s)
    ensures Pending(HealedState(s)) == Pending(s)
    ensures forall h :: h == UNDERSIZE || h == DOWN ==> Pending(SetState(s, h)) == Pending(s)
  {
  }

  lemma {:induction false} RecheckedExact(t: Touch, view: View, size: nat)
    requires Documented(t.pg.state)
    ensures OnlyLiveness(t.pg, RecheckedPg(t, view, size).pg)
  {
    RecheckBits(t.pg.state);
  }

  /** Only liveness bits differ. */
  ghost predicate OnlyLiveness(was: PgConfig, now: PgConfig) {
    now == was.(state := now.state) && Pending(now.state) == Pending(was.state)
  }

  /** The group after the head of the check. */
  function Head(pg: PgConfig, osd: int, sw: Switch, view: View, size: nat, effective: int, added: seq<int>): PgConfig {
    if InState(pg.state, REMAPPED) || osd !in pg.osdList then pg
    else ReassignedPg(pg, osd, sw, view, size, effective, added).pg
  }

  lemma {:induction false} HeadExact(pg: PgConfig, osd: int, sw: Switch, view: View, size: nat, effective: int, added: seq<int>)
    requires Good(pg)
    ensures Headed(pg, Head(pg, osd, sw, view, size, effective, added), Starts(pg, osd, sw, view, size, effective, added),
                   StayingIn(pg.osdList, view), added)
    ensures Documented(Head(pg, osd, sw, view, size, effective, added).state)
  {
    if !InState(pg.state, REMAPPED) && osd in pg.osdList {
      ReassignedKeeps(pg, osd, sw, view, size, effective, added);
      ReassignedExact(pg, osd, sw, view, size, effective, added);
    }
  }

  /** Beside that, the check changes only liveness bits, and those only when an OSD came up. */
  lemma {:induction false} CheckedExact(pg: PgConfig, osd: int, sw: Switch, view: View, size: nat, effective: int, added: seq<int>)
    requires Good(pg)
    ensures var mid, now := Head(pg, osd, sw, view, size, effective, added), CheckedPg(pg, osd, sw, view, size, effective, added).pg;
            OnlyLiveness(mid, now) && (sw != DownToUp ==> now == mid)
  {
    var t := if InState(pg.state, REMAPPED) then Touch(pg, false)
             else ReassignedPg(pg, osd, sw, view, size, effective, added);
    ReassignedKeeps(pg, osd, sw, view, size, effective, added);
    RecheckedExact(t, view, size);
  }

  /** A check starts a remap exactly then, with exactly that list; the group's members and core
      stay, and without one nothing but liveness bits can change. */
  lemma {:induction false} CheckRemapsExactly(pool: Pool, osd: int, sw: Switch, view: View, effective: int,
                                              added: map<PgId, seq<int>>, id: PgId)
    returns (at: seq<nat>)
    requires id in pool.pgs && Good(pool.pgs[id])
    ensures var pg, now := pool.pgs[id], After(pool, Event.CheckPgs(osd, sw, view, effective, added), id);
            && now.osdList == pg.osdList && now.coreIndex == pg.coreIndex
            && (if Starts(pg, osd, sw, view, pool.size, effective, Lookup(added, id))
                then && KeepsThoseIn(pg.osdList, now.newOsdList, view, Lookup(added, id), at)
                     && now.version == pg.version + 1 && now.newCoreIndex == pg.coreIndex
                     && Pending(now.state) == (InState(pg.state, CREATING), !InState(pg.state, CREATING))
                else && now == pg.(state := now.state) && Pending(now.state) == Pending(pg.state)
                     && (sw != DownToUp ==> now == pg))
  {
    var pg, add := pool.pgs[id], Lookup(added, id);
    HeadExact(pg, osd, sw, view, pool.size, effective, add);
    CheckedExact(pg, osd, sw, view, pool.size, effective, add);
    at := StayingInExact(pg.osdList, view);
    KeptThenAdded(pg.osdList, view, add, at);
  }

  lemma KeptThenAdded(list: seq<int>, view: View, added: seq<int>, at: seq<nat>)
    requires |at| == |StayingIn(list, view)|
    requires forall k :: 0 <= k < |at| ==> at[k] < |list| && StayingIn(list, view)[k] == list[at[k]]
    requires forall k, l :: 0 <= k < l < |at| ==> at[k] < at[l]
    requires forall i: nat :: i < |list| ==> (i in at <==> IsIn(list[i], view))
    ensures KeepsThoseIn(list, StayingIn(list, view) + added, view, added, at)
  {
  }

  // ---- A leader is elected -------------------------------------------------------------------

  /** What a group that is not pending reports: its liveness bit, or that it is active. */
  function Quiet(s: Bits): Bits {
    if InState(s, UNDERSIZE) then UNDERSIZE else if InState(s, DOWN) then DOWN else ACTIVE
  }

  /** An election ends creation, or a remap: by the old members, when none of them is out, for
      nothing, and by the new ones with them as members. Otherwise a remapping group of its old
      members only gets a new version, and any other group is left alone. */
  lemma ElectedExact(pool: Pool, target: PgId, osdList: seq<int>, view: View, id: PgId)
    requires id in pool.pgs && Good(pool.pgs[id])
    ensures var pg, now := pool.pgs[id], After(pool, LeaderBeElected(target, osdList, view), id);
            var s, next := pg.state, pg.version + 1;
            now ==
            if id != target then pg
            else if InState(s, CREATING) then pg.(version := next, state := Quiet(s))
            else if !InState(s, REMAPPED) then pg
            else if SameMembers(pg.osdList, osdList) then
              if Places(osdList, o => IsOut(o, view)) != {} then pg.(version := next)
              else pg.(version := next, state := Quiet(s), newOsdList := [], newCoreIndex := MAX_CORE)
            else if SameMembers(pg.newOsdList, osdList) then
              PgConfig(next, Quiet(Health(UpNum(pg.newOsdList, view), pool.size)), pg.newOsdList, [], pg.coreIndex, MAX_CORE)
            else pg
  {
    var pg := pool.pgs[id];
    CountsExact(osdList, view);
    ElectedBits(pg.state);
    if InState(pg.state, REMAPPED) && !SameMembers(pg.osdList, osdList) && SameMembers(pg.newOsdList, osdList) {
      ElectedReports(pg, osdList, view, pool.size);
    }
  }

  lemma ElectedBits(s: Bits)
    requires Documented(s)
    ensures InState(s, CREATING) ==>
              Quiet(s) == if InState(s, UNDERSIZE) || InState(s, DOWN) then UnsetState(s, CREATING) else SetState(s, ACTIVE)
    ensures InState(s, REMAPPED) ==>
              var u := UnsetState(s, REMAPPED);
              Quiet(s) == if !InState(u, UNDERSIZE) && !InState(u, DOWN) then SetState(u, ACTIVE) else u
    ensures Quiet(0) == ACTIVE && Quiet(UNDERSIZE) == UNDERSIZE && Quiet(DOWN) == DOWN
  {
  }

  // ---- A member change finishes --------------------------------------------------------------

  /** A finished change takes effect exactly when it succeeded and the group was being remapped,
      has other members or has new ones planned; then it has the reported members and the bit of
      their health, and nothing is pending. */
  lemma MemberChangeExact(pool: Pool, target: PgId, result: int, osdList: seq<int>, view: View, id: PgId)
    requires id in pool.pgs && Good(pool.pgs[id])
    ensures var pg, now := pool.pgs[id], After(pool, PgMemberChangeFinish(target, result, osdList, view), id);
            now ==
            if id == target && result == 0 && (InState(pg.state, REMAPPED) || !SameMembers(pg.osdList, osdList) || pg.newOsdList != [])
            then PgConfig(pg.version + 1, Quiet(Health(UpNum(osdList, view), pool.size)), osdList, [], pg.coreIndex, MAX_CORE)
            else pg
  {
    var pg := pool.pgs[id];
    MemberChangedReports(pg, osdList, view, pool.size);
    ElectedBits(pg.state);
  }

  // ---- Rebalancing ---------------------------------------------------------------------------

  /** A planned list is taken exactly by a group that is neither being remapped nor down: it is
      then being remapped to that list on its core, no longer active or in creation, and undersize
      only if it was and the list is not of the pool's size. */
  lemma PlannedExact(pg: PgConfig, newList: seq<int>, size: nat)
    requires Good(pg)
    ensures var t := PlannedPg(pg, newList, size);
            if newList != [] && !InState(pg.state, REMAPPED) && !InState(pg.state, DOWN)
            then && t.touched && t.pg.version == pg.version + 1 && t.pg.osdList == pg.osdList && t.pg.newOsdList == newList
                 && t.pg.coreIndex == pg.coreIndex == t.pg.newCoreIndex
                 && t.pg.state == if InState(pg.state, UNDERSIZE) && |newList| != size then UNDERSIZE | REMAPPED else REMAPPED
            else t == Touch(pg, false)
  {
  }
}
