# fastblock: a verified model of placement, membership, the block engine and the cluster map

fastblock is a distributed block store. A monitor (Go) places the placement groups (PGs) of
every pool on failure domains, tracks their state and hands out cluster maps. A kernel client
(C) and a user-space client (C++) cut block requests into objects, route every object to a PG
and talk to the OSDs. This project models the parts where that is hard to get right and proves
what they promise, for all inputs and over all runs. `dafny verify dfyconfig.toml` checks it.

| file | what it models |
|---|---|
| `Counting.dfy` | occurrences, distinctness, sums, the pigeonhole principle |
| `Placement.dfy` | choosing failure domains for every group and evening out the load |
| `CoreLists.dfy` | choosing an OSD per domain and one core per group |
| `Initial.dfy` | creating a pool's groups from end to end |
| `Rebalance.dfy` | the rebalance plan and its shared bookkeeping maps |
| `PgState.dfy` | group states, member lists, versions; what a client's cached version means |
| `PgHandlers.dfy` | what each event does to a group, field by field |
| `ObjectNames.dfy`, `ObjectHash.dfy` | object names and the hash that picks a group, in both clients |
| `ObjectMath.dfy`, `Split.dfy` | which object holds a byte; cutting a byte range into object extents (kernel client) |
| `FlatImage.dfy`, `ObjectIo.dfy` | the object store seen as one flat byte array |
| `UserClient.dfy` | the user-space client's split, countdown, reassembly and routing |
| `Dispatch.dfy` | round-robin dispatch of a request's objects and their census |
| `Mux.dfy` | many requests on one OSD connection |
| `Window.dfy` | the adaptive dispatch window |
| `Flush.dfy` | the flush barrier |
| `Wire.dfy`, `ClusterCodec.dfy` | little-endian records; the cluster map message |
| `Arrival.dfy` | what the client holds of an OSD or group that was sent, field by field |
| `Lookup.dfy` | binary search in the decoded tables |
| `LeaderCache.dfy` | cached group leaders across map refreshes |

## Main results

- **Flat image.** For every sequence of reads, writes, discards and write-zeroes, running them
  through objects gives the same bytes and the same read results as one zero-initialised flat
  array (`FlatImage.StoreRefinesFlat`), in whatever order the pieces of a request run. A read asks
  its objects: a missing one and the tail of a short reply read as zeros, and no reply is refused.
  `ObjectIo.RunRequest` drives a request through the object I/O on its scattered memory to the
  same end.
- **Placement.** For every choice of the random numbers, every group gets distinct domains, the
  load array is the true count and adds up, every domain leads the floor or the ceiling of its
  share, and every change after the first choice is a move of the balancing loop, which ends even,
  after one move per group, or when no group first listed for the busiest domain can move
  (`Placement.PlaceGroups`). Along every run of balancing each step to the idlest domain lowers the
  sum of squared loads, because an uneven load forces a gap of two, and no step raises it by more
  than 2 (`Placement.TraceProgress`). `Initial.SimpleInitial` carries this through to OSDs, cores
  and the groups' first state: each group serves from a core where some member has the fewest
  earlier groups of all its domains, and each member has the fewest on that core in its domain.
- **Rebalance.** Through every addition and swap the bookkeeping maps agree with the plan; each
  group is replanned at most once and keeps distinct domains. The first loop only adds, each
  time a least used OSD of the idlest domain the group is not in, until every group it looks at has
  all members it wants or at least three; every round of the second moves one group off the busiest
  domain, under an uneven load, to a least used OSD of the idlest domain it is not in; the run ends
  at rest, unless every group was replanned. Only with fewer than three domains can a member leave
  the tree (`Rebalance.Planner.RebalancePool`).
- **Group states and versions.** Over every run of every handler the state bits are one of the
  nine documented combinations, the core index never changes, and equal pool versions mean equal
  group maps (`PgState.RunKeepsGood`, `PgState.VersionIdentifiesMap`). What each event leaves of a
  group is stated field by field; a check starts a remap exactly under its conditions, to the
  members that are in, in their order, and the added ones (`PgHandlers.CheckRemapsExactly`). A
  client that is given an answer, "stale epoch" or full, holds the groups the pool had when the
  monitor answered, whatever happened meanwhile (`PgState.StaleMeansCurrent`).
- **Cluster map.** Decoding an encoded map gives back everything and uses the whole body
  (`ClusterCodec.MapRoundTrip`). From the monitor's encoder through the decoder to the binary
  searches, every OSD number and every pool and group number finds an entry that holds, field by
  field, what was sent under it, and nothing when nothing was (`Lookup.FetchAndFind`).
- **Both clients agree.** The user-space client cuts, names and routes every piece as the kernel
  client does (`UserClient.UserSplit`, `UserClient.RoutesLikeKernel`). Whatever the order and the
  outcome of its completions, a read hands the concatenation of what arrived to a callback that
  fires once, at the last of them (`UserClient.Read`).
- **Protocols.** `Mux.MuxSafe`, `Mux.ResponseDelivered`, `Dispatch.CensusAlways`, `Dispatch.Fair`, `Flush.FlushBarrier`,
  `LeaderCache.RunMatches` and the window results in `Window.dfy` hold in every state of every run.
  `Flush.Volume.HandleFlush` shows that the flush handler is such a run.

Some promises do not hold as they are written. For each of these there is a lemma or method at a
concrete input and the exact condition:

- Two images of a pool share an object exactly when one name extends the other by a decimal
  number (`ObjectNames.CollisionExample`, `ObjectNames.ImagesCollideIff`).
- A balancing move to the second or third choice can make the spread worse; it improves exactly
  when the target is at least two below the busiest domain (`Placement.MoveCanWorsen`,
  `Placement.MoveImprovesIff`).
- With fewer than three failure domains a rebalance can leave the tree: the third candidate is an
  empty name and the new member is OSD 0 (`Rebalance.TwoDomainsEscape`). An addition does so
  exactly when there are fewer domains than members wanted (`Rebalance.Planner.AddPgOsd`); the
  wanted number is capped by all domains of the cluster (`Rebalance.EffectivePgSize`), so this needs
  a pool with a root of its own that holds fewer. A round of transfers does so exactly when the
  first group that can move is in all domains (`Rebalance.Planner.TransferRound`,
  `Rebalance.Planner.FewPinned`).
- Comparing with a member list is equality up to order exactly when the list has no member twice
  (`PgState.SameMembersNotEquality`, `PgState.SameMembersIff`).
- Completing a queued object or requeueing a finished one breaks the counters
  (`Dispatch.CompleteQueuedExample`, `Dispatch.CompleteKeepsCensusIff`,
  `Dispatch.RequeueDoneExample`, `Dispatch.RequeueKeepsCensusIff`).
- A window controller that is switched off leaves its base window exactly when the base is raised
  (`Window.RaisedWhileOff`, `Window.StaticModeIff`).

Other functions have limits that their callers stay within; the exact limit is stated:

- `ObjectNames.UserNameWholeIff`: the user-space client keeps 16 digits of an object number, more
  than any 64-bit address of 4 MiB objects needs.
- `UserClient.FiresOnceIff`: the 32-bit countdown serves up to 2^32 objects.
- `Split.EstimateExact`, `Split.BlockRequest.Split`: the kernel split fails exactly for a range that
  passes 2^64.
- `Window.BoundedIff`: the window's bounds need a maximum that is not below the minimum; the driver
  starts it with 1 and 128.
- `Lookup.EndpointsStrictIff`: the monitor sorts signed OSD numbers and the client searches unsigned
  ones, which agree when all have one sign.

## Assumptions

- The OSD keeps, per object, the bytes up to the furthest one written, with zeros where nothing
  was written; a read past the end is short and a read of a missing object is an error. The OSD
  itself is not part of this model.
- Random numbers are arbitrary: `rand.Perm` is any permutation, and the retry loop around
  `rand.Intn` ends with any unused domain. Iteration over a Go map is in any order, given as a
  parameter. Time is a parameter.
- Each handler of the monitor is one atomic step, because it holds the pool's lock. Register,
  receive, fail-all and unregister on a connection are atomic steps, and so are admission,
  completion and the steps of a flush.
- A client refreshes its map by one request at a time. Monitor events may come between its
  question, the monitor's comparison of versions, the reading of the maps and the answer's arrival.
- An OSD answers a read with at most the bytes asked for. The kernel client checks this; the
  user-space client relies on it.
- Sequence numbers, versions, time and event counters do not wrap around. 64-bit offsets, 32-bit
  lengths, the window's doubled base and the user client's 32-bit countdown are modelled with
  their wrap-around.

## Model

| member | source | states |
|---|---|---|
| `Placement.GetRandIndex` | monitor/osd/calculator.go:1521-1544 | every candidate is chosen the floor or the ceiling of its share, for every permutation |
| `Placement.FillRows` | monitor/osd/calculator.go:1289-1305 | every group has its leader first and distinct domains, whatever the random numbers |
| `Placement.Tally` | monitor/osd/calculator.go:1308-1318 | the load array is the true count per domain, and the list of a domain names exactly the groups on it |
| `Placement.SumLoads` | monitor/osd/calculator.go:1289-1318 | the loads add up to groups times size |
| `Placement.MaxIndex` | monitor/osd/calculator.go:1600-1610 | the first of the busiest domains, -1 exactly when no entry is above the sentinel |
| `Placement.Top3MinIndex` | monitor/osd/calculator.go:1578-1598 | the three idlest entries below the sentinel in order, -1 for each that is missing |
| `Placement.IdlestPresent` | monitor/osd/calculator.go:1578-1598 | with loads below the sentinel, -1 stands exactly for a domain that does not exist |
| `Placement.Find` | monitor/osd/calculator.go:1564-1575 | the first position from the given start, -1 exactly when absent |
| `Placement.TransferOne` | monitor/osd/calculator.go:1479-1509 | moves exactly when a candidate is not in the group, to the first such, and never touches slot 0 |
| `Placement.MoveKeeps` | monitor/osd/calculator.go:1479-1509 | a move keeps domains distinct, leaders in place and loads true |
| `Placement.MoveSquares` | monitor/osd/calculator.go:1479-1509 | what a move does to the sum of squared loads |
| `Placement.TriggerGap` | monitor/osd/calculator.go:1330-1337 | whenever balancing triggers, the busiest domain is at least two above the idlest |
| `Placement.MoveToIdlestImproves` | monitor/osd/calculator.go:1329-1356 | a step of balancing to the idlest domain strictly lowers the sum of squared loads |
| `Placement.MoveImprovesIff` | monitor/osd/calculator.go:1490-1506 | a step lowers the sum of squares exactly when its target is at least two below the busiest domain, and never raises it by more than 2 |
| `Placement.MoveCanWorsen` | monitor/osd/calculator.go:1490-1506 | five groups on three domains where the first step of balancing goes to the third choice and makes the spread worse |
| `Placement.TraceProgress` | monitor/osd/calculator.go:1328-1361 | along every run of balancing: true loads and a valid placement, every step to the idlest domain improves, none worsens by more than 2 |
| `Placement.NeedsThreeHosts` | monitor/osd/calculator.go:1328-1361 | with a trigger and a movable slot there are at least three domains, so the missing index is never used |
| `Placement.TryMove` | monitor/osd/calculator.go:1339-1355 | one round moves exactly when some group listed for the busiest domain can move, and to the first candidate it is not on |
| `Placement.Balance` | monitor/osd/calculator.go:1328-1361 | every change is a move off the busiest domain to the first possible of the three idlest under an uneven load; placement and loads stay true; the loop ends after one round per group, even, or when no group listed for the busiest domain at the start can move |
| `Placement.PlaceGroups` | monitor/osd/calculator.go:1254-1362 | distinct domains, true loads with the right sum, leaders within one of each other; the moves that led from the first placement to the last, and how they ended; too few domains is an error |
| `CoreLists.SearchMinCore` | monitor/osd/calculator.go:1214-1222 | the first entry on the core; in a sorted list the least loaded one |
| `CoreLists.SortOsdList` | monitor/osd/calculator.go:1224-1242 | the list is in order again and holds the same entries |
| `CoreLists.TakeEntry` | monitor/osd/calculator.go:1424-1438 | one entry counts one more group, nothing else changes, and the order is kept |
| `CoreLists.BuildList` | monitor/osd/calculator.go:1367-1392 | an idle entry for every core of every matching OSD and for nothing else |
| `CoreLists.IdlestFront` | monitor/osd/calculator.go:1407-1419 | the front chosen is the least loaded entry of all the group's domains |
| `CoreLists.ChooseMembers` | monitor/osd/calculator.go:1404-1439 | in each domain the least loaded entry of one common core is taken |
| `CoreLists.GroupKeepsBooks` | monitor/osd/calculator.go:1421-1439 | after a group every entry still counts exactly the groups placed on its OSD and core |
| `CoreLists.GroupLight` | monitor/osd/calculator.go:1407-1439 | some member has, on the group's core, the fewest earlier groups of all OSDs and cores in the group's domains, and each member the fewest on that core in its own domain |
| `CoreLists.DistinctMembers` | monitor/osd/calculator.go:1421-1439 | one OSD per domain means distinct OSDs |
| `CoreLists.AssignOsds` | monitor/osd/calculator.go:1364-1439 | every group has one OSD per domain on its one core, chosen as lightly as the groups before it allow; every list is sorted and counts exactly the groups placed |
| `Initial.CreateGroups` | monitor/osd/calculator.go:1364-1461 | the new groups are in their first state on distinct OSDs of distinct domains, each placed as lightly as the groups before it allow |
| `Initial.SimpleInitial` | monitor/osd/calculator.go:1254-1466 | the whole of pool creation: domains evened out, all groups housed as lightly as can be, leaders within one of each other, too few domains reported |
| `Rebalance.RemoveArrInt` | monitor/osd/calculator.go:425-436 | in place: what is kept is the array's entries without the value |
| `Rebalance.ChangePgDomain` | monitor/osd/calculator.go:438-446 | exactly one name is replaced, none when the source is absent |
| `Rebalance.GetMinPgOsd` | monitor/osd/calculator.go:448-464 | the OSD of the domain with the fewest groups; OSD 0 when the domain has none |
| `Rebalance.Top3MinValue` | monitor/osd/calculator.go:997-1018 | the three idlest domains, an empty name for each that is missing |
| `Rebalance.GetMaxValue` | monitor/osd/calculator.go:1020-1030 | the busiest domain, an empty name when nothing is placed |
| `Rebalance.PickKnownIff` | monitor/osd/calculator.go:478-498 | a member goes to a domain that does not exist exactly with fewer than three domains and a group in all of them |
| `Rebalance.PickOffered` | monitor/osd/calculator.go:997-1018 | the same for whatever top3MinValue offers; and with fewer than three domains something is always picked |
| `Rebalance.PickIdlest` | monitor/osd/calculator.go:537-563 | what is picked is the idlest domain the group is not in |
| `Rebalance.RankedBy` | monitor/osd/calculator.go:997-1018 | how the three candidates rank among all domains |
| `Rebalance.OutOnce` | monitor/osd/calculator.go:477-503 | once no name was picked, later rounds add nothing |
| `Rebalance.EffectivePgSize` | monitor/osd/calculator.go:1126-1131 | the wanted number or the number of domains, whichever is less; none at all exactly when the domains are fewer than half |
| `Rebalance.TwoDomainsEscape` | monitor/osd/calculator.go:537-563 | a pool of two domains and three groups that the first loop leaves alone and whose first move sends an active group to OSD 0 |
| `Rebalance.AddedConsistent` | monitor/osd/calculator.go:478-503 | all maps agree with the plan after an addition |
| `Rebalance.SwappedConsistent` | monitor/osd/calculator.go:537-567 | all maps agree with the plan after a swap |
| `Rebalance.BooksLoads` | monitor/osd/calculator.go:370-399 | the counters the planner keeps are the loads of its plan, counted afresh |
| `Rebalance.ShiftsKeep` | monitor/osd/calculator.go:649-684 | the second loop changes no group's number of members |
| `Rebalance.ReadTree` | monitor/osd/calculator.go:377-384 | every OSD is mapped to its domain and every counter is zero |
| `Rebalance.Planner.constructor` | monitor/osd/calculator.go:370-399 | the maps agree with the current member lists |
| `Rebalance.Planner.CountGroups` | monitor/osd/calculator.go:386-396 | counting the groups one member at a time keeps the maps true |
| `Rebalance.Planner.DomainsOf` | monitor/osd/calculator.go:386-396 | a group has at most one member per domain, and as many as there are domains exactly when it is in all of them |
| `Rebalance.Planner.AddMember` | monitor/osd/calculator.go:478-503 | an OSD of the domain that is in the fewest groups joins the group |
| `Rebalance.Planner.AddRound` | monitor/osd/calculator.go:477-503 | one round: a least used OSD of the idlest domain the group is not in, or OSD 0 exactly when it is in all of fewer than three domains |
| `Rebalance.Planner.AddMembers` | monitor/osd/calculator.go:477-503 | every member added is a least used OSD of the idlest domain the group was not in, by the loads at the call, until the list is full or the group is in all three candidates; it leaves the tree exactly with fewer than three domains and fewer than wanted |
| `Rebalance.Planner.AddPgOsd` | monitor/osd/calculator.go:466-516 | the group is replanned exactly when it grew, by those members, and the maps stay true; exactly when it leaves the tree |
| `Rebalance.Planner.MoveMember` | monitor/osd/calculator.go:524-567 | exactly the member in the source domain is replaced, by a least used OSD of the chosen domain |
| `Rebalance.Planner.MoveOut` | monitor/osd/calculator.go:524-567 | a transfer that picked no name: the member of the busiest domain leaves and OSD 0 comes |
| `Rebalance.Planner.TransferPG` | monitor/osd/calculator.go:518-576 | the member in the busiest domain is swapped exactly when a candidate is free, for a least used OSD of the idlest domain the group is not in; it leaves the tree exactly when the group is in all of fewer than three domains; otherwise nothing changes |
| `Rebalance.Planner.AddIfShort` | monitor/osd/calculator.go:626-642 | a group already replanned, down or full is left alone; any other gets enough members; exactly which groups leave the tree |
| `Rebalance.Planner.TransferFrom` | monitor/osd/calculator.go:660-679 | the first group of the busiest domain that can move does; when none does, none can |
| `Rebalance.Planner.FewPinned` | monitor/osd/calculator.go:409-423 | with fewer than three domains a group can move exactly when it is transferable |
| `Rebalance.Planner.TransferRound` | monitor/osd/calculator.go:649-684 | a move happens only off the busiest domain under an uneven load, of the first group that can; no move means even, nothing placed, or stuck; it leaves the tree exactly when that group is in all of fewer than three domains |
| `Rebalance.Planner.AddAll` | monitor/osd/calculator.go:626-642 | the plans the first loop passes through, each adding to one group members of the idlest domains it is not in; every group it looks at ends with all members it wants or at least three; it leaves the tree exactly with fewer than three domains, fewer than wanted, and a short group |
| `Rebalance.Planner.TransferAll` | monitor/osd/calculator.go:649-684 | every round moves one untouched group off the busiest domain, under an uneven load, to a least used OSD of the idlest domain it is not in; the loop ends at rest, unless every group was replanned |
| `Rebalance.Planner.RebalancePool` | monitor/osd/calculator.go:578-689 | for any number of domains: unless a member leaves the tree, maps consistent, each group untouched or replanned once into distinct known domains, change reported exactly; every plan passed through, each addition and move going to the idlest domain the group is not in; enough members, and at rest in the end unless every group was replanned; with three domains none leaves |
| `Rebalance.RunIsEvent` | monitor/osd/calculator.go:685-688 | a rebalance run is the pool's rebalance event, with the version raised exactly when a group changed |
| `PgState.Health` | monitor/osd/calculator.go:1184-1206 | down exactly when at most half is up, undersize exactly between, nothing exactly when full |
| `PgState.CheckPgState` | monitor/osd/calculator.go:1184-1206 | the health of the members that are known and up |
| `PgState.CompareArry` | monitor/osd/calculator.go:1164-1182 | same length and every element of the second in the first |
| `PgState.SameMembersIff` | monitor/osd/calculator.go:1164-1182 | equality up to order exactly for a list without repetition |
| `PgState.SameMembersNotEquality` | monitor/osd/calculator.go:1164-1182 | not equality, and not symmetric, with a repetition |
| `PgState.CreatedGood` | monitor/osd/calculator.go:1442-1449 | a new group is being created, in a documented state |
| `PgState.OsdDownKeeps` | monitor/osd/pool.go:323-340 | an OSD going down keeps the group good and reports any change |
| `PgState.RedistributionPg` | monitor/osd/calculator.go:908-958 | the handler's helper is the step that PgHandlers.CheckRemapsExactly describes |
| `PgState.StayingInExact` | monitor/osd/calculator.go:913-926 | the members kept are exactly those that are in, in their order |
| `PgState.ShouldChangeNow` | monitor/osd/calculator.go:327-368 | the counts that decide whether a member coming up starts a remap |
| `PgState.ShouldChangeIff` | monitor/osd/calculator.go:355-367 | a remap starts exactly when the OSD took the group from down to undersize and a member is out, other than the OSD itself while it is down |
| `PgState.OsdDownReports` | monitor/osd/pool.go:323-340 | the group is undersize or down, down exactly when it was or lost its majority while undersize |
| `PgState.CheckedReports` | monitor/osd/calculator.go:864-886 | after an OSD came up the group reports exactly its members' health, whatever else the check did |
| `PgState.ElectedReports` | monitor/osd/pool.go:488-504 | a leader of the new members makes them the members, with exactly the bit of their health |
| `PgState.MemberChangedReports` | monitor/osd/pool.go:567-612 | a finished change leaves the reported members, nothing pending, and exactly the bit of their health |
| `PgState.CheckedKeeps` | monitor/osd/calculator.go:792-885 | every branch of the check keeps the group good and reports any change |
| `PgState.LeaderElectedKeeps` | monitor/osd/pool.go:461-512 | an election keeps the group good and reports any change |
| `PgState.MemberChangedKeeps` | monitor/osd/pool.go:567-609 | finishing a member change keeps the group good and reports any change |
| `PgState.PlannedKeeps` | monitor/osd/calculator.go:504-515 | a planned list keeps the group good and reports any change |
| `PgHandlers.CountsExact` | monitor/osd/calculator.go:1184-1206 | the counts decided by are the numbers of members known and up, known and down, known and out, and in |
| `PgHandlers.CreatedExact` | monitor/osd/calculator.go:1442-1449 | a new group is in creation with exactly the bit of its members' health, nothing pending |
| `PgHandlers.OsdDownExact` | monitor/osd/pool.go:323-340 | only state and version of the OSD's groups change; creation and remapping stay, active ends, and the version rises exactly with the state |
| `PgHandlers.CheckRemapsExactly` | monitor/osd/calculator.go:786-888 | exactly when a check starts a remap; then the new list is the members that are in, in their order, and the added OSDs; otherwise only liveness bits change, and only when an OSD came up |
| `PgHandlers.ElectedExact` | monitor/osd/pool.go:461-512 | what an election leaves of a group in creation, being remapped, or neither |
| `PgHandlers.MemberChangeExact` | monitor/osd/pool.go:567-612 | exactly when a finished change takes effect, and what it leaves |
| `PgHandlers.PlannedExact` | monitor/osd/calculator.go:504-515 | exactly which groups take a planned list, and in what state that leaves them |
| `PgState.NextLater` | monitor/osd/pool.go:342-345 | one event: same groups, same cores, and the version rises with any change |
| `PgState.RunKeepsGood` | monitor/osd/pool.go:115-157 | over every run the bits are documented, a remapped group has a new list and its core, and no core changes |
| `PgState.VersionIdentifiesMap` | monitor/osd/pool.go:513-514 | two states of one run with equal versions hold equal groups |
| `PgState.RunSynced` | monitor/rawserver/server.go:151-187 | in every state the client holds the groups of the version it has, and every message on its way says what was true when it was sent |
| `PgState.AskedAndAnswered` | monitor/rawserver/server.go:159-177 | answered as up to date exactly when both versions are current, and otherwise with the maps as they are read |
| `PgState.StaleMeansCurrent` | kfastblock/src/transport.c:2010-2040 | an answer, stale or full, leaves the client with exactly the groups the pool had when the monitor answered, unless it had none, at a version not older than when it asked |
| `PgState.PoolConfig.ProcessOsdDown` | monitor/osd/pool.go:290-345 | the loop over the groups is the pool's OSD-down event |
| `PgState.PoolConfig.CheckPgs` | monitor/osd/calculator.go:786-888 | the loop over the groups is the pool's check event, which PgHandlers.CheckRemapsExactly and PgState.CheckedReports describe |
| `PgState.PoolConfig.ProcessLeaderBeElected` | monitor/osd/pool.go:451-516 | the handler is the pool's election event; an unknown group changes nothing |
| `PgState.PoolConfig.ProcessPgMemberChangeFinish` | monitor/osd/pool.go:547-616 | the handler is the pool's member-change event; an unknown group changes nothing |
| `ObjectNames.NameInjective` | kfastblock/src/request.c:1375-1385 | within one image different object numbers have different names |
| `ObjectNames.PoolSeparates` | kfastblock/src/request.c:1375-1385 | equal names belong to one pool |
| `ObjectNames.ImagesCollideIff` | kfastblock/src/request.c:1375-1385 | two images share an object exactly when one name extends the other by a number |
| `ObjectNames.CollisionExample` | kfastblock/src/request.c:1375-1385 | two concrete images with a common object name |
| `ObjectNames.DecimalReads` | kfastblock/src/request.c:1375-1385 | a numeral reads back as its number, without leading zeros |
| `ObjectNames.NameExample` | kfastblock/src/request.c:1375-1385 | a concrete name |
| `ObjectNames.KernelNameWhole` | kfastblock/src/request.c:1375-1385 | the name always fits the kernel's buffer |
| `ObjectNames.UserNameWholeIff` | src/client/libfblock.cc:352-358 | the user-space name is whole exactly below 10^16 |
| `ObjectHash.Hash` | kfastblock/src/request.c:45-111 | the loop and the fall-through switch compute the hash by blocks and tail |
| `ObjectHash.SameHash` | src/client/fb_client.cc:55-123 | the two hash loops agree when their byte operations do |
| `ObjectHash.OrIsPlus` | src/client/fb_client.cc:70-75 | joining bytes by or and by plus is the same |
| `ObjectHash.TwinOps` | src/client/fb_client.cc:24-75 | the byte operations of both clients agree |
| `ObjectHash.MixUndone` | kfastblock/src/request.c:45-111 | the mixing step can be undone, so no bit is lost |
| `ObjectHash.HashOfNothing` | kfastblock/src/request.c:45-111 | the hash of the empty name |
| `ObjectHash.HashOfName` | kfastblock/src/request.c:45-111 | the hash of a concrete name of one block and a tail |
| `ObjectHash.PgIsRemainder` | src/client/fb_client.cc:138-143 | the group is the remainder of the hash by the number of groups |
| `ObjectHash.SamePg` | src/client/fb_client.cc:138-143 | both clients send every object to the same group |
| `Split.PiecesPartition` | kfastblock/src/request.c:1387-1434 | pieces are non-empty, consecutive, each in one object, with running offsets, and cover the request exactly |
| `Split.ByteHome` | kfastblock/src/request.c:1404-1430 | every byte of the request is in exactly one piece, at its place in its object |
| `Split.EstimateExact` | kfastblock/src/request.c:136-155 | the pre-computed count is the number of objects touched, capped; 0 when the range passes 2^64 |
| `Split.CutIsPieces` | kfastblock/src/request.c:1404-1430 | cutting step by step gives those pieces |
| `Split.SplitLoop` | kfastblock/src/request.c:1404-1430 | the loop makes exactly the pre-computed number of extents |
| `Split.BlockRequest.constructor` | kfastblock/src/request.c:157-193 | a request before its state is allocated |
| `Split.BlockRequest.AllocState` | kfastblock/src/request.c:157-193 | too big exactly when more objects are touched than allowed; otherwise room for all of them |
| `Split.BlockRequest.Split` | kfastblock/src/request.c:1387-1434 | after allocation, too big exactly when the range passes 2^64; otherwise all extents, named and routed |
| `FlatImage.ApplyByte` | kfastblock/src/transport.c:723-743 | what one object operation does to every byte of the image, a whole-object discard being a delete and a partial one a write of zeros |
| `FlatImage.DiscardDeletes` | kfastblock/src/transport.c:723-743 | after a discard the object is gone exactly when it was whole; other objects stay as they are |
| `FlatImage.RequestRefines` | kfastblock/src/transport.c:723-743 | a whole request, its pieces in any order, is one update of the flat array |
| `FlatImage.ReadPieceExact` | kfastblock/src/transport.c:1681-1705 | the reply of an object, short or missing, is filled up to the flat array's bytes and never refused |
| `FlatImage.ReadRefines` | kfastblock/src/transport.c:1681-1705 | a read's objects asked in any order give the flat array's bytes, whatever the buffer held |
| `FlatImage.StoreRefinesFlat` | kfastblock/src/request.c:1387-1437 | every run of requests over objects is the same run over one flat array, bytes and answers |
| `FlatImage.OneRequestRefines` | kfastblock/src/request.c:1387-1437 | one request, image and objects' answers |
| `FlatImage.FreshIsZero` | kfastblock/src/transport.c:2353-2368 | an empty store is an image of zeros |
| `FlatImage.ExtentsNamed` | kfastblock/src/request.c:1375-1434 | the extents of the split carry the names under which the store keeps their objects |
| `ObjectIo.CopyFromRequest` | kfastblock/src/transport.c:2189-2234 | the segments' bytes at the offset, and whether there were enough |
| `ObjectIo.CopyToRequest` | kfastblock/src/transport.c:2189-2234 | the segments with the bytes laid over them, lengths unchanged, and whether there was room |
| `ObjectIo.RunObjectIo` | kfastblock/src/transport.c:2236-2368 | one object operation end to end, on the store and on the request's segments |
| `ObjectIo.RunRequest` | kfastblock/src/transport.c:2236-2368 | a whole request, its objects in any order: none fails, the image changes as the flat array does, and a read leaves the flat bytes in the segments; a discard or write-zeroes needs no memory |
| `UserClient.ObjNumExact` | src/client/libfblock.cc:169-175 | the object count is the number of objects touched, less 2^42 when it reaches that |
| `UserClient.FirstPosition` | src/client/libfblock.cc:337-350 | where the range starts and how much of it is in the first object |
| `UserClient.UserSplit` | src/client/libfblock.cc:197-213 | the loop makes exactly the kernel client's pieces |
| `UserClient.CountDown` | src/client/libfblock.cc:151-166 | after any completions: what is left, the outcome, and which callbacks fired |
| `UserClient.FiresOnceIff` | src/client/libfblock.cc:169-213 | for every range: the stored count makes the callback fire exactly once, at the completion of the last piece the loop cuts, exactly for up to 2^32 pieces |
| `UserClient.StoredCount` | src/client/libfblock.cc:169-190 | the count stored is that of the pieces, in 32 bits |
| `UserClient.PositionIsOffset` | src/client/libfblock.cc:269-293 | a reply is placed at its piece's offset |
| `UserClient.ReadSource.constructor` | src/client/libfblock.cc:218-243 | a zeroed buffer and a full countdown |
| `UserClient.ReadSource.ReadDone` | src/client/libfblock.cc:269-293 | one reply is laid into the buffer and counted |
| `UserClient.ReassembledByte` | src/client/libfblock.cc:269-293 | laid over the buffer in any order, every byte comes from its own piece, zero where the reply is short |
| `UserClient.JoinedByte` | src/client/libfblock.cc:269-293 | in the concatenation every piece is at its request offset |
| `UserClient.InAnyOrder` | src/client/libfblock.cc:269-293 | replies in any order leave the concatenation of the pieces |
| `UserClient.Complete` | src/client/libfblock.cc:269-293 | one call of read_done, with its object index, lays the reply at its request offset |
| `UserClient.Read` | src/client/libfblock.cc:269-330 | a read end to end, completions in any order: the buffer is the concatenation of what arrived and the callback fires once, at the last, with the overall outcome |
| `UserClient.RoutesLikeKernel` | src/client/libfblock.cc:314-358 | names and groups are the kernel client's |
| `Dispatch.BatchExact` | kfastblock/src/request.c:457-500 | a batch is the smaller of the limit and the ready count, distinct and ready |
| `Dispatch.BatchNearest` | kfastblock/src/request.c:457-500 | a ready object left out is farther from the cursor than all that were picked |
| `Dispatch.PickProgress` | kfastblock/src/request.c:457-500 | a ready object is picked or comes nearer |
| `Dispatch.Fair` | kfastblock/src/request.c:457-500 | an object that stays ready is picked within its distance plus one batches |
| `Dispatch.PickKeepsCensus` | kfastblock/src/request.c:457-500 | picking keeps every counter the count of its state |
| `Dispatch.CompleteKeepsCensusIff` | kfastblock/src/request.c:545-572 | completion keeps the counters exactly for an object that is neither queued nor finished |
| `Dispatch.CompleteQueuedExample` | kfastblock/src/request.c:545-572 | a queued object that is completed stays counted as queued |
| `Dispatch.RequeueKeepsCensusIff` | kfastblock/src/request.c:848-876 | requeueing keeps the counters exactly for an unfinished object |
| `Dispatch.RequeueDoneExample` | kfastblock/src/request.c:848-876 | a finished object that is requeued stays counted as completed |
| `Dispatch.CancelKeepsCensus` | kfastblock/src/request.c:894-926 | cancelling keeps the counters |
| `Dispatch.StatesExact` | kfastblock/src/request.c:524-572 | the state of every object after every step |
| `Dispatch.RefillFills` | kfastblock/src/request.c:963-980 | a refill leaves the window full or nothing ready |
| `Dispatch.CensusAlways` | kfastblock/src/request.c:377-411 | over every run the counters are the counts and queued plus in flight stays within the window |
| `Dispatch.NoHiddenUnderflow` | kfastblock/src/request.c:524-572 | the guards against zero never hide an underflow |
| `Dispatch.RequestRuntime.constructor` | kfastblock/src/request.c:377-411 | all objects ready, all counters zero |
| `Dispatch.RequestRuntime.PickDispatchBatch` | kfastblock/src/request.c:457-500 | the scan returns that batch, queues it and moves the cursor, and changes nothing else |
| `Dispatch.RequestRuntime.MarkObjectInflight` | kfastblock/src/request.c:524-543 | a queued object goes in flight |
| `Dispatch.RequestRuntime.MarkObjectComplete` | kfastblock/src/request.c:545-572 | an object is done or failed |
| `Dispatch.RequestRuntime.RequeueObject` | kfastblock/src/request.c:848-876 | an object is ready again |
| `Dispatch.RequestRuntime.CancelUnqueued` | kfastblock/src/request.c:894-926 | all waiting objects are cancelled and counted |
| `Dispatch.RequestRuntime.DispatchCredits` | kfastblock/src/request.c:963-980 | what the window leaves |
| `Mux.Conserved` | kfastblock/src/transport.c:1076-1147 | receiving, failing and giving up only move waiters; joining adds one |
| `Mux.StepKeeps` | kfastblock/src/transport.c:1330-1366 | every step keeps the invariant |
| `Mux.MuxSafe` | kfastblock/src/transport.c:1017-1147 | in every state of every run: the count is the list's length, numbers distinct and below the next, nobody settled twice, responses match; with Mux.ResponseDelivered for what a response does |
| `Mux.ResponseDelivered` | kfastblock/src/transport.c:1125-1145 | in every state of every run a response settles exactly the waiter that drew its number, with that response; the others stay, in order |
| `Mux.GivesUpAlone` | kfastblock/src/transport.c:1350-1366 | a waiter that gives up leaves alone, and nobody is settled |
| `Mux.JoinsLast` | kfastblock/src/transport.c:1330-1348 | a waiter joins at the end, under the number it drew; a dead connection refuses it |
| `Mux.UnknownFailsAll` | kfastblock/src/transport.c:1129-1140 | an unknown number or number 0 fails everybody who waits |
| `Mux.CachedSocket.constructor` | kfastblock/src/transport.c:1006-1015 | nobody waits and no number was drawn |
| `Mux.CachedSocket.NextSeq` | kfastblock/src/connpool.c:279-289 | the draw step; numbers start at 1 |
| `Mux.CachedSocket.RegisterMuxWaiter` | kfastblock/src/transport.c:1330-1348 | the join step; refused on a dead connection |
| `Mux.CachedSocket.FindMuxWaiter` | kfastblock/src/transport.c:1017-1033 | the first waiter with the number, none for 0 |
| `Mux.CachedSocket.FailMuxWaiters` | kfastblock/src/transport.c:1076-1099 | the fail-all step, everybody completed with the error |
| `Mux.CachedSocket.ReceiveResponse` | kfastblock/src/transport.c:1110-1147 | the receive step, which Mux.ResponseDelivered and Mux.UnknownFailsAll describe, also when the last waiter has given up meanwhile |
| `Mux.CachedSocket.UnregisterMuxWaiter` | kfastblock/src/transport.c:1350-1366 | the give-up step, for a waiter still listed |
| `Window.Clamp` | kfastblock/src/scheduler.c:8-22 | never 0, within ordered bounds, the lower bound when they are out of order |
| `Window.RunBounded` | kfastblock/src/selfcheck.c:219-223 | the bounds hold over every run |
| `Window.BoundedIff` | kfastblock/src/scheduler.c:117-152 | they hold in all states exactly when the bounds given at the start are in order |
| `Window.RetriesHalve` | kfastblock/src/scheduler.c:332-359 | k retries take the window to its quotient by 2^k, not below the minimum |
| `Window.RecoveryExact` | kfastblock/src/scheduler.c:303-330 | back at base after exactly the sum of the sizes on the way, and not before |
| `Window.SampleMonotone` | kfastblock/src/scheduler.c:242-301 | more load never widens the sample, which stays between the minimum and the window |
| `Window.SampleExact` | kfastblock/src/scheduler.c:72-115 | what the sample is: each I/O above the limit costs one slot, a cooldown half of the rest, never below the minimum, and no wider than the request |
| `Window.RetryCools` | kfastblock/src/scheduler.c:60-70 | a retry under pressure starts a cooldown of the given length |
| `Window.InitExact` | kfastblock/src/scheduler.c:117-152 | a controller starts at its base with room for twice the base |
| `Window.SettingsExact` | kfastblock/src/scheduler.c:154-240 | what a new base, policy or switch does to the window |
| `Window.StaticModeIff` | kfastblock/src/selfcheck.c:240-248 | a controller that is off stays at its base exactly until the base is raised |
| `Window.RaisedWhileOff` | kfastblock/src/scheduler.c:154-172 | switched off at 4 and given a base of 8, the window stays at 4 |
| `Window.Controller.constructor` | kfastblock/src/scheduler.c:117-152 | the start state |
| `Window.Controller.SetBaseWindow` | kfastblock/src/scheduler.c:154-172 | the step, with the current window clamped to the new base |
| `Window.Controller.SetSchedulerPolicy` | kfastblock/src/scheduler.c:174-191 | the step; an unknown policy is adaptive |
| `Window.Controller.SetCooldownMs` | kfastblock/src/scheduler.c:207-221 | the step; 0 ends a cooldown |
| `Window.Controller.SetDynamicEnabled` | kfastblock/src/scheduler.c:223-240 | the step; off goes back to base |
| `Window.Controller.NoteSuccess` | kfastblock/src/scheduler.c:303-330 | the success step |
| `Window.Controller.NoteRetry` | kfastblock/src/scheduler.c:332-388 | the retry and dispatch-failure step |
| `Window.Controller.SampleWindow` | kfastblock/src/scheduler.c:242-301 | the sample |
| `Window.Controller.LimitForPressure` | kfastblock/src/scheduler.c:72-115 | the limit under load and cooldown |
| `Flush.StepKeeps` | kfastblock/src/volume.c:1796-1885 | every step keeps the in-flight count and the drained mark true |
| `Flush.AdmitCounts` | kfastblock/src/volume.c:4583-4591 | outside a flush an I/O is admitted and counted until it is put |
| `Flush.WhileRunning` | kfastblock/src/volume.c:1813-1837 | while a flush runs it is the only one and nothing is admitted |
| `Flush.FlushBarrier` | kfastblock/src/volume.c:1838-1885 | a flush that reports success has seen every earlier I/O complete |
| `Flush.Volume.constructor` | kfastblock/src/volume.c:1796-1836 | no I/O and no flush |
| `Flush.Volume.AdmitIo` | kfastblock/src/volume.c:4583-4591 | the admission step, refused during a flush |
| `Flush.Volume.PutIo` | kfastblock/src/volume.c:1804-1811 | the completion step, waking drainers exactly when all are done |
| `Flush.Volume.BeginFlush` | kfastblock/src/volume.c:1813-1827 | the begin step, refused while another runs |
| `Flush.Volume.DrainCheck` | kfastblock/src/volume.c:1867-1885 | one reading of the in-flight count |
| `Flush.Volume.EndFlush` | kfastblock/src/volume.c:1829-1837 | the end step |
| `Flush.Volume.DrainIo` | kfastblock/src/volume.c:1867-1885 | readings until the time is up; it succeeds exactly when nothing is in flight at the last of them |
| `Flush.Volume.HandleFlush` | kfastblock/src/volume.c:1838-1865 | the handler is a run of the steps, refused while another flush runs, and succeeds exactly when every I/O admitted before has completed |
| `ClusterCodec.MapRoundTrip` | monitor/rawproto/clustermap.go:50-100 | decoding an encoded map gives back epochs and the entries that Arrival.EndpointArrives and Arrival.RouteArrives describe, and uses the whole body; a pool without groups is missing |
| `ClusterCodec.OsdReads` | monitor/rawproto/clustermap.go:102-145 | an OSD entry reads back whatever follows it, as Arrival.EndpointArrives describes |
| `ClusterCodec.PgReads` | monitor/rawproto/clustermap.go:159-176 | a group entry reads back whatever follows it |
| `Arrival.EndpointArrives` | monitor/rawproto/clustermap.go:102-145 | the entry holds the number and address, in and up as bits 0 and 1, and for every shard and nothing else its core and the raw port, or the port when there is none |
| `Arrival.RouteArrives` | monitor/rawproto/clustermap.go:159-176 | the entry holds the group's numbers, version, state, core and members |
| `Arrival.ShardBytes` | monitor/rawproto/clustermap.go:35-39 | the bytes of a concrete shard record |
| `Arrival.OsdBytes` | monitor/rawproto/clustermap.go:28-33 | the bytes of a concrete OSD record |
| `ClusterCodec.SortStrict` | monitor/rawproto/clustermap.go:76-78 | sorting by a number that does not repeat gives a strict order |
| `ClusterCodec.SortOnly` | monitor/rawproto/clustermap.go:76-78 | with numbers that do not repeat, any sort leaves this one sequence |
| `ClusterCodec.WriteOsdEntry` | monitor/rawproto/clustermap.go:102-145 | appends the entry's encoding |
| `ClusterCodec.WritePgEntries` | monitor/rawproto/clustermap.go:147-179 | appends all groups, pool by pool, in order |
| `ClusterCodec.CountPgs` | monitor/rawproto/clustermap.go:59-64 | the count in the header is the number of groups written |
| `ClusterCodec.WriteClusterMap` | monitor/rawproto/clustermap.go:50-100 | the whole body |
| `ClusterCodec.CopyFromBody` | kfastblock/src/transport.c:1848-1877 | the next bytes, or an error that leaves the offset |
| `ClusterCodec.DecodeOsdEntries` | kfastblock/src/transport.c:1879-1946 | the loop reads exactly the OSD list, failing where the first entry fails |
| `ClusterCodec.DecodePgEntries` | kfastblock/src/transport.c:1948-2008 | the loop reads exactly the group list and counts the pool's groups |
| `ClusterCodec.DecodeClusterMap` | kfastblock/src/transport.c:1707-1805 | trailing bytes and a pool without groups are errors; otherwise the whole view |
| `Lookup.FindOsd` | kfastblock/src/meta.c:288-313 | on a table in strict order, binary search is linear search |
| `Lookup.FindPgRoute` | kfastblock/src/meta.c:332-361 | on a table in strict order, binary search is linear search |
| `Lookup.EndpointsStrictIff` | kfastblock/src/meta.c:288-313 | the decoded table is in strict unsigned order exactly when the numbers have one sign |
| `Lookup.OsdLookup` | kfastblock/src/meta.c:288-313 | the decoded table is in strict order and its entry under a number holds, field by field, the one OSD sent; none exactly when none was |
| `Lookup.RoutesStrict` | monitor/rawproto/clustermap.go:152-158 | the decoded routes are in strict order of pool and group |
| `Lookup.RouteLookup` | kfastblock/src/meta.c:332-361 | the decoded routes are in strict order and the entry under a pool and group number holds, field by field, the one group sent; none exactly when none was |
| `Lookup.FetchAndFind` | kfastblock/src/meta.c:288-361 | encoding, decoding and binary search together: every number finds an entry that holds, field by field, what was sent under it, -1 exactly when nothing was; refused exactly when the pool has no group |
| `LeaderCache.CopyLeaderCache` | kfastblock/src/meta.c:54-83 | on two tables in strict order the merge is the join by group |
| `LeaderCache.RunMatches` | kfastblock/src/meta.c:236-274 | over every run the cache answers as an ideal map from group to leader |
| `LeaderCache.StartMatches` | kfastblock/src/meta.c:236-274 | the empty cache stands for the empty map |
| `LeaderCache.RefreshDrops` | kfastblock/src/meta.c:236-274 | a refresh that changes either epoch leaves no leader and raises the leader epoch |
| `LeaderCache.LeaderEpochExact` | kfastblock/src/meta.c:462-481 | the leader epoch rises exactly when a refresh changes an epoch, when known leaders are dropped, or when it was still 0 |
| `LeaderCache.View.constructor` | kfastblock/src/meta.c:236-274 | an empty view |
| `LeaderCache.View.ReplaceClusterMap` | kfastblock/src/meta.c:236-274 | the refresh step |
| `LeaderCache.View.GetPgLeader` | kfastblock/src/meta.c:405-424 | the cached leader, or none |
| `LeaderCache.View.SetPgLeader` | kfastblock/src/meta.c:426-443 | the learn step; false when the group is not in the table |
| `LeaderCache.View.InvalidatePgLeader` | kfastblock/src/meta.c:445-460 | the forget step |
| `LeaderCache.View.InvalidateAllPgLeaders` | kfastblock/src/meta.c:462-481 | the forget-all step, raising the leader epoch when a leader was known |

## Left out

- calculatePgOsds and getMinValue in calculator.go: the OSDs added by redistributionPg are any list; its per-domain branch and minimum search do not support a claim about them.
- Request abort and cancel-on-error in transport.c: only requests whose objects complete are modelled.
- Closing a connection while waiters are listed, and whether a response ever arrives.
- pipeline.c: its entries are keyed per socket, so their numbers may repeat across sockets.
- Whether a group's state matches the OSDs that are up at every moment: an OSD stop message changes liveness without touching groups.
- The OSD map version as an identity: applying for an OSD number adds an OSD without raising it.
- Deleting a pool and creating another under its number: versions are compared within one pool's lifetime.
- Sockets, work queues, blk-mq, SPDK, RDMA, etcd, JSON, sysfs and the admin tools: input and output.
- The local store, QoS, election, configuration and logging, and the weights computed when the tree is flattened: the flattened tree is an input.
- The request's unique-group list and group hints: bookkeeping beside the extents.
- Event counters and last-sample fields of the window controller: reporting only.
- Rebalance.Planner.constructor: stated for groups whose members are in known distinct domains, as the rest of the rebalance.
- Rebalance.Planner.RebalancePool: follows a run up to the first member that leaves the tree; what the maps hold after that is not described. The 32-bit narrowing of the average is not modelled.
- Placement.Balance: stated for fewer than 2^31 - 1 groups, because the searches start from that sentinel.
- Placement.PlaceGroups: stated for fewer than 2^31 - 1 groups, for the same reason.
- Initial.SimpleInitial: a new pool; the branch that keeps the groups of an earlier run is not modelled.
- Split.BlockRequest.AllocState: running out of memory is not modelled.
- CoreLists.AssignOsds: stated for domains that each have an OSD with the pool's number of cores; otherwise the source reads from an empty list.
- FlatImage.StoreRefinesFlat: requests run one after the other; overlapping requests in flight together are not ordered by the driver.
- ClusterCodec.MapRoundTrip: stated for addresses below 256 bytes and ports, core numbers and counts that fit their fields; the encoder drops what does not fit. For numbers that repeat it describes a stable sort, one of the orders the encoder may leave (ClusterCodec.SortOnly covers those that do not).
- PgState.ShouldChangeIff: stated for a list as long as the pool's size, of known members without repetition; PgState.ShouldChangeNow has no such limit.
- Mux.MuxSafe: the 64-bit sequence number does not wrap.
- LeaderCache.View.ReplaceClusterMap: stated for tables in strict order, which the decoder gives for the numbers of Lookup.RoutesStrict.
- LeaderCache.View.GetPgLeader: stated for a table in strict order, for the same reason.
- LeaderCache.View.SetPgLeader: stated for a table in strict order, for the same reason.
- LeaderCache.View.InvalidatePgLeader: stated for a table in strict order, for the same reason.
