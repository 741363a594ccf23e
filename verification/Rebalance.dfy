/** reblancePool: planning single-member moves between failure domains while five shared
    maps are kept in step with the plan. */
module Rebalance {
  import opened Counting
  import opened PgState

  type Domain = string

  /** A failure domain and its OSDs. */
  datatype Node = Node(name: Domain, osds: seq<int>)

  const MAX_INT32 := 0x7FFF_FFFF

  // ---- Removing a value in place -------------------------------------------------------------

  function Exchanged(s: seq<nat>, i: nat, j: nat): seq<nat>
    requires i < |s| && j < |s|
  {
    s[i := s[j]][j := s[i]]
  }

  /** Part way: nothing before left is the value, everything behind right is. */
  ghost predicate Sifted(was: seq<nat>, now: seq<nat>, left: nat, right: int, val: nat) {
    && left <= right + 1 <= |now| == |was| && multiset(now) == multiset(was)
    && (forall k :: 0 <= k < left ==> now[k] != val) && (forall k :: right < k < |now| ==> now[k] == val)
  }

  lemma {:induction false} SiftedStep(was: seq<nat>, now: seq<nat>, left: nat, right: int, val: nat)
    requires Sifted(was, now, left, right, val) && left <= right && now[left] == val
    ensures Sifted(was, Exchanged(now, left, right), left, right - 1, val)
  {
  }

  /** removeArrInt: the entries that are kept are the array's entries without the value. */
  method RemoveArrInt(arr: array<nat>, val: nat) returns (left: nat)
    modifies arr
    ensures left <= arr.Length
    ensures multiset(arr[..left]) == multiset(old(arr[..]))[val := 0]
  {
    left := 0;
    var right := arr.Length - 1;
    while left <= right
      invariant Sifted(old(arr[..]), arr[..], left, right, val)
      decreases right - left
    {
      if arr[left] == val {
        ghost var now := arr[..];
        SiftedStep(old(arr[..]), now, left, right, val);
        arr[left], arr[right] := arr[right], arr[left];
        assert arr[..] == Exchanged(now, left, right);
        right := right - 1;
      } else {
        left := left + 1;
      }
    }
    Kept(arr[..], arr[..left], arr[left..], val);
  }

  lemma {:induction false} Kept(s: seq<nat>, a: seq<nat>, b: seq<nat>, val: nat)
    requires s == a + b && val !in a && forall k :: 0 <= k < |b| ==> b[k] == val
    ensures multiset(a) == multiset(s)[val := 0]
  {
  }

  // ---- The books -----------------------------------------------------------------------------

  /** domainPgNum, pgOnDomainMap, pgNumPerOsd and pgDomainMap; the fifth map, osdDomainMap,
      does not change. */
  datatype Books = Books(domainPgNum: map<Domain, int>, pgOnDomain: map<Domain, seq<nat>>,
                         pgNumPerOsd: map<int, int>, pgDomain: seq<seq<Domain>>)

  /** How many groups have the OSD in their planned list. */
  function Holding(plan: seq<seq<int>>, osd: int): nat {
    if plan == [] then 0
    else Holding(plan[..|plan| - 1], osd) + if osd in plan[|plan| - 1] then 1 else 0
  }

  lemma {:induction false} HoldingUpdate(plan: seq<seq<int>>, p: nat, list: seq<int>, osd: int)
    requires p < |plan|
    ensures Holding(plan[p := list], osd) ==
            Holding(plan, osd) - (if osd in plan[p] then 1 else 0) + (if osd in list then 1 else 0)
  {
    var k := |plan| - 1;
    if p < k {
      HoldingUpdate(plan[..k], p, list, osd);
      assert plan[p := list][..k] == plan[..k][p := list];
    } else {
      assert plan[p := list][..k] == plan[..k];
    }
  }

  lemma {:induction false} HoldingAtMost(plan: seq<seq<int>>, osd: int)
    ensures Holding(plan, osd) <= |plan|
  {
    if plan != [] { HoldingAtMost(plan[..|plan| - 1], osd); }
  }

  /** The domains of a list's OSDs, in order. */
  function Homes(list: seq<int>, home: map<int, Domain>): (r: seq<Domain>)
    requires forall i :: 0 <= i < |list| ==> list[i] in home
    ensures |r| == |list| && forall i :: 0 <= i < |list| ==> r[i] == home[list[i]]
  {
    seq(|list|, i requires 0 <= i < |list| => home[list[i]])
  }

  /** Every member is in a known domain, no two in the same. */
  ghost predicate Spread(list: seq<int>, home: map<int, Domain>) {
    && (forall i :: 0 <= i < |list| ==> list[i] in home)
    && Distinct(Homes(list, home))
  }

  /** The group's domain list names the domains of its planned members. */
  ghost predicate Named(domains: seq<Domain>, list: seq<int>, home: map<int, Domain>) {
    Spread(list, home) && multiset(domains) == multiset(Homes(list, home))
  }

  ghost predicate OnDomain(b: Books, d: Domain) {
    && d in b.domainPgNum && d in b.pgOnDomain && b.domainPgNum[d] == |b.pgOnDomain[d]|
    && forall p: nat :: multiset(b.pgOnDomain[d])[p] == if p < |b.pgDomain| && d in b.pgDomain[p] then 1 else 0
  }

  ghost predicate GroupTrue(pgDomain: seq<seq<Domain>>, plan: seq<seq<int>>, home: map<int, Domain>, p: nat) {
    p < |plan| && p < |pgDomain| && Named(pgDomain[p], plan[p], home)
  }

  /** Every group's domain list names its planned members. */
  ghost predicate GroupsTrue(pgDomain: seq<seq<Domain>>, plan: seq<seq<int>>, home: map<int, Domain>) {
    && |plan| == |pgDomain|
    && forall p: nat {:trigger GroupTrue(pgDomain, plan, home, p)} :: p < |plan| ==> GroupTrue(pgDomain, plan, home, p)
  }

  lemma {:induction false} GroupAt(pgDomain: seq<seq<Domain>>, plan: seq<seq<int>>, home: map<int, Domain>, p: nat)
    requires GroupsTrue(pgDomain, plan, home) && p < |plan|
    ensures Named(pgDomain[p], plan[p], home)
  {
    assert GroupTrue(pgDomain, plan, home, p);
  }

  ghost predicate DomainsTrue(b: Books, names: set<Domain>) {
    b.domainPgNum.Keys == b.pgOnDomain.Keys == names && forall d {:trigger OnDomain(b, d)} :: d in names ==> OnDomain(b, d)
  }

  ghost predicate OsdTrue(num: map<int, int>, plan: seq<seq<int>>, o: int) {
    o in num && num[o] == Holding(plan, o)
  }

  ghost predicate OsdsTrue(num: map<int, int>, plan: seq<seq<int>>, home: map<int, Domain>) {
    home.Keys <= num.Keys && forall o {:trigger OsdTrue(num, plan, o)} :: o in home ==> OsdTrue(num, plan, o)
  }

  /** The maps agree with the plan and so with each other. */
  ghost predicate Consistent(b: Books, plan: seq<seq<int>>, home: map<int, Domain>, names: set<Domain>) {
    && GroupsTrue(b.pgDomain, plan, home)
    && DomainsTrue(b, names)
    && OsdsTrue(b.pgNumPerOsd, plan, home)
  }

  lemma {:induction false} Together(b: Books, plan: seq<seq<int>>, home: map<int, Domain>, names: set<Domain>)
    requires GroupsTrue(b.pgDomain, plan, home) && DomainsTrue(b, names) && OsdsTrue(b.pgNumPerOsd, plan, home)
    ensures Consistent(b, plan, home, names)
  {
  }

  // ---- Adding a member -----------------------------------------------------------------------

  function Counted(m: map<Domain, int>, d: Domain, delta: int): map<Domain, int>
    requires d in m
  {
    m[d := m[d] + delta]
  }

  function WithGroup(m: map<Domain, seq<nat>>, d: Domain, p: nat): map<Domain, seq<nat>>
    requires d in m
  {
    m[d := m[d] + [p]]
  }

  function OneMore(num: map<int, int>, osd: int): map<int, int>
    requires osd in num
  {
    num[osd := num[osd] + 1]
  }

  function Added(b: Books, p: nat, d: Domain, osd: int): Books
    requires p < |b.pgDomain| && d in b.domainPgNum && d in b.pgOnDomain && osd in b.pgNumPerOsd
  {
    Books(Counted(b.domainPgNum, d, 1), WithGroup(b.pgOnDomain, d, p),
          OneMore(b.pgNumPerOsd, osd), b.pgDomain[p := b.pgDomain[p] + [d]])
  }

  lemma {:induction false} NamedIn(domains: seq<Domain>, list: seq<int>, home: map<int, Domain>, d: Domain)
    requires Named(domains, list, home)
    ensures d in domains <==> exists i :: 0 <= i < |list| && home[list[i]] == d
  {
    assert d in domains <==> d in multiset(domains);
    assert d in Homes(list, home) <==> d in multiset(Homes(list, home));
  }

  lemma {:induction false} NamedAppend(domains: seq<Domain>, list: seq<int>, home: map<int, Domain>, osd: int)
    requires Named(domains, list, home) && osd in home && home[osd] !in domains
    ensures Named(domains + [home[osd]], list + [osd], home) && osd !in list
  {
    NamedIn(domains, list, home, home[osd]);
    assert Homes(list + [osd], home) == Homes(list, home) + [home[osd]];
  }

  lemma {:induction false} OnDomainAdded(b: Books, e: Domain, p: nat, d: Domain, osd: int)
    requires OnDomain(b, e) && p < |b.pgDomain| && d in b.domainPgNum && d in b.pgOnDomain && osd in b.pgNumPerOsd
    requires d !in b.pgDomain[p]
    ensures OnDomain(Added(b, p, d, osd), e)
  {
  }

  lemma {:induction false} GroupsUpdate(pgDomain: seq<seq<Domain>>, plan: seq<seq<int>>, home: map<int, Domain>,
                     p: nat, domains: seq<Domain>, list: seq<int>)
    requires GroupsTrue(pgDomain, plan, home) && p < |plan| && Named(domains, list, home)
    ensures GroupsTrue(pgDomain[p := domains], plan[p := list], home)
  {
    forall q: nat {:trigger GroupTrue(pgDomain[p := domains], plan[p := list], home, q)} | q < |plan|
      ensures GroupTrue(pgDomain[p := domains], plan[p := list], home, q)
    {
      assert GroupTrue(pgDomain, plan, home, q);
    }
  }

  lemma {:induction false} DomainsAdded(b: Books, names: set<Domain>, p: nat, d: Domain, osd: int)
    requires DomainsTrue(b, names) && p < |b.pgDomain| && d in names && osd in b.pgNumPerOsd && d !in b.pgDomain[p]
    ensures DomainsTrue(Added(b, p, d, osd), names)
  {
    forall e | e in names
      ensures OnDomain(Added(b, p, d, osd), e)
    {
      OnDomainAdded(b, e, p, d, osd);
    }
  }

  lemma {:induction false} OsdsAdded(num: map<int, int>, plan: seq<seq<int>>, home: map<int, Domain>, p: nat, osd: int)
    requires OsdsTrue(num, plan, home) && p < |plan| && osd in home && osd !in plan[p]
    ensures OsdsTrue(OneMore(num, osd), plan[p := plan[p] + [osd]], home)
  {
    forall o | o in home
      ensures OsdTrue(OneMore(num, osd), plan[p := plan[p] + [osd]], o)
    {
      assert OsdTrue(num, plan, o) && OsdTrue(num, plan, osd);
      HoldingUpdate(plan, p, plan[p] + [osd], o);
    }
  }

  lemma {:induction false} GroupsAdded(pgDomain: seq<seq<Domain>>, plan: seq<seq<int>>, home: map<int, Domain>,
                                       p: nat, osd: int)
    requires GroupsTrue(pgDomain, plan, home) && p < |plan| && osd in home && home[osd] !in pgDomain[p]
    ensures GroupsTrue(pgDomain[p := pgDomain[p] + [home[osd]]], plan[p := plan[p] + [osd]], home)
    ensures osd !in plan[p]
  {
    GroupAt(pgDomain, plan, home, p);
    NamedAppend(pgDomain[p], plan[p], home, osd);
    GroupsUpdate(pgDomain, plan, home, p, pgDomain[p] + [home[osd]], plan[p] + [osd]);
  }

  lemma {:induction false} AddedConsistent(b: Books, plan: seq<seq<int>>, home: map<int, Domain>, names: set<Domain>,
                                           p: nat, osd: int)
    requires Consistent(b, plan, home, names) && p < |plan|
    requires osd in home && home[osd] in names && home[osd] !in b.pgDomain[p]
    ensures Consistent(Added(b, p, home[osd], osd), plan[p := plan[p] + [osd]], home, names)
  {
    GroupsAdded(b.pgDomain, plan, home, p, osd);
    DomainsAdded(b, names, p, home[osd], osd);
    OsdsAdded(b.pgNumPerOsd, plan, home, p, osd);
    Together(Added(b, p, home[osd], osd), plan[p := plan[p] + [osd]], home, names);
  }

  // ---- Swapping a member ---------------------------------------------------------------------

  /** changePgDomain: the first entry naming the source is renamed. */
  method ChangePgDomain(domains: seq<Domain>, src: Domain, dst: Domain) returns (r: seq<Domain>)
    ensures src !in domains ==> r == domains
    ensures src in domains ==> multiset(r) == multiset(domains) - multiset{src} + multiset{dst}
  {
    for i := 0 to |domains|
      invariant src !in domains[..i]
    {
      if src == domains[i] { return domains[i := dst]; }
      assert domains[..i + 1] == domains[..i] + [domains[i]];
    }
    assert domains[..|domains|] == domains;
    return domains;
  }

  /** The list without the members of a domain, in order. */
  function Without(list: seq<int>, home: map<int, Domain>, d: Domain): seq<int> {
    if list == [] then []
    else
      var o := list[|list| - 1];
      Without(list[..|list| - 1], home, d) + if o in home && home[o] == d then [] else [o]
  }

  lemma {:induction false} WithoutIn(list: seq<int>, home: map<int, Domain>, d: Domain, o: int)
    ensures o in Without(list, home, d) <==> o in list && !(o in home && home[o] == d)
  {
    if list != [] {
      var k := |list| - 1;
      WithoutIn(list[..k], home, d, o);
      assert list == list[..k] + [list[k]];
    }
  }

  /** Dropping the domain's one member takes its one name away. */
  lemma {:induction false} WithoutHomes(list: seq<int>, home: map<int, Domain>, d: Domain)
    requires forall i :: 0 <= i < |list| ==> list[i] in home
    ensures forall i :: 0 <= i < |Without(list, home, d)| ==> Without(list, home, d)[i] in home
    ensures multiset(Homes(Without(list, home, d), home)) == multiset(Homes(list, home))[d := 0]
  {
    if list == [] {
      assert Homes(list, home) == [];
    } else {
      var k := |list| - 1;
      var o := list[k];
      var w := Without(list[..k], home, d);
      var m := multiset(Homes(list[..k], home));
      WithoutHomes(list[..k], home, d);
      assert Homes(list, home) == Homes(list[..k], home) + [home[o]];
      DropName(m, home[o], d);
      if home[o] == d {
        assert Without(list, home, d) == w;
      } else {
        assert Homes(w + [o], home) == Homes(w, home) + [home[o]];
      }
    }
  }

  lemma {:induction false} DropName(m: multiset<Domain>, h: Domain, d: Domain)
    ensures (m + multiset{h})[d := 0] == if h == d then m[d := 0] else m[d := 0] + multiset{h}
  {
  }

  lemma {:induction false} DistinctOnce<T>(s: seq<T>)
    requires Distinct(s)
    ensures forall x :: multiset(s)[x] <= 1
  {
    if s != [] {
      var k := |s| - 1;
      DistinctOnce(s[..k]);
      assert s == s[..k] + [s[k]];
      assert s[k] !in s[..k];
      assert s[k] !in multiset(s[..k]);
    }
  }

  lemma {:induction false} OnceDistinct<T>(s: seq<T>)
    requires forall x :: multiset(s)[x] <= 1
    ensures Distinct(s)
  {
    if s != [] {
      var k := |s| - 1;
      assert s == s[..k] + [s[k]];
      var m := multiset(s[..k]);
      forall x
        ensures m[x] <= 1 && (x == s[k] ==> m[x] == 0)
      {
        assert multiset(s)[x] == m[x] + multiset{s[k]}[x];
      }
      OnceDistinct(s[..k]);
      assert s[k] !in m;
    }
  }

  /** The new list of a swapped group and its new domain list. */
  lemma {:induction false} NamedSwap(domains: seq<Domain>, list: seq<int>, home: map<int, Domain>, src: Domain, dst: int,
                                     domains': seq<Domain>)
    requires Named(domains, list, home) && src in domains && dst in home && home[dst] !in domains
    requires multiset(domains') == multiset(domains) - multiset{src} + multiset{home[dst]}
    ensures Named(domains', Without(list, home, src) + [dst], home)
  {
    var w := Without(list, home, src);
    WithoutHomes(list, home, src);
    DistinctOnce(Homes(list, home));
    assert home[dst] !in multiset(domains) && src in multiset(domains);
    assert Homes(w + [dst], home) == Homes(w, home) + [home[dst]];
    var m := multiset(Homes(list, home));
    assert m[src] == 1;
    assert m[src := 0] == m - multiset{src};
    assert multiset(Homes(w + [dst], home)) == m - multiset{src} + multiset{home[dst]};
    assert forall x :: multiset(Homes(w + [dst], home))[x] <= 1;
    OnceDistinct(Homes(w + [dst], home));
  }

  function OneLess(num: map<int, int>, osd: int): map<int, int>
    requires osd in num
  {
    num[osd := num[osd] - 1]
  }

  function Recounted(num: map<int, int>, srcOsd: int, dstOsd: int): map<int, int>
    requires srcOsd in num && dstOsd in num && srcOsd != dstOsd
  {
    num[srcOsd := num[srcOsd] - 1][dstOsd := num[dstOsd] + 1]
  }

  /** The books after group p gave up srcOsd in src for dstOsd in dst. */
  function Swapped(b: Books, p: nat, src: Domain, dst: Domain, srcOsd: int, dstOsd: int, onSrc: seq<nat>,
                   domains': seq<Domain>): Books
    requires p < |b.pgDomain| && src != dst && srcOsd != dstOsd
    requires {src, dst} <= b.domainPgNum.Keys && {src, dst} <= b.pgOnDomain.Keys && {srcOsd, dstOsd} <= b.pgNumPerOsd.Keys
  {
    Books(Counted(Counted(b.domainPgNum, src, -1), dst, 1),
          WithGroup(b.pgOnDomain[src := onSrc], dst, p),
          Recounted(b.pgNumPerOsd, srcOsd, dstOsd),
          b.pgDomain[p := domains'])
  }

  ghost predicate Renamed(domains: seq<Domain>, src: Domain, dst: Domain, domains': seq<Domain>) {
    && src in domains && dst !in domains
    && (forall e :: e in domains' <==> e == dst || (e in domains && e != src))
  }

  lemma {:induction false} OnDomainSwapped(b: Books, e: Domain, p: nat, src: Domain, dst: Domain, srcOsd: int, dstOsd: int,
                                           onSrc: seq<nat>, domains': seq<Domain>)
    requires OnDomain(b, e) && OnDomain(b, src) && OnDomain(b, dst)
    requires p < |b.pgDomain| && srcOsd != dstOsd && {srcOsd, dstOsd} <= b.pgNumPerOsd.Keys
    requires Renamed(b.pgDomain[p], src, dst, domains') && multiset(onSrc) == multiset(b.pgOnDomain[src])[p := 0]
    ensures OnDomain(Swapped(b, p, src, dst, srcOsd, dstOsd, onSrc, domains'), e)
  {
    var b' := Swapped(b, p, src, dst, srcOsd, dstOsd, onSrc, domains');
    var m := multiset(b.pgOnDomain[src]);
    assert m[p] == 1;
    assert |onSrc| == |multiset(onSrc)| == |m| - 1;
    assert multiset(b.pgOnDomain[dst] + [p]) == multiset(b.pgOnDomain[dst]) + multiset{p};
    forall q: nat
      ensures multiset(b'.pgOnDomain[e])[q] == if q < |b'.pgDomain| && e in b'.pgDomain[q] then 1 else 0
    {
      assert q != p && q < |b.pgDomain| ==> b'.pgDomain[q] == b.pgDomain[q];
    }
  }

  lemma {:induction false} DomainsSwapped(b: Books, names: set<Domain>, p: nat, src: Domain, dst: Domain, srcOsd: int,
                                          dstOsd: int, onSrc: seq<nat>, domains': seq<Domain>)
    requires DomainsTrue(b, names) && src in names && dst in names
    requires p < |b.pgDomain| && srcOsd != dstOsd && {srcOsd, dstOsd} <= b.pgNumPerOsd.Keys
    requires Renamed(b.pgDomain[p], src, dst, domains') && multiset(onSrc) == multiset(b.pgOnDomain[src])[p := 0]
    ensures DomainsTrue(Swapped(b, p, src, dst, srcOsd, dstOsd, onSrc, domains'), names)
  {
    var b' := Swapped(b, p, src, dst, srcOsd, dstOsd, onSrc, domains');
    forall e | e in names
      ensures OnDomain(b', e)
    {
      OnDomainSwapped(b, e, p, src, dst, srcOsd, dstOsd, onSrc, domains');
    }
    assert b'.domainPgNum.Keys == names && b'.pgOnDomain.Keys == names;
  }

  lemma {:induction false} OsdsSwapped(num: map<int, int>, plan: seq<seq<int>>, home: map<int, Domain>, p: nat,
                                       srcOsd: int, dstOsd: int)
    requires OsdsTrue(num, plan, home) && p < |plan| && Spread(plan[p], home)
    requires srcOsd in plan[p] && dstOsd in home && dstOsd !in plan[p]
    ensures OsdsTrue(Recounted(num, srcOsd, dstOsd),
                     plan[p := Without(plan[p], home, home[srcOsd]) + [dstOsd]], home)
  {
    var list := Without(plan[p], home, home[srcOsd]) + [dstOsd];
    forall o | o in home
      ensures OsdTrue(Recounted(num, srcOsd, dstOsd), plan[p := list], o)
    {
      assert OsdTrue(num, plan, o);
      HoldingUpdate(plan, p, list, o);
      WithoutIn(plan[p], home, home[srcOsd], o);
      assert o in plan[p] && home[o] == home[srcOsd] ==> o == srcOsd by {
        if o in plan[p] {
          var i :| 0 <= i < |plan[p]| && plan[p][i] == o;
          var j :| 0 <= j < |plan[p]| && plan[p][j] == srcOsd;
          assert Homes(plan[p], home)[i] == home[o] && Homes(plan[p], home)[j] == home[srcOsd];
        }
      }
    }
  }

  lemma {:induction false} RenamedBy(domains: seq<Domain>, list: seq<int>, home: map<int, Domain>, src: Domain, dst: Domain,
                                     domains': seq<Domain>)
    requires Named(domains, list, home) && src in domains && dst !in domains
    requires multiset(domains') == multiset(domains) - multiset{src} + multiset{dst}
    ensures Renamed(domains, src, dst, domains')
  {
    DistinctOnce(Homes(list, home));
    forall e
      ensures e in domains' <==> e == dst || (e in domains && e != src)
    {
      assert e in domains' <==> e in multiset(domains');
      assert e in domains <==> e in multiset(domains);
    }
  }

  lemma {:induction false} GroupsSwapped(pgDomain: seq<seq<Domain>>, plan: seq<seq<int>>, home: map<int, Domain>, p: nat,
                                         src: Domain, dstOsd: int, domains': seq<Domain>)
    requires GroupsTrue(pgDomain, plan, home) && p < |plan|
    requires src in pgDomain[p] && dstOsd in home && home[dstOsd] !in pgDomain[p]
    requires multiset(domains') == multiset(pgDomain[p]) - multiset{src} + multiset{home[dstOsd]}
    ensures GroupsTrue(pgDomain[p := domains'], plan[p := Without(plan[p], home, src) + [dstOsd]], home)
    ensures Renamed(pgDomain[p], src, home[dstOsd], domains')
    ensures dstOsd !in plan[p] && Spread(plan[p], home)
  {
    GroupAt(pgDomain, plan, home, p);
    NamedSwap(pgDomain[p], plan[p], home, src, dstOsd, domains');
    NamedIn(pgDomain[p], plan[p], home, home[dstOsd]);
    RenamedBy(pgDomain[p], plan[p], home, src, home[dstOsd], domains');
    GroupsUpdate(pgDomain, plan, home, p, domains', Without(plan[p], home, src) + [dstOsd]);
  }

  lemma {:induction false} SwappedConsistent(b: Books, plan: seq<seq<int>>, home: map<int, Domain>, names: set<Domain>,
                                             p: nat, srcOsd: int, dstOsd: int, onSrc: seq<nat>, domains': seq<Domain>)
    requires Consistent(b, plan, home, names) && p < |plan|
    requires srcOsd in plan[p] && srcOsd in home && home[srcOsd] in names && home[srcOsd] in b.pgDomain[p]
    requires dstOsd in home && home[dstOsd] in names && home[dstOsd] !in b.pgDomain[p]
    requires multiset(domains') == multiset(b.pgDomain[p]) - multiset{home[srcOsd]} + multiset{home[dstOsd]}
    requires multiset(onSrc) == multiset(b.pgOnDomain[home[srcOsd]])[p := 0]
    ensures Consistent(Swapped(b, p, home[srcOsd], home[dstOsd], srcOsd, dstOsd, onSrc, domains'),
                       plan[p := Without(plan[p], home, home[srcOsd]) + [dstOsd]], home, names)
  {
    var src, dst := home[srcOsd], home[dstOsd];
    GroupsSwapped(b.pgDomain, plan, home, p, src, dstOsd, domains');
    DomainsSwapped(b, names, p, src, dst, srcOsd, dstOsd, onSrc, domains');
    OsdsSwapped(b.pgNumPerOsd, plan, home, p, srcOsd, dstOsd);
    Together(Swapped(b, p, src, dst, srcOsd, dstOsd, onSrc, domains'), plan[p := Without(plan[p], home, src) + [dstOsd]],
             home, names);
  }

  // ---- Choosing ------------------------------------------------------------------------------

  function Weight(mp: map<Domain, int>, k: Domain): int {
    if k in mp then mp[k] else MAX_INT32
  }

  /** The three least loaded of the domains seen, least loaded first; no name stands in for
      each that is missing when fewer than three were seen. */
  ghost predicate Idlest(mp: map<Domain, int>, seen: seq<Domain>, a: Domain, b: Domain, c: Domain) {
    && (a in seen || (a == "" && |seen| < 1))
    && (b in seen || (b == "" && |seen| < 2))
    && (c in seen || (c == "" && |seen| < 3))
    && (a == b ==> a == "") && (b == c ==> b == "") && (a == c ==> a == "")
    && Weight(mp, a) <= Weight(mp, b) <= Weight(mp, c)
    && (forall k :: k in seen ==> k == a || k == b || k == c || Weight(mp, c) <= Weight(mp, k))
  }

  lemma {:induction false} IdlestStep(mp: map<Domain, int>, seen: seq<Domain>, key: Domain, a: Domain, b: Domain, c: Domain)
    requires Idlest(mp, seen, a, b, c) && key in mp && key !in seen && mp[key] < MAX_INT32 && "" !in mp
    requires forall k :: k in seen ==> k in mp && mp[k] < MAX_INT32
    ensures mp[key] < Weight(mp, a) ==> Idlest(mp, seen + [key], key, a, b)
    ensures Weight(mp, a) <= mp[key] < Weight(mp, b) ==> Idlest(mp, seen + [key], a, key, b)
    ensures Weight(mp, b) <= mp[key] < Weight(mp, c) ==> Idlest(mp, seen + [key], a, b, key)
    ensures Weight(mp, c) <= mp[key] ==> Idlest(mp, seen + [key], a, b, c)
  {
  }

  /** The order in which a map's keys happen to be visited. */
  ghost predicate Order(keys: seq<Domain>, mp: map<Domain, int>) {
    Distinct(keys) && (forall i :: 0 <= i < |keys| ==> keys[i] in mp) && forall k :: k in mp ==> k in keys
  }

  /** top3MinValue */
  method Top3MinValue(mp: map<Domain, int>, keys: seq<Domain>) returns (a: Domain, b: Domain, c: Domain)
    requires Order(keys, mp) && "" !in mp && forall k :: k in mp ==> mp[k] < MAX_INT32
    ensures Idlest(mp, keys, a, b, c)
  {
    var minVal, secondMinVal, thirdMinVal := MAX_INT32, MAX_INT32, MAX_INT32;
    a, b, c := "", "", "";
    for i := 0 to |keys|
      invariant Idlest(mp, keys[..i], a, b, c)
      invariant minVal == Weight(mp, a) && secondMinVal == Weight(mp, b) && thirdMinVal == Weight(mp, c)
    {
      var key := keys[i];
      var value := mp[key];
      assert keys[..i + 1] == keys[..i] + [key];
      IdlestStep(mp, keys[..i], key, a, b, c);
      if value < minVal {
        thirdMinVal, c := secondMinVal, b;
        secondMinVal, b := minVal, a;
        minVal, a := value, key;
      } else if value >= minVal && value < secondMinVal {
        thirdMinVal, c := secondMinVal, b;
        secondMinVal, b := value, key;
      } else if value >= secondMinVal && value < thirdMinVal {
        thirdMinVal, c := value, key;
      }
    }
    assert keys[..|keys|] == keys;
  }

  /** getMaxValue: the busiest domain, or no name when nothing is placed anywhere. */
  method GetMaxValue(mp: map<Domain, int>, keys: seq<Domain>) returns (m: Domain)
    requires Order(keys, mp)
    ensures (forall k :: k in mp ==> mp[k] <= 0) ==> m == ""
    ensures (exists k :: k in mp && mp[k] > 0) ==> m in mp && mp[m] > 0 && forall k :: k in mp ==> mp[k] <= mp[m]
  {
    m := "";
    var maxVal := 0;
    for i := 0 to |keys|
      invariant maxVal >= 0 && forall j :: 0 <= j < i ==> mp[keys[j]] <= maxVal
      invariant if maxVal == 0 then m == "" else m in mp && mp[m] == maxVal
    {
      if mp[keys[i]] > maxVal { m, maxVal := keys[i], mp[keys[i]]; }
    }
    assert forall k :: k in mp ==> mp[k] <= maxVal by {
      forall k | k in mp
        ensures mp[k] <= maxVal
      {
        assert k in keys;
      }
    }
  }

  ghost predicate InDomain(tree: seq<Node>, domain: Domain, osd: int) {
    exists h :: 0 <= h < |tree| && tree[h].name == domain && osd in tree[h].osds
  }

  function Load(num: map<int, int>, osd: int): int {
    if osd in num then num[osd] else 0
  }

  /** What getMinPgOsd has found among the first h domains and the first j OSDs of the next. */
  ghost predicate Least(tree: seq<Node>, domain: Domain, num: map<int, int>, h: nat, j: nat, osd: int, least: int) {
    && (forall g, i :: 0 <= g < |tree| && 0 <= i < |tree[g].osds| && tree[g].name == domain && (g < h || (g == h && i < j)) ==>
          least <= Load(num, tree[g].osds[i]))
    && (if least == MAX_INT32 then osd == 0 else InDomain(tree, domain, osd) && Load(num, osd) == least < MAX_INT32)
  }

  /** getMinPgOsd: the OSD of the domain with the fewest groups; OSD 0 when the domain has none. */
  method GetMinPgOsd(tree: seq<Node>, domain: Domain, num: map<int, int>) returns (osd: int)
    ensures (forall o :: !InDomain(tree, domain, o)) ==> osd == 0
    ensures (exists o :: InDomain(tree, domain, o) && Load(num, o) < MAX_INT32) ==>
              InDomain(tree, domain, osd) && forall o :: InDomain(tree, domain, o) ==> Load(num, osd) <= Load(num, o)
  {
    osd := 0;
    var least := MAX_INT32;
    for h := 0 to |tree|
      invariant Least(tree, domain, num, h, 0, osd, least)
    {
      if tree[h].name == domain {
        for j := 0 to |tree[h].osds|
          invariant Least(tree, domain, num, h, j, osd, least)
        {
          var o := tree[h].osds[j];
          if Load(num, o) < least {
            least, osd := Load(num, o), o;
            assert InDomain(tree, domain, o);
          }
        }
      }
    }
    forall o | InDomain(tree, domain, o)
      ensures least <= Load(num, o)
    {
      var h :| 0 <= h < |tree| && tree[h].name == domain && o in tree[h].osds;
      var i :| 0 <= i < |tree[h].osds| && tree[h].osds[i] == o;
    }
  }

  // ---- Which domain a member goes to ---------------------------------------------------------

  datatype Choice = Chosen(domain: Domain) | NoChoice

  /** The first candidate the group has no member in. */
  function Pick(domains: seq<Domain>, a: Domain, b: Domain, c: Domain): Choice {
    if a !in domains then Chosen(a)
    else if b !in domains then Chosen(b)
    else if c !in domains then Chosen(c)
    else NoChoice
  }

  /** A group's domains after n rounds of picking. */
  function Picked(domains: seq<Domain>, a: Domain, b: Domain, c: Domain, n: nat): seq<Domain> {
    if n == 0 then domains
    else Extended(Picked(domains, a, b, c, n - 1), a, b, c)
  }

  function Extended(domains: seq<Domain>, a: Domain, b: Domain, c: Domain): seq<Domain> {
    match Pick(domains, a, b, c)
    case Chosen(d) => domains + [d]
    case NoChoice => domains
  }

  /** A member goes to a domain that does not exist exactly when there are fewer than three
      domains and the group is in all of them. */
  lemma {:induction false} PickKnownIff(mp: map<Domain, int>, keys: seq<Domain>, domains: seq<Domain>,
                                        a: Domain, b: Domain, c: Domain)
    requires Order(keys, mp) && "" !in mp && (forall k :: k in mp ==> mp[k] < MAX_INT32)
    requires Idlest(mp, keys, a, b, c) && "" !in domains
    ensures Pick(domains, a, b, c) == Chosen("") <==> |keys| < 3 && forall k :: k in keys ==> k in domains
  {
    assert forall k :: k in keys <==> k in mp.Keys;
    OfferedBy(mp, keys, mp.Keys, a, b, c);
    KeysAll(keys, mp.Keys);
    PickOffered(mp.Keys, domains, a, b, c);
  }

  /** What top3MinValue offers: known domains first, then no name for each that is missing. */
  ghost predicate Offered(names: set<Domain>, a: Domain, b: Domain, c: Domain) {
    && "" !in names
    && if |names| >= 3 then a in names && b in names && c in names && a != b && b != c && a != c
       else c == "" && (a == "" ==> b == "") && (a in names || a == "") && (b in names || b == "")
            && forall d :: d in names ==> d == a || d == b
  }

  lemma OfferedBy(mp: map<Domain, int>, keys: seq<Domain>, names: set<Domain>, a: Domain, b: Domain, c: Domain)
    requires KeyOrder(keys, names) && mp.Keys == names && "" !in names && (forall k :: k in mp ==> mp[k] < MAX_INT32)
    requires Idlest(mp, keys, a, b, c)
    ensures Offered(names, a, b, c)
  {
    KeysAll(keys, names);
  }

  /** Of the candidates offered, the one that does not exist is picked exactly when there are
      fewer than three domains and the group is in all of them. */
  lemma PickOffered(names: set<Domain>, domains: seq<Domain>, a: Domain, b: Domain, c: Domain)
    requires Offered(names, a, b, c) && "" !in domains
    ensures Pick(domains, a, b, c) == Chosen("") <==> |names| < 3 && forall d :: d in names ==> d in domains
    ensures Pick(domains, a, b, c).Chosen? && Pick(domains, a, b, c).domain != "" ==> Pick(domains, a, b, c).domain in names
    ensures |names| < 3 ==> Pick(domains, a, b, c).Chosen?
  {
  }

  ghost predicate HomeKnown(home: map<int, Domain>, names: set<Domain>, o: int) {
    o in home ==> home[o] in names
  }

  ghost predicate HomesKnown(home: map<int, Domain>, names: set<Domain>) {
    forall o {:trigger HomeKnown(home, names, o)} :: HomeKnown(home, names, o)
  }

  /** Once no name was picked, nothing more is. */
  lemma OutOnce(names: set<Domain>, domains: seq<Domain>, a: Domain, b: Domain, c: Domain)
    requires Offered(names, a, b, c) && "" !in domains && Pick(domains, a, b, c) == Chosen("")
    ensures Pick(domains + [""], a, b, c).NoChoice?
  {
  }

  /** A group has at most one member per domain, and as many as there are domains exactly when
      it is in all of them. */
  lemma {:induction false} MembersAtMost(domains: seq<Domain>, list: seq<int>, home: map<int, Domain>, names: set<Domain>)
    requires Named(domains, list, home) && HomesKnown(home, names)
    ensures |list| <= |names| && ((forall d :: d in names ==> d in domains) <==> |names| <= |list|)
    ensures forall d :: d in domains ==> d in names
  {
    var hs := Homes(list, home);
    DistinctSize(hs);
    forall i | 0 <= i < |hs|
      ensures hs[i] in names
    {
      assert HomeKnown(home, names, list[i]);
    }
    forall d
      ensures d in domains <==> d in Elements(hs)
      ensures d in domains ==> d in names
    {
      NamedIn(domains, list, home, d);
      assert d in Elements(hs) <==> exists i :: 0 <= i < |hs| && hs[i] == d;
    }
    SubsetSize(Elements(hs), names);
    if |names| <= |list| {
      SubsetEqual(Elements(hs), names);
    } else if forall d :: d in names ==> d in domains {
      SubsetSize(names, Elements(hs));
    }
  }

  lemma ThreeIn<T>(s: seq<T>, t: seq<T>, a: T, b: T, c: T)
    requires multiset(s) == multiset(t)
    ensures a != b && b != c && a != c && a in s && b in s && c in s ==> |t| >= 3
  {
    assert |s| == |multiset(s)| == |t|;
    if a != b && b != c && a != c && a in s && b in s && c in s {
      var i :| 0 <= i < |s| && s[i] == a;
      var j :| 0 <= j < |s| && s[j] == b;
      var k :| 0 <= k < |s| && s[k] == c;
    }
  }

  lemma SubsetEqual<T>(a: set<T>, b: set<T>)
    requires a <= b && |b| <= |a|
    ensures a == b
  {
    if x :| x in b && x !in a {
      SubsetSize(a + {x}, b);
    }
  }

  lemma LoadFits(b: Books, d: Domain)
    requires OnDomain(b, d)
    ensures b.domainPgNum[d] <= |b.pgDomain|
  {
    var s := b.pgOnDomain[d];
    OnceDistinct(s);
    DistinctSize(s);
    forall p | p in Elements(s)
      ensures p in Below(|b.pgDomain|)
    {
      assert p in multiset(s);
    }
    SubsetSize(Elements(s), Below(|b.pgDomain|));
  }

  // ---- What a run does to the groups ---------------------------------------------------------

  ghost predicate Grown(was: seq<int>, now: seq<int>, want: int) {
    |was| < |now| <= want && was <= now
  }

  /** The members of domain src left, and one of domain dst came last. */
  ghost predicate SwappedOut(was: seq<int>, now: seq<int>, home: map<int, Domain>, src: Domain, dst: Domain) {
    && now != [] && now[|now| - 1] in home && home[now[|now| - 1]] == dst
    && now == Without(was, home, src) + [now[|now| - 1]]
  }

  /** One member replaced, the newcomer last. */
  ghost predicate OneSwapped(was: seq<int>, now: seq<int>) {
    exists i :: 0 <= i < |was| && |now| == |was| && now[..|was| - 1] == was[..i] + was[i + 1..]
  }

  /** A group is untouched, or replanned once, by growing or by one swap. */
  ghost predicate Accounted(was: PgConfig, now: PgConfig, list: seq<int>, size: nat, want: int) {
    if now == was then list == was.osdList
    else PlannedPg(was, list, size) == Touch(now, true) && (Grown(was.osdList, list, want) || OneSwapped(was.osdList, list))
  }

  ghost predicate AllAccounted(start: seq<PgConfig>, pgs: seq<PgConfig>, plan: seq<seq<int>>, size: nat, want: int) {
    |start| == |pgs| == |plan| && forall p :: 0 <= p < |pgs| ==> Accounted(start[p], pgs[p], plan[p], size, want)
  }

  ghost predicate Differs(start: seq<PgConfig>, pgs: seq<PgConfig>) {
    |start| == |pgs| && exists p :: 0 <= p < |pgs| && pgs[p] != start[p]
  }

  /** The group was replanned with OSD 0, which getMinPgOsd answers for a domain that does not
      exist, as the last member. */
  ghost predicate SentOut(was: PgConfig, now: PgConfig, size: nat) {
    && PlannedPg(was, now.newOsdList, size) == Touch(now, true)
    && now.newOsdList != [] && now.newOsdList[|now.newOsdList| - 1] == 0
  }

  /** Some member of the list is in the domain. */
  ghost predicate Houses(list: seq<int>, home: map<int, Domain>, d: Domain) {
    exists i :: 0 <= i < |list| && list[i] in home && home[list[i]] == d
  }

  /** Of the domains the group has no member in, dst is an idlest one. */
  ghost predicate IdlestNew(list: seq<int>, home: map<int, Domain>, num: map<Domain, int>, dst: Domain) {
    && dst in num && !Houses(list, home, dst)
    && forall d :: d in num && num[d] < num[dst] ==> Houses(list, home, d)
  }

  /** No OSD of its domain is in fewer groups. */
  ghost predicate LeastUsed(plan: seq<seq<int>>, home: map<int, Domain>, osd: int) {
    osd in home && forall o :: o in home && home[o] == home[osd] ==> Holding(plan, osd) <= Holding(plan, o)
  }

  /** The member in domain m is gone, and one of domain dst came last. */
  ghost predicate Relocated(was: seq<int>, now: seq<int>, home: map<int, Domain>, m: Domain, dst: Domain) {
    && now != [] && now[|now| - 1] in home && home[now[|now| - 1]] == dst
    && exists i :: 0 <= i < |was| && was[i] in home && home[was[i]] == m && now == was[..i] + was[i + 1..] + [now[|now| - 1]]
  }

  /** Group p gives up its member in domain m for a least used OSD of the idlest domain it is
      not in. */
  ghost predicate MovesTo(plan: seq<seq<int>>, plan': seq<seq<int>>, home: map<int, Domain>, num: map<Domain, int>,
                          m: Domain, p: nat, dst: Domain)
  {
    && p < |plan| == |plan'| && plan' == plan[p := plan'[p]]
    && Relocated(plan[p], plan'[p], home, m, dst) && IdlestNew(plan[p], home, num, dst)
    && LeastUsed(plan, home, plan'[p][|plan'[p]| - 1])
  }

  ghost predicate LeftDomain(plan: seq<seq<int>>, plan': seq<seq<int>>, home: map<int, Domain>, num: map<Domain, int>, m: Domain) {
    exists p, dst :: MovesTo(plan, plan', home, num, m, p, dst)
  }

  lemma LeftFor(plan: seq<seq<int>>, p: nat, list: seq<int>, home: map<int, Domain>, num: map<Domain, int>, m: Domain, dst: Domain)
    requires p < |plan| && Relocated(plan[p], list, home, m, dst) && IdlestNew(plan[p], home, num, dst)
    requires LeastUsed(plan, home, list[|list| - 1])
    ensures LeftDomain(plan, plan[p := list], home, num, m)
  {
    assert MovesTo(plan, plan[p := list], home, num, m, p, dst);
  }

  /** The i-th member of a list that grew is a least used OSD of the idlest domain that the
      members before it were not in. */
  ghost predicate JoinsAt(plan: seq<seq<int>>, list: seq<int>, home: map<int, Domain>, num: map<Domain, int>, i: nat) {
    i < |list| && list[i] in home && IdlestNew(list[..i], home, num, home[list[i]]) && LeastUsed(plan, home, list[i])
  }

  ghost predicate Joins(plan: seq<seq<int>>, list: seq<int>, home: map<int, Domain>, num: map<Domain, int>, from: nat) {
    forall i: nat :: from <= i < |list| ==> JoinsAt(plan, list, home, num, i)
  }

  lemma {:induction false} JoinsStep(plan: seq<seq<int>>, list: seq<int>, list': seq<int>, home: map<int, Domain>,
                                     num: map<Domain, int>, from: nat)
    requires Joins(plan, list, home, num, from) && list <= list' && |list'| <= |list| + 1
    requires |list'| > |list| ==> JoinsAt(plan, list', home, num, |list|)
    ensures Joins(plan, list', home, num, from)
  {
    forall i: nat | from <= i < |list'|
      ensures JoinsAt(plan, list', home, num, i)
    {
      if i < |list| {
        assert JoinsAt(plan, list, home, num, i);
        assert list'[..i] == list[..i];
      }
    }
  }

  /** Members in other domains do not change which OSD of a domain is least used. */
  lemma {:induction false} LeastUsedElsewhere(plan: seq<seq<int>>, p: nat, list: seq<int>, home: map<int, Domain>, osd: int)
    requires p < |plan| && plan[p] <= list && LeastUsed(plan[p := list], home, osd) && !Houses(list, home, home[osd])
    ensures LeastUsed(plan, home, osd)
  {
    forall o | o in home && home[o] == home[osd]
      ensures Holding(plan, o) == Holding(plan[p := list], o)
    {
      assert o !in list;
      HoldingUpdate(plan, p, list, o);
    }
  }

  lemma {:induction false} JoinsOn(plan: seq<seq<int>>, p: nat, list: seq<int>, list': seq<int>, home: map<int, Domain>,
                                   num: map<Domain, int>, from: nat)
    requires p < |plan| && plan[p] <= list <= list' && |list'| <= |list| + 1 && Joins(plan, list, home, num, from)
    requires |list'| > |list| ==> JoinsAt(plan[p := list], list', home, num, |list|)
    ensures Joins(plan, list', home, num, from)
  {
    if |list'| > |list| {
      assert list'[..|list|] == list;
      LeastUsedElsewhere(plan, p, list, home, list'[|list|]);
    }
    JoinsStep(plan, list, list', home, num, from);
  }

  /** How a and b, c rank among all domains. */
  ghost predicate Ranked(num: map<Domain, int>, a: Domain, b: Domain, c: Domain) {
    && (a in num ==> forall d :: d in num ==> num[a] <= num[d])
    && (b in num ==> forall d :: d in num && num[d] < num[b] ==> d == a)
    && (c in num ==> forall d :: d in num && num[d] < num[c] ==> d == a || d == b)
  }

  lemma RankedBy(num: map<Domain, int>, keys: seq<Domain>, a: Domain, b: Domain, c: Domain)
    requires Idlest(num, keys, a, b, c) && forall d :: d in num ==> d in keys
    ensures Ranked(num, a, b, c)
  {
  }

  /** What is picked is the idlest domain the group is not in. */
  lemma PickIdlest(num: map<Domain, int>, domains: seq<Domain>, a: Domain, b: Domain, c: Domain)
    requires Ranked(num, a, b, c) && Pick(domains, a, b, c).Chosen? && Pick(domains, a, b, c).domain in num
    ensures var dst := Pick(domains, a, b, c).domain;
            dst !in domains && forall d :: d in num && num[d] < num[dst] ==> d in domains
  {
  }

  /** A replanned group is being remapped, so it is not looked at again. */
  lemma PlannedOnce(was: PgConfig, now: PgConfig, list: seq<int>, size: nat, want: int)
    requires Accounted(was, now, list, size, want) && !InState(now.state, REMAPPED)
    ensures now == was && list == was.osdList
  {
  }

  lemma AccountStep(start: seq<PgConfig>, pgs: seq<PgConfig>, plan: seq<seq<int>>, size: nat, want: int,
                    p: nat, now: PgConfig, list: seq<int>)
    requires AllAccounted(start, pgs, plan, size, want) && p < |pgs| && pgs[p] == start[p]
    requires Accounted(start[p], now, list, size, want)
    ensures AllAccounted(start, pgs[p := now], plan[p := list], size, want)
    ensures Differs(start, pgs[p := now]) <==> Differs(start, pgs) || now != start[p]
  {
  }

  lemma {:induction false} WithoutOne(list: seq<int>, home: map<int, Domain>, d: Domain, i: nat)
    requires Spread(list, home) && i < |list| && home[list[i]] == d
    ensures Without(list, home, d) == list[..i] + list[i + 1..]
  {
    var k := |list| - 1;
    assert forall j :: 0 <= j < |list| && j != i ==> Homes(list, home)[j] != d;
    if i == k {
      WithoutNone(list[..k], home, d);
    } else {
      var front := list[..k];
      assert Homes(front, home) == Homes(list, home)[..k];
      WithoutOne(front, home, d, i);
      assert list[i + 1..] == front[i + 1..] + [list[k]];
    }
  }

  lemma {:induction false} WithoutNone(list: seq<int>, home: map<int, Domain>, d: Domain)
    requires forall j :: 0 <= j < |list| ==> list[j] in home && home[list[j]] != d
    ensures Without(list, home, d) == list
  {
    if list != [] {
      var k := |list| - 1;
      WithoutNone(list[..k], home, d);
      assert list == list[..k] + [list[k]];
    }
  }

  lemma {:induction false} MemberThere(pgDomain: seq<seq<Domain>>, plan: seq<seq<int>>, home: map<int, Domain>, p: nat, d: Domain)
    requires GroupsTrue(pgDomain, plan, home) && p < |plan| && d in pgDomain[p]
    ensures Spread(plan[p], home)
    ensures exists i :: 0 <= i < |plan[p]| && home[plan[p][i]] == d
  {
    GroupAt(pgDomain, plan, home, p);
    NamedIn(pgDomain[p], plan[p], home, d);
  }

  lemma {:induction false} SwapIsOne(list: seq<int>, home: map<int, Domain>, d: Domain, dst: int)
    requires Spread(list, home) && exists i :: 0 <= i < |list| && home[list[i]] == d
    ensures OneSwapped(list, Without(list, home, d) + [dst])
    ensures dst in home ==> Relocated(list, Without(list, home, d) + [dst], home, d, home[dst])
  {
    var i :| 0 <= i < |list| && home[list[i]] == d;
    WithoutOne(list, home, d, i);
    var now := Without(list, home, d) + [dst];
    assert now[..|list| - 1] == list[..i] + list[i + 1..];
  }

  lemma OnList(b: Books, d: Domain, i: nat)
    requires OnDomain(b, d) && i < |b.pgOnDomain[d]|
    ensures var p := b.pgOnDomain[d][i]; p < |b.pgDomain| && d in b.pgDomain[p]
  {
  }

  /** A load that starts a move: m is the busiest and a the idlest domain, and one of them is
      off the average. */
  ghost predicate Uneven(num: map<Domain, int>, keys: seq<Domain>, avg: int, m: Domain, a: Domain, b: Domain, c: Domain) {
    && m in num && (forall d :: d in num ==> num[d] <= num[m]) && Idlest(num, keys, a, b, c) && a in num
    && (num[a] < avg || num[m] > avg + 1)
  }

  lemma AllBetween(num: map<Domain, int>, keys: seq<Domain>, avg: int, m: Domain, a: Domain, b: Domain, c: Domain)
    requires KeyOrder(keys, num.Keys) && Idlest(num, keys, a, b, c) && a in num && m in num
    requires forall d :: d in num ==> num[d] <= num[m]
    requires avg <= num[a] && num[m] <= avg + 1
    ensures forall d :: d in num ==> avg <= num[d] <= avg + 1
  {
  }

  lemma NewListsSpread(books: Books, start: seq<PgConfig>, pgs: seq<PgConfig>, plan: seq<seq<int>>, size: nat, want: int,
                       home: map<int, Domain>)
    requires GroupsTrue(books.pgDomain, plan, home) && AllAccounted(start, pgs, plan, size, want)
    ensures forall p :: 0 <= p < |pgs| && pgs[p] != start[p] ==> Spread(pgs[p].newOsdList, home)
  {
    forall p | 0 <= p < |pgs| && pgs[p] != start[p]
      ensures Spread(pgs[p].newOsdList, home)
    {
      GroupAt(books.pgDomain, plan, home, p);
      assert Accounted(start[p], pgs[p], plan[p], size, want);
    }
  }

  // ---- The planner ---------------------------------------------------------------------------

  ghost predicate HasOsd(tree: seq<Node>, d: Domain) {
    exists o :: InDomain(tree, d, o)
  }

  ghost predicate TreeOk(tree: seq<Node>, home: map<int, Domain>, names: set<Domain>) {
    && "" !in names
    && HomesKnown(home, names)
    && (forall o {:trigger InDomain(tree, home[o], o)} :: o in home ==> InDomain(tree, home[o], o))
    && (forall d {:trigger HasOsd(tree, d)} :: d in names ==> HasOsd(tree, d))
    && (forall d, o :: InDomain(tree, d, o) ==> o in home && home[o] == d)
  }

  /** A flattened tree: named domains, each with OSDs of its own. */
  ghost predicate TreeWf(tree: seq<Node>) {
    && (forall h :: 0 <= h < |tree| ==> tree[h].name != "" && tree[h].osds != [])
    && (forall h, k :: 0 <= h < k < |tree| ==> tree[h].name != tree[k].name)
    && (forall h, k, o :: 0 <= h < |tree| && 0 <= k < |tree| && o in tree[h].osds && o in tree[k].osds ==> h == k)
  }

  ghost function Names(tree: seq<Node>): set<Domain> {
    set h | 0 <= h < |tree| :: tree[h].name
  }

  /** What the first loop of getDomainPg has read of the first h domains: where each OSD is. */
  ghost predicate HomesRead(tree: seq<Node>, h: nat, home: map<int, Domain>)
    requires h <= |tree|
  {
    && (forall g, o :: 0 <= g < h && o in tree[g].osds ==> o in home && home[o] == tree[g].name)
    && (forall o :: o in home ==> InDomain(tree[..h], home[o], o))
  }

  /** And which counters it has set to zero. */
  ghost predicate Zeroed(names: set<Domain>, num: map<Domain, int>, on: map<Domain, seq<nat>>) {
    && num.Keys == on.Keys == names
    && (forall d :: d in names ==> num[d] == 0) && (forall d :: d in names ==> on[d] == [])
  }

  ghost predicate OsdsZeroed(home: map<int, Domain>, osds: map<int, int>) {
    home.Keys == osds.Keys && forall o :: o in osds ==> osds[o] == 0
  }

  lemma ZeroedStep(names: set<Domain>, num: map<Domain, int>, on: map<Domain, seq<nat>>, d: Domain)
    requires Zeroed(names, num, on)
    ensures Zeroed(names + {d}, num[d := 0], on[d := []])
  {
  }

  /** The OSDs of one domain. */
  method ReadNode(tree: seq<Node>, h: nat, home0: map<int, Domain>, osds0: map<int, int>)
    returns (home: map<int, Domain>, osds: map<int, int>)
    requires TreeWf(tree) && h < |tree| && HomesRead(tree, h, home0) && OsdsZeroed(home0, osds0)
    ensures HomesRead(tree, h + 1, home) && OsdsZeroed(home, osds)
  {
    home, osds := home0, osds0;
    var node := tree[h];
    for j := 0 to |node.osds|
      invariant forall o :: o in home <==> o in home0 || o in node.osds[..j]
      invariant forall o :: o in home ==> home[o] == if o in node.osds[..j] then node.name else home0[o]
      invariant OsdsZeroed(home, osds)
    {
      home, osds := home[node.osds[j] := node.name], osds[node.osds[j] := 0];
      assert node.osds[..j + 1] == node.osds[..j] + [node.osds[j]];
    }
    assert node.osds[..|node.osds|] == node.osds;
    ReadStep(tree, h, home0, home);
  }

  lemma ReadStep(tree: seq<Node>, h: nat, home0: map<int, Domain>, home: map<int, Domain>)
    requires TreeWf(tree) && h < |tree| && HomesRead(tree, h, home0)
    requires forall o :: o in home <==> o in home0 || o in tree[h].osds
    requires forall o :: o in home ==> home[o] == if o in tree[h].osds then tree[h].name else home0[o]
    ensures HomesRead(tree, h + 1, home)
  {
    var t := tree[..h + 1];
    forall o | o in home
      ensures InDomain(t, home[o], o)
    {
      if o in tree[h].osds {
        assert t[h].name == home[o];
      } else {
        var g :| 0 <= g < h && tree[..h][g].name == home0[o] && o in tree[..h][g].osds;
        assert t[g].name == home[o] && o in t[g].osds;
      }
    }
  }

  lemma NamesStep(tree: seq<Node>, h: nat)
    requires h < |tree|
    ensures Names(tree[..h + 1]) == Names(tree[..h]) + {tree[h].name}
  {
  }

  /** The first loop of getDomainPg. */
  method ReadTree(tree: seq<Node>)
    returns (home: map<int, Domain>, num: map<Domain, int>, on: map<Domain, seq<nat>>, osds: map<int, int>)
    requires TreeWf(tree)
    ensures TreeOk(tree, home, Names(tree)) && Zeroed(Names(tree), num, on) && OsdsZeroed(home, osds)
  {
    home, num, on, osds := map[], map[], map[], map[];
    for h := 0 to |tree|
      invariant HomesRead(tree, h, home) && Zeroed(Names(tree[..h]), num, on) && OsdsZeroed(home, osds)
    {
      ZeroedStep(Names(tree[..h]), num, on, tree[h].name);
      NamesStep(tree, h);
      num, on := num[tree[h].name := 0], on[tree[h].name := []];
      home, osds := ReadNode(tree, h, home, osds);
    }
    assert tree[..|tree|] == tree;
    WholeTree(tree, home);
  }

  lemma WholeTree(tree: seq<Node>, home: map<int, Domain>)
    requires TreeWf(tree)
    requires forall g, o :: 0 <= g < |tree| && o in tree[g].osds ==> o in home && home[o] == tree[g].name
    requires forall o :: o in home ==> InDomain(tree, home[o], o)
    ensures TreeOk(tree, home, Names(tree))
  {
    forall d | d in Names(tree)
      ensures HasOsd(tree, d)
    {
      var h :| 0 <= h < |tree| && tree[h].name == d;
      assert tree[h].osds[0] in tree[h].osds;
      assert InDomain(tree, d, tree[h].osds[0]);
    }
  }

  ghost predicate InTree(tree: seq<Node>, osd: int) {
    exists d :: InDomain(tree, d, osd)
  }

  /** Every member is somewhere in the tree, no two in the same domain. */
  ghost predicate SpreadIn(list: seq<int>, tree: seq<Node>) {
    && (forall i :: 0 <= i < |list| ==> InTree(tree, list[i]))
    && (forall i, j, d :: 0 <= i < j < |list| ==> !(InDomain(tree, d, list[i]) && InDomain(tree, d, list[j])))
  }

  lemma SpreadHome(list: seq<int>, tree: seq<Node>, home: map<int, Domain>, names: set<Domain>)
    requires TreeOk(tree, home, names) && SpreadIn(list, tree)
    ensures Spread(list, home)
  {
  }

  /** The plan before anything is planned. */
  ghost function Lists(pgs: seq<PgConfig>): (r: seq<seq<int>>)
    ensures |r| == |pgs| && forall p :: 0 <= p < |pgs| ==> r[p] == pgs[p].osdList
  {
    seq(|pgs|, p requires 0 <= p < |pgs| => pgs[p].osdList)
  }

  function Empties<T>(n: nat): (r: seq<seq<T>>)
    ensures |r| == n && forall i :: 0 <= i < n ==> r[i] == []
  {
    seq(n, _ => [])
  }

  lemma {:induction false} EmptyHolding(n: nat, o: int)
    ensures Holding(Empties(n), o) == 0
  {
    if n > 0 {
      EmptyHolding(n - 1, o);
      assert Empties<int>(n)[..n - 1] == Empties(n - 1);
    }
  }

  lemma {:induction false} FreshConsistent(b: Books, home: map<int, Domain>, names: set<Domain>, n: nat)
    requires Zeroed(names, b.domainPgNum, b.pgOnDomain) && OsdsZeroed(home, b.pgNumPerOsd) && b.pgDomain == Empties(n)
    ensures Consistent(b, Empties(n), home, names)
  {
    forall p: nat | p < n
      ensures GroupTrue(b.pgDomain, Empties(n), home, p)
    {
      assert Homes([], home) == [];
    }
    forall d | d in names
      ensures OnDomain(b, d)
    {
    }
    forall o | o in home
      ensures OsdTrue(b.pgNumPerOsd, Empties(n), o)
    {
      EmptyHolding(n, o);
    }
  }

  /** The next member of a spread list is in a domain the group does not have yet. */
  lemma {:induction false} NextIsNew(pgDomain: seq<seq<Domain>>, plan: seq<seq<int>>, home: map<int, Domain>, p: nat,
                                     list: seq<int>, k: nat)
    requires GroupsTrue(pgDomain, plan, home) && p < |plan| && k < |list| && plan[p] == list[..k] && Spread(list, home)
    ensures home[list[k]] !in pgDomain[p]
  {
    GroupAt(pgDomain, plan, home, p);
    NamedIn(pgDomain[p], plan[p], home, home[list[k]]);
    assert forall i :: 0 <= i < k ==> Homes(list, home)[i] != Homes(list, home)[k];
  }

  /** transferable */
  predicate Transferable(pg: PgConfig) {
    && !InState(pg.state, REMAPPED) && !InState(pg.state, DOWN)
    && !InState(pg.state, CREATING) && !InState(pg.state, UNDERSIZE)
  }

  /** Group p may not move, or is already in every candidate. */
  predicate Pinned(pgs: seq<PgConfig>, pgDomain: seq<seq<Domain>>, p: nat, a: Domain, b: Domain, c: Domain) {
    p < |pgs| && p < |pgDomain| && (!Transferable(pgs[p]) || (a in pgDomain[p] && b in pgDomain[p] && c in pgDomain[p]))
  }

  /** So it is with the first n groups of a list. */
  ghost predicate NoneFree(pgs: seq<PgConfig>, pgDomain: seq<seq<Domain>>, groups: seq<nat>, n: nat,
                             a: Domain, b: Domain, c: Domain)
  {
    n <= |groups| && forall k :: 0 <= k < n ==> Pinned(pgs, pgDomain, groups[k], a, b, c)
  }

  /** Group g is the first of the list that can move. */
  ghost predicate FirstFree(pgs: seq<PgConfig>, pgDomain: seq<seq<Domain>>, groups: seq<nat>, g: nat,
                            a: Domain, b: Domain, c: Domain)
  {
    exists k: nat :: NoneFree(pgs, pgDomain, groups, k, a, b, c) && k < |groups| && groups[k] == g
                     && !Pinned(pgs, pgDomain, g, a, b, c)
  }

  /** getEffectivePGSize: how many members a group should have. With a pool's own domains as
      domainNum, the first loop never leaves the tree. */
  function EffectivePgSize(pgSize: nat, domainNum: nat): (want: nat)
    ensures want <= domainNum && want <= pgSize
    ensures want == 0 <==> 2 * domainNum < pgSize || pgSize == 0 || domainNum == 0
    ensures want > 0 ==> want == pgSize || want == domainNum
  {
    if domainNum * 2 < pgSize then 0
    else if pgSize <= domainNum then pgSize else domainNum
  }

  /** A group that the first loop of reblancePool looks at. */
  predicate Eligible(pg: PgConfig) {
    !InState(pg.state, REMAPPED) && !InState(pg.state, DOWN)
  }

  /** And one that it gives members to. */
  predicate Short(pg: PgConfig, want: nat) {
    Eligible(pg) && |pg.osdList| < want
  }

  /** All members wanted, or one in each of the three candidates. */
  predicate Enough(list: seq<int>, want: nat) {
    |list| >= want || |list| >= 3
  }

  /** What the first loop has done: lists only grew, and of the groups it looks at, those it has
      visited and those it has changed have enough members. */
  ghost predicate Fed(start: seq<PgConfig>, pgs: seq<PgConfig>, plan: seq<seq<int>>, want: nat, visited: seq<nat>) {
    && |start| == |pgs| == |plan|
    && (forall p :: 0 <= p < |plan| ==> plan[p] == start[p].osdList || Grown(start[p].osdList, plan[p], want))
    && (forall p :: 0 <= p < |plan| && Eligible(start[p]) && (p in visited || pgs[p] != start[p]) ==> Enough(plan[p], want))
  }

  /** Lists only grew. */
  ghost predicate OnlyAdded(start: seq<PgConfig>, plan: seq<seq<int>>, want: nat) {
    && |plan| == |start|
    && forall p :: 0 <= p < |plan| ==> plan[p] == start[p].osdList || Grown(start[p].osdList, plan[p], want)
  }

  /** Every group in the list that is neither being remapped nor down has enough members. */
  ghost predicate AllEnough(start: seq<PgConfig>, plan: seq<seq<int>>, want: nat, order: seq<nat>) {
    |plan| == |start| && forall p :: p in order && p < |start| && Eligible(start[p]) ==> Enough(plan[p], want)
  }

  lemma FedAdded(start: seq<PgConfig>, pgs: seq<PgConfig>, plan: seq<seq<int>>, want: nat, order: seq<nat>)
    requires Fed(start, pgs, plan, want, order)
    ensures OnlyAdded(start, plan, want) && AllEnough(start, plan, want, order)
  {
  }

  lemma FedStep(start: seq<PgConfig>, pgs: seq<PgConfig>, plan: seq<seq<int>>, want: nat, order: seq<nat>, i: nat,
                pgs': seq<PgConfig>, list: seq<int>)
    requires i < |order| && order[i] < |pgs| == |pgs'| && Fed(start, pgs, plan, want, order[..i])
    requires pgs' == pgs[order[i] := pgs'[order[i]]]
    requires if Eligible(pgs[order[i]])
             then pgs[order[i]] == start[order[i]] && Enough(list, want)
                  && (list == start[order[i]].osdList || Grown(start[order[i]].osdList, list, want))
             else list == plan[order[i]] && pgs' == pgs
    ensures Fed(start, pgs', plan[order[i] := list], want, order[..i + 1])
  {
    var g := order[i];
    assert order[..i + 1] == order[..i] + [g];
    forall p | 0 <= p < |plan| && Eligible(start[p]) && (p in order[..i + 1] || pgs'[p] != start[p])
      ensures Enough(plan[g := list][p], want)
    {
      assert p == g || p in order[..i] || pgs[p] != start[p];
    }
  }

  // ---- The second loop as a sequence of plans --------------------------------------------------

  /** How many groups have a member in the domain. */
  ghost function Housed(plan: seq<seq<int>>, home: map<int, Domain>, d: Domain): nat {
    if plan == [] then 0
    else Housed(plan[..|plan| - 1], home, d) + if Houses(plan[|plan| - 1], home, d) then 1 else 0
  }

  /** The load of every domain under a plan. */
  ghost function LoadsOf(plan: seq<seq<int>>, home: map<int, Domain>, names: set<Domain>): map<Domain, int> {
    map d | d in names :: Housed(plan, home, d)
  }

  lemma {:induction false} HousedSize(plan: seq<seq<int>>, home: map<int, Domain>, d: Domain, m: multiset<nat>)
    requires forall p: nat :: m[p] == if p < |plan| && Houses(plan[p], home, d) then 1 else 0
    ensures |m| == Housed(plan, home, d)
  {
    if plan == [] {
      assert m == multiset{};
    } else {
      var k := |plan| - 1;
      HousedSize(plan[..k], home, d, m[k := 0]);
      assert m == m[k := 0] + multiset{k} || m == m[k := 0];
    }
  }

  /** The counters that the planner keeps are the loads of its plan. */
  lemma {:induction false} BooksLoads(b: Books, plan: seq<seq<int>>, home: map<int, Domain>, names: set<Domain>)
    requires Consistent(b, plan, home, names)
    ensures b.domainPgNum == LoadsOf(plan, home, names)
  {
    forall d | d in names
      ensures b.domainPgNum[d] == Housed(plan, home, d)
    {
      assert OnDomain(b, d);
      forall p: nat | p < |plan|
        ensures d in b.pgDomain[p] <==> Houses(plan[p], home, d)
      {
        GroupAt(b.pgDomain, plan, home, p);
        NamedIn(b.pgDomain[p], plan[p], home, d);
      }
      HousedSize(plan, home, d, multiset(b.pgOnDomain[d]));
    }
  }

  /** The busiest domain m is more than one above the average, or some domain is below it. */
  ghost predicate OffAverage(num: map<Domain, int>, avg: int, m: Domain) {
    && m in num && (forall d :: d in num ==> num[d] <= num[m])
    && (num[m] > avg + 1 || exists d :: d in num && num[d] < avg)
  }

  /** One round of the second loop: under an uneven load one group gives up its member in the
      busiest domain for the idlest domain it is not in. */
  ghost predicate Shift(plan: seq<seq<int>>, plan': seq<seq<int>>, home: map<int, Domain>, names: set<Domain>, avg: int) {
    exists m :: OffAverage(LoadsOf(plan, home, names), avg, m) && LeftDomain(plan, plan', home, LoadsOf(plan, home, names), m)
  }

  /** The plans the second loop passed through. */
  ghost predicate Shifts(trace: seq<seq<seq<int>>>, home: map<int, Domain>, names: set<Domain>, avg: int) {
    trace != [] && forall i :: 0 <= i < |trace| - 1 ==> Shift(trace[i], trace[i + 1], home, names, avg)
  }

  lemma ShiftsStep(trace: seq<seq<seq<int>>>, plan: seq<seq<int>>, home: map<int, Domain>, names: set<Domain>, avg: int)
    requires Shifts(trace, home, names, avg) && Shift(trace[|trace| - 1], plan, home, names, avg)
    ensures Shifts(trace + [plan], home, names, avg)
  {
  }

  /** One group grew, member by member into the idlest domain it was not in. */
  ghost predicate Addition(plan: seq<seq<int>>, plan': seq<seq<int>>, home: map<int, Domain>, names: set<Domain>, want: nat) {
    exists p: nat :: AddsTo(plan, plan', home, names, want, p)
  }

  ghost predicate AddsTo(plan: seq<seq<int>>, plan': seq<seq<int>>, home: map<int, Domain>, names: set<Domain>, want: nat, p: nat) {
    && p < |plan| == |plan'| && plan' == plan[p := plan'[p]] && Grown(plan[p], plan'[p], want)
    && Joins(plan, plan'[p], home, LoadsOf(plan, home, names), |plan[p]|)
  }

  lemma AdditionFor(plan: seq<seq<int>>, p: nat, list: seq<int>, home: map<int, Domain>, names: set<Domain>, want: nat)
    requires p < |plan| && (list == plan[p] || Grown(plan[p], list, want))
    requires Joins(plan, list, home, LoadsOf(plan, home, names), |plan[p]|)
    ensures plan[p := list] == plan || Addition(plan, plan[p := list], home, names, want)
  {
    if list != plan[p] {
      assert AddsTo(plan, plan[p := list], home, names, want, p);
    }
  }

  /** The plans the first loop passed through. */
  ghost predicate Additions(trace: seq<seq<seq<int>>>, home: map<int, Domain>, names: set<Domain>, want: nat) {
    trace != [] && forall i :: 0 <= i < |trace| - 1 ==> Addition(trace[i], trace[i + 1], home, names, want)
  }

  lemma AdditionsStep(trace: seq<seq<seq<int>>>, plan: seq<seq<int>>, home: map<int, Domain>, names: set<Domain>, want: nat)
    requires Additions(trace, home, names, want) && Addition(trace[|trace| - 1], plan, home, names, want)
    ensures Additions(trace + [plan], home, names, want)
  {
  }

  /** A round changes no group's number of members. */
  lemma {:induction false} ShiftsKeep(trace: seq<seq<seq<int>>>, home: map<int, Domain>, names: set<Domain>, avg: int, i: nat)
    requires Shifts(trace, home, names, avg) && i < |trace|
    ensures |trace[i]| == |trace[0]| && forall p :: 0 <= p < |trace[0]| ==> |trace[i][p]| == |trace[0][p]|
  {
    if i > 0 {
      ShiftsKeep(trace, home, names, avg, i - 1);
      assert Shift(trace[i - 1], trace[i - 1 + 1], home, names, avg);
    }
  }

  lemma {:induction false} StillEnough(start: seq<PgConfig>, trace: seq<seq<seq<int>>>, want: nat, order: seq<nat>,
                                       home: map<int, Domain>, names: set<Domain>, avg: int)
    requires Shifts(trace, home, names, avg) && AllEnough(start, trace[0], want, order)
    ensures AllEnough(start, trace[|trace| - 1], want, order)
  {
    ShiftsKeep(trace, home, names, avg, |trace| - 1);
  }

  /** A load that starts a move, with fewer than three domains and group g in all of them. */
  ghost predicate Leaves(plan: seq<seq<int>>, home: map<int, Domain>, names: set<Domain>, avg: int, g: nat) {
    && |names| < 3 && g < |plan| && |names| <= |plan[g]|
    && exists m :: OffAverage(LoadsOf(plan, home, names), avg, m)
  }

  /** Group g, untouched so far, was replanned and nothing else changed. */
  ghost predicate OneReplanned(start: seq<PgConfig>, was: seq<PgConfig>, now: seq<PgConfig>, g: nat) {
    && |start| == |was| == |now| && g < |was|
    && was[g] == start[g] && now[g] != start[g] && now == was[g := now[g]]
  }

  /** How many groups are replanned. */
  ghost function Replanned(start: seq<PgConfig>, pgs: seq<PgConfig>): nat
    requires |start| == |pgs|
  {
    if pgs == [] then 0
    else
      var k := |pgs| - 1;
      Replanned(start[..k], pgs[..k]) + if pgs[k] != start[k] then 1 else 0
  }

  lemma {:induction false} ReplannedStep(start: seq<PgConfig>, was: seq<PgConfig>, now: seq<PgConfig>, g: nat)
    requires OneReplanned(start, was, now, g)
    ensures Replanned(start, now) == Replanned(start, was) + 1
  {
    var k := |was| - 1;
    if g < k {
      ReplannedStep(start[..k], was[..k], now[..k], g);
    } else {
      assert now[..k] == was[..k];
    }
  }

  /** With as many groups replanned as there are, every one is. */
  lemma {:induction false} AllReplanned(start: seq<PgConfig>, pgs: seq<PgConfig>)
    requires |start| == |pgs|
    ensures Replanned(start, pgs) <= |pgs|
    ensures Replanned(start, pgs) == |pgs| ==> forall p :: 0 <= p < |pgs| ==> pgs[p] != start[p]
  {
    if pgs != [] {
      var k := |pgs| - 1;
      AllReplanned(start[..k], pgs[..k]);
      assert forall p :: 0 <= p < k ==> start[..k][p] == start[p] && pgs[..k][p] == pgs[p];
    }
  }

  ghost predicate NoneShort(pgs: seq<PgConfig>, want: nat, order: seq<nat>) {
    forall p :: p in order && p < |pgs| ==> !Short(pgs[p], want)
  }

  lemma NoneShortStep(pgs: seq<PgConfig>, want: nat, order: seq<nat>, i: nat)
    requires i < |order| && order[i] < |pgs|
    ensures NoneShort(pgs, want, order[..i + 1]) <==> NoneShort(pgs, want, order[..i]) && !Short(pgs[order[i]], want)
    ensures NoneShort(pgs, want, order) ==> !Short(pgs[order[i]], want)
  {
    assert order[..i + 1] == order[..i] + [order[i]];
  }

  /** The maps and groups that reblancePool's helpers change in place. */
  class Planner {
    const tree: seq<Node>
    const size: nat
    const want: nat
    const home: map<int, Domain>
    ghost const names: set<Domain>
    var domainPgNum: map<Domain, int>
    var pgOnDomain: map<Domain, seq<nat>>
    var pgNumPerOsd: map<int, int>
    var pgDomain: seq<seq<Domain>>
    var pgs: seq<PgConfig>

    ghost function Value(): Books
      reads this
    {
      Books(domainPgNum, pgOnDomain, pgNumPerOsd, pgDomain)
    }

    ghost predicate Valid(plan: seq<seq<int>>)
      reads this
    {
      && TreeOk(tree, home, names) && Consistent(Value(), plan, home, names)
      && |pgs| == |plan| < MAX_INT32
    }

    /** getDomainPg */
    constructor (tree: seq<Node>, size: nat, want: nat, pgs: seq<PgConfig>)
      requires TreeWf(tree) && |pgs| < MAX_INT32
      requires forall p :: 0 <= p < |pgs| ==> SpreadIn(pgs[p].osdList, tree)
      ensures Valid(Lists(pgs)) && this.pgs == pgs && names == Names(tree)
      ensures this.tree == tree && this.size == size && this.want == want
    {
      this.tree, this.size, this.want, this.pgs, this.names := tree, size, want, pgs, Names(tree);
      var home', num, on, osds := ReadTree(tree);
      home, domainPgNum, pgOnDomain, pgNumPerOsd, pgDomain := home', num, on, osds, Empties(|pgs|);
      new;
      FreshConsistent(Value(), home, names, |pgs|);
      CountGroups();
    }

    /** The second loop of getDomainPg. */
    method CountGroups()
      requires Valid(Empties(|pgs|)) && forall p :: 0 <= p < |pgs| ==> SpreadIn(pgs[p].osdList, tree)
      modifies this`domainPgNum, this`pgOnDomain, this`pgNumPerOsd, this`pgDomain
      ensures Valid(Lists(pgs))
    {
      ghost var plan: seq<seq<int>> := Empties(|pgs|);
      for p := 0 to |pgs|
        invariant Valid(plan)
        invariant forall q :: 0 <= q < |pgs| ==> plan[q] == if q < p then pgs[q].osdList else []
      {
        CountGroup(p, plan);
        plan := plan[p := pgs[p].osdList];
      }
      assert plan == Lists(pgs);
    }

    method CountGroup(p: nat, ghost plan: seq<seq<int>>)
      requires Valid(plan) && p < |pgs| && plan[p] == [] && SpreadIn(pgs[p].osdList, tree)
      modifies this`domainPgNum, this`pgOnDomain, this`pgNumPerOsd, this`pgDomain
      ensures Valid(plan[p := pgs[p].osdList])
    {
      var osdList := pgs[p].osdList;
      SpreadHome(osdList, tree, home, names);
      assert plan[p := osdList[..0]] == plan;
      for k := 0 to |osdList|
        invariant Valid(plan[p := osdList[..k]])
      {
        CountMember(p, osdList, k, plan[p := osdList[..k]]);
        Overwrite(plan, p, osdList[..k], osdList[..k + 1]);
      }
      assert osdList[..|osdList|] == osdList;
    }

    method CountMember(p: nat, osdList: seq<int>, k: nat, ghost plan: seq<seq<int>>)
      requires Valid(plan) && p < |pgs| && k < |osdList| && plan[p] == osdList[..k] && Spread(osdList, home)
      modifies this`domainPgNum, this`pgOnDomain, this`pgNumPerOsd, this`pgDomain
      ensures Valid(plan[p := osdList[..k + 1]])
    {
      var osd := osdList[k];
      NextIsNew(pgDomain, plan, home, p, osdList, k);
      assert HomeKnown(home, names, osd);
      AddedConsistent(Value(), plan, home, names, p, osd);
      assert osdList[..k + 1] == plan[p] + [osd];
      RecordAdd(p, home[osd], osd);
    }

    /** The four maps for one member more. */
    method RecordAdd(p: nat, d: Domain, osd: int)
      requires p < |pgDomain| && d in domainPgNum && d in pgOnDomain && osd in pgNumPerOsd
      modifies this`domainPgNum, this`pgOnDomain, this`pgNumPerOsd, this`pgDomain
      ensures Value() == Added(old(Value()), p, d, osd)
    {
      domainPgNum := Counted(domainPgNum, d, 1);
      pgOnDomain := WithGroup(pgOnDomain, d, p);
      pgDomain := pgDomain[p := pgDomain[p] + [d]];
      pgNumPerOsd := OneMore(pgNumPerOsd, osd);
    }

    /** A missing key of a map reads as zero or as the empty list. */
    method Default(d: Domain, osd: int)
      modifies this`domainPgNum, this`pgOnDomain, this`pgNumPerOsd
      ensures domainPgNum.Keys == old(domainPgNum.Keys) + {d} && pgOnDomain.Keys == old(pgOnDomain.Keys) + {d}
      ensures pgNumPerOsd.Keys == old(pgNumPerOsd.Keys) + {osd}
    {
      if d !in domainPgNum { domainPgNum := domainPgNum[d := 0]; }
      if d !in pgOnDomain { pgOnDomain := pgOnDomain[d := []]; }
      if osd !in pgNumPerOsd { pgNumPerOsd := pgNumPerOsd[osd := 0]; }
    }

    /** The domains of group p: as many as members, all known. */
    lemma DomainsOf(plan: seq<seq<int>>, p: nat)
      requires Valid(plan) && p < |plan|
      ensures p < |pgDomain| && |plan[p]| <= |names| && "" !in pgDomain[p]
      ensures (forall d :: d in names ==> d in pgDomain[p]) <==> |names| <= |plan[p]|
    {
      GroupAt(pgDomain, plan, home, p);
      MembersAtMost(pgDomain[p], plan[p], home, names);
    }

    /** A group in all three candidates has three members. */
    lemma InAllThree(plan: seq<seq<int>>, p: nat, a: Domain, b: Domain, c: Domain)
      requires Valid(plan) && p < |plan| && Offered(names, a, b, c) && p < |pgDomain|
      ensures a in pgDomain[p] && b in pgDomain[p] && c in pgDomain[p] ==> |plan[p]| >= 3
    {
      DomainsOf(plan, p);
      GroupAt(pgDomain, plan, home, p);
      ThreeIn(pgDomain[p], Homes(plan[p], home), a, b, c);
    }

    /** The name picked for group p: none exactly when there are fewer than three domains and
        the group has a member in each. */
    lemma PickFor(plan: seq<seq<int>>, p: nat, a: Domain, b: Domain, c: Domain)
      requires Valid(plan) && p < |plan| && Offered(names, a, b, c)
      ensures p < |pgDomain| && |plan[p]| <= |names|
      ensures |names| < 3 ==> c == "" && Pick(pgDomain[p], a, b, c).Chosen? && c !in pgDomain[p]
      ensures Pick(pgDomain[p], a, b, c) == Chosen("") <==> |names| < 3 && |names| <= |plan[p]|
      ensures Pick(pgDomain[p], a, b, c).Chosen? && Pick(pgDomain[p], a, b, c) != Chosen("") ==>
                Pick(pgDomain[p], a, b, c).domain in names
    {
      DomainsOf(plan, p);
      PickOffered(names, pgDomain[p], a, b, c);
    }

    /** The domain picked for group p is the idlest it is not in. */
    lemma PickIsIdlest(plan: seq<seq<int>>, p: nat, num: map<Domain, int>, a: Domain, b: Domain, c: Domain)
      requires Valid(plan) && p < |plan| && Ranked(num, a, b, c) && p < |pgDomain|
      requires Pick(pgDomain[p], a, b, c).Chosen? && Pick(pgDomain[p], a, b, c).domain in num
      ensures IdlestNew(plan[p], home, num, Pick(pgDomain[p], a, b, c).domain)
    {
      GroupAt(pgDomain, plan, home, p);
      PickIdlest(num, pgDomain[p], a, b, c);
      forall d
        ensures Houses(plan[p], home, d) <==> d in pgDomain[p]
      {
        NamedIn(pgDomain[p], plan[p], home, d);
      }
    }

    /** getMinPgOsd for a domain that does not exist. */
    method NoSuchDomain(ghost plan: seq<seq<int>>) returns (osd: int)
      requires Valid(plan)
      ensures osd == 0
    {
      osd := GetMinPgOsd(tree, "", pgNumPerOsd);
      assert forall o :: InDomain(tree, "", o) ==> o in home && HomeKnown(home, names, o);
    }

    /** A round of addPgOsd that picked no name. */
    method AddOut(p: nat, ghost plan: seq<seq<int>>) returns (osd: int)
      requires Valid(plan) && p < |pgDomain|
      modifies this`domainPgNum, this`pgOnDomain, this`pgNumPerOsd, this`pgDomain
      ensures osd == 0 && pgDomain == old(pgDomain)[p := old(pgDomain[p]) + [""]]
    {
      osd := NoSuchDomain(plan);
      Default("", osd);
      RecordAdd(p, "", osd);
    }

    /** One member more for group p: the least loaded OSD of domain d. */
    method AddMember(p: nat, d: Domain, ghost plan: seq<seq<int>>) returns (osd: int)
      requires Valid(plan) && p < |plan| && d in names && d !in pgDomain[p]
      modifies this`domainPgNum, this`pgOnDomain, this`pgNumPerOsd, this`pgDomain
      ensures Valid(plan[p := plan[p] + [osd]])
      ensures osd in home && home[osd] == d
      ensures LeastUsed(plan, home, osd)
      ensures pgDomain == old(pgDomain)[p := old(pgDomain[p]) + [d]]
    {
      osd := FewestGroups(d, plan);
      AddedConsistent(Value(), plan, home, names, p, osd);
      RecordAdd(p, d, osd);
    }

    method FewestGroups(d: Domain, ghost plan: seq<seq<int>>) returns (osd: int)
      requires Valid(plan) && d in names
      ensures osd in home && home[osd] == d && LeastUsed(plan, home, osd)
    {
      osd := GetMinPgOsd(tree, d, pgNumPerOsd);
      assert HasOsd(tree, d);
      ghost var o :| InDomain(tree, d, o);
      assert OsdTrue(pgNumPerOsd, plan, o);
      HoldingAtMost(plan, o);
      forall o | o in home && home[o] == d
        ensures Holding(plan, osd) <= Holding(plan, o)
      {
        assert InDomain(tree, home[o], o) && OsdTrue(pgNumPerOsd, plan, o) && OsdTrue(pgNumPerOsd, plan, osd);
      }
    }

    /** One round of the loop of addPgOsd. */
    method AddFrom(p: nat, a: Domain, b: Domain, c: Domain, list: seq<int>, ghost plan: seq<seq<int>>) returns (list': seq<int>)
      requires Valid(plan) && p < |plan| && plan[p] == list
      requires Pick(pgDomain[p], a, b, c).Chosen? ==> Pick(pgDomain[p], a, b, c).domain in names
      modifies this`domainPgNum, this`pgOnDomain, this`pgNumPerOsd, this`pgDomain
      ensures Valid(plan[p := list']) && list <= list' && |list'| <= |list| + 1
      ensures |pgDomain| == |old(pgDomain)| && pgDomain[p] == Extended(old(pgDomain[p]), a, b, c)
      ensures |list'| == |list| + 1 || (a in pgDomain[p] && b in pgDomain[p] && c in pgDomain[p])
      ensures |list'| > |list| ==> list'[|list|] in home && LeastUsed(plan, home, list'[|list|])
      ensures |list'| > |list| ==> Chosen(home[list'[|list|]]) == old(Pick(pgDomain[p], a, b, c))
    {
      list' := list;
      assert plan[p := list] == plan;
      var choice := Pick(pgDomain[p], a, b, c);
      if choice.Chosen? {
        var addOsd := AddMember(p, choice.domain, plan);
        list' := list + [addOsd];
      }
    }

    /** One round of the loop of addPgOsd. With fewer than three domains, a group that is in all
        of them gets OSD 0. */
    method AddRound(p: nat, a: Domain, b: Domain, c: Domain, list: seq<int>, ghost plan: seq<seq<int>>,
                    ghost num: map<Domain, int>)
      returns (list': seq<int>, escaped: bool)
      requires Valid(plan) && p < |plan| && Offered(names, a, b, c) && plan[p] == list
      requires Ranked(num, a, b, c) && num.Keys == names
      modifies this`domainPgNum, this`pgOnDomain, this`pgNumPerOsd, this`pgDomain
      ensures escaped <==> |names| < 3 && |names| <= |list|
      ensures escaped ==> list' == list + [0]
      ensures |pgDomain| == |old(pgDomain)| && (escaped ==> Pick(pgDomain[p], a, b, c).NoChoice?)
      ensures !escaped ==> Valid(plan[p := list']) && list <= list' && |list'| <= |list| + 1 && |list'| <= |names|
      ensures !escaped ==> pgDomain[p] == Extended(old(pgDomain[p]), a, b, c)
      ensures !escaped ==> |list'| == |list| + 1 || (a in pgDomain[p] && b in pgDomain[p] && c in pgDomain[p])
      ensures |names| < 3 ==> |list'| == |list| + 1
      ensures !escaped && |list'| > |list| ==> JoinsAt(plan, list', home, num, |list|)
    {
      PickFor(plan, p, a, b, c);
      escaped := Pick(pgDomain[p], a, b, c) == Chosen("");
      if escaped {
        OutOnce(names, pgDomain[p], a, b, c);
        var addOsd := AddOut(p, plan);
        list' := list + [addOsd];
      } else {
        if Pick(pgDomain[p], a, b, c).Chosen? {
          PickIsIdlest(plan, p, num, a, b, c);
        }
        list' := AddFrom(p, a, b, c, list, plan);
        assert list'[..|list|] == list;
        DomainsOf(plan[p := list'], p);
      }
    }

    /** The loop of addPgOsd: members from the three candidates, until the group is full or
        has one in each of them. It leaves the tree, for OSD 0, exactly when there are fewer
        than three domains and fewer than members wanted; further rounds then pick nothing. */
    method AddMembers(p: nat, a: Domain, b: Domain, c: Domain, osdList: seq<int>, ghost plan: seq<seq<int>>)
      returns (list: seq<int>, escaped: bool)
      requires Valid(plan) && p < |plan| && Offered(names, a, b, c) && plan[p] == osdList && Ranked(domainPgNum, a, b, c)
      modifies this`domainPgNum, this`pgOnDomain, this`pgNumPerOsd, this`pgDomain
      ensures escaped <==> |osdList| < want && |names| < want && |names| < 3
      ensures escaped ==> osdList < list && list[|list| - 1] == 0
      ensures !escaped ==> Valid(plan[p := list])
      ensures !escaped ==> list == osdList || Grown(osdList, list, want)
      ensures !escaped ==> Filled(old(pgDomain[p]), pgDomain[p], a, b, c, |osdList|, |list|) && Enough(list, want)
      ensures !escaped ==> Joins(plan, list, home, old(domainPgNum), |osdList|)
    {
      list, escaped := osdList, false;
      ghost var num := domainPgNum;
      ghost var domains := pgDomain[p];
      assert plan[p := list] == plan;
      var rounds := if want > |osdList| then want - |osdList| else 0;
      for i := 0 to rounds
        invariant osdList <= list && |list| <= |osdList| + i && !escaped
        invariant Valid(plan[p := list])
        invariant pgDomain[p] == Picked(domains, a, b, c, i)
        invariant |list| == |osdList| + i || (a in pgDomain[p] && b in pgDomain[p] && c in pgDomain[p])
        invariant |names| < 3 ==> |list| == |osdList| + i && (i > 0 ==> |list| <= |names|)
        invariant Joins(plan, list, home, num, |osdList|)
      {
        var list';
        list', escaped := AddRound(p, a, b, c, list, plan[p := list], num);
        Overwrite(plan, p, list, list');
        if !escaped {
          JoinsOn(plan, p, list, list', home, num, |osdList|);
        }
        list := list';
        if escaped { return; }
      }
      InAllThree(plan[p := list], p, a, b, c);
    }

    /** The group's domains are those picked, round by round, and it has all members it wants or
        one in each candidate. */
    ghost predicate Filled(was: seq<Domain>, now: seq<Domain>, a: Domain, b: Domain, c: Domain, had: nat, has: nat) {
      && now == Picked(was, a, b, c, if want > had then want - had else 0)
      && (has >= want || (a in now && b in now && c in now))
    }

    /** addPgOsd */
    method AddPgOsd(p: nat, a: Domain, b: Domain, c: Domain, ghost plan: seq<seq<int>>)
      returns (isRemap: bool, escaped: bool, ghost list: seq<int>)
      requires Valid(plan) && p < |plan| && Offered(names, a, b, c) && plan[p] == pgs[p].osdList
      requires Ranked(domainPgNum, a, b, c) && !InState(pgs[p].state, REMAPPED) && !InState(pgs[p].state, DOWN)
      modifies this
      ensures |pgs| == |old(pgs)| && pgs == old(pgs)[p := pgs[p]]
      ensures escaped <==> |plan[p]| < want && |names| < want && |names| < 3
      ensures escaped ==> isRemap && SentOut(old(pgs[p]), pgs[p], size)
      ensures !escaped ==> Valid(plan[p := list])
      ensures !escaped ==> Filled(old(pgDomain[p]), pgDomain[p], a, b, c, |plan[p]|, |list|)
      ensures !escaped ==> Enough(list, want) && (list == plan[p] || Grown(plan[p], list, want))
      ensures !escaped ==> Joins(plan, list, home, old(domainPgNum), |plan[p]|)
      ensures !escaped ==> Accounted(old(pgs[p]), pgs[p], list, size, want) && (isRemap <==> pgs[p] != old(pgs[p]))
      ensures |plan[p]| >= want ==> pgs == old(pgs)
    {
      var newOsdList;
      newOsdList, escaped := AddMembers(p, a, b, c, pgs[p].osdList, plan);
      list := newOsdList;
      isRemap := |newOsdList| > |pgs[p].osdList|;
      if isRemap {
        var now := Replan(pgs[p], newOsdList, size);
        pgs := pgs[p := now];
      }
    }

    /** One member of group p leaves domain src for the least loaded OSD of domain dst. */
    method MoveMember(p: nat, src: Domain, dst: Domain, osdList: seq<int>, ghost plan: seq<seq<int>>) returns (list: seq<int>)
      requires Valid(plan) && p < |plan| && src in names && dst in names && plan[p] == osdList
      requires src in pgDomain[p] && dst !in pgDomain[p]
      modifies this`domainPgNum, this`pgOnDomain, this`pgNumPerOsd, this`pgDomain
      ensures Valid(plan[p := list]) && OneSwapped(osdList, list) && SwappedOut(osdList, list, home, src, dst)
      ensures Relocated(osdList, list, home, src, dst) && LeastUsed(plan, home, list[|list| - 1])
    {
      var newOsdList, srcOsd, dstOsd := ChooseSwap(p, src, dst, osdList, plan);
      ghost var before := Value();
      var onSrc, domains := RecordSwap(p, src, dst, srcOsd, dstOsd);
      SwappedConsistent(before, plan, home, names, p, srcOsd, dstOsd, onSrc, domains);
      list := newOsdList + [dstOsd];
    }

    method ChooseSwap(p: nat, src: Domain, dst: Domain, osdList: seq<int>, ghost plan: seq<seq<int>>)
      returns (rest: seq<int>, srcOsd: int, dstOsd: int)
      requires Valid(plan) && p < |plan| && src in names && dst in names && plan[p] == osdList
      requires src in pgDomain[p] && dst !in pgDomain[p]
      ensures rest == Without(osdList, home, src) && OneSwapped(osdList, rest + [dstOsd])
      ensures Relocated(osdList, rest + [dstOsd], home, src, dst) && LeastUsed(plan, home, dstOsd)
      ensures srcOsd in osdList && srcOsd in home && home[srcOsd] == src && dstOsd in home && home[dstOsd] == dst
      ensures {src, dst} <= domainPgNum.Keys && {src, dst} <= pgOnDomain.Keys && {srcOsd, dstOsd} <= pgNumPerOsd.Keys
      ensures src != dst && srcOsd != dstOsd && p < |pgDomain|
    {
      rest, srcOsd := SplitOff(osdList, home, src);
      MemberThere(pgDomain, plan, home, p, src);
      dstOsd := FewestGroups(dst, plan);
      SwapIsOne(osdList, home, src, dstOsd);
    }

    /** A transfer that picked no name: the members of src leave, and OSD 0 comes. */
    method MoveOut(p: nat, src: Domain, osdList: seq<int>, ghost plan: seq<seq<int>>) returns (list: seq<int>)
      requires Valid(plan) && p < |plan| && src in names && plan[p] == osdList && src in pgDomain[p]
      modifies this`domainPgNum, this`pgOnDomain, this`pgNumPerOsd, this`pgDomain
      ensures list == Without(osdList, home, src) + [0]
    {
      var rest, srcOsd := SplitOff(osdList, home, src);
      MemberThere(pgDomain, plan, home, p, src);
      var dstOsd := NoSuchDomain(plan);
      Default("", dstOsd);
      var onSrc, domains := RecordSwap(p, src, "", srcOsd, dstOsd);
      list := rest + [dstOsd];
    }

    /** transferPG: the group gives up its member in the busiest domain for the least loaded
        OSD of the first candidate domain it is not in; with none it is left alone. It leaves
        the tree exactly when there are fewer than three domains and it is in all of them. */
    method TransferPG(p: nat, max: Domain, a: Domain, b: Domain, c: Domain, ghost plan: seq<seq<int>>)
      returns (moved: bool, escaped: bool, ghost list: seq<int>)
      requires Valid(plan) && p < |plan| && max in names && Offered(names, a, b, c) && plan[p] == pgs[p].osdList
      requires max in pgDomain[p] && Transferable(pgs[p]) && Ranked(domainPgNum, a, b, c)
      modifies this
      ensures |pgs| == |old(pgs)| && pgs == old(pgs)[p := pgs[p]]
      ensures moved <==> old(Pick(pgDomain[p], a, b, c)).Chosen?
      ensures escaped <==> |names| < 3 && |names| <= |plan[p]|
      ensures escaped ==> moved && SentOut(old(pgs[p]), pgs[p], size)
      ensures escaped ==> pgs[p].newOsdList == Without(plan[p], home, max) + [0]
      ensures !escaped ==> Valid(plan[p := list])
      ensures !escaped ==> Accounted(old(pgs[p]), pgs[p], list, size, want) && (moved <==> pgs[p] != old(pgs[p]))
      ensures !moved ==> pgs == old(pgs) && Value() == old(Value()) && plan[p := list] == plan
      ensures moved && !escaped ==>
                && SwappedOut(plan[p], list, home, max, old(Pick(pgDomain[p], a, b, c)).domain)
                && OneSwapped(plan[p], list) && LeftDomain(plan, plan[p := list], home, old(domainPgNum), max)
    {
      list := plan[p];
      assert plan[p := list] == plan;
      PickFor(plan, p, a, b, c);
      var choice := Pick(pgDomain[p], a, b, c);
      if choice.NoChoice? { return false, false, list; }
      var newOsdList;
      if choice.domain == "" {
        newOsdList := MoveOut(p, max, pgs[p].osdList, plan);
        var now := ReplanSwap(pgs[p], newOsdList, size);
        pgs := pgs[p := now];
        return true, true, newOsdList;
      }
      ghost var num := domainPgNum;
      PickIsIdlest(plan, p, num, a, b, c);
      newOsdList := MoveMember(p, max, choice.domain, pgs[p].osdList, plan);
      list := newOsdList;
      LeftFor(plan, p, list, home, num, max, choice.domain);
      var now := ReplanSwap(pgs[p], newOsdList, size);
      pgs := pgs[p := now];
      return true, false, list;
    }

    /** The books and groups part way through a run that started from the groups in start. */
    ghost predicate Tracks(start: seq<PgConfig>, plan: seq<seq<int>>, remap: bool)
      reads this
    {
      Valid(plan) && AllAccounted(start, pgs, plan, size, want) && (remap <==> Differs(start, pgs))
    }

    method Candidates(keys: seq<Domain>, ghost plan: seq<seq<int>>) returns (a: Domain, b: Domain, c: Domain)
      requires Valid(plan) && KeyOrder(keys, names)
      ensures Idlest(domainPgNum, keys, a, b, c) && Offered(names, a, b, c) && Ranked(domainPgNum, a, b, c)
    {
      KeysAll(keys, names);
      forall d | d in domainPgNum
        ensures domainPgNum[d] < MAX_INT32
      {
        assert OnDomain(Value(), d);
        LoadFits(Value(), d);
      }
      a, b, c := Top3MinValue(domainPgNum, keys);
      OfferedBy(domainPgNum, keys, names, a, b, c);
      RankedBy(domainPgNum, keys, a, b, c);
    }

    /** One round of the first loop of reblancePool. */
    method AddIfShort(p: nat, keys: seq<Domain>, ghost start: seq<PgConfig>, ghost plan: seq<seq<int>>, remap: bool)
      returns (remap': bool, escaped: bool, ghost plan': seq<seq<int>>)
      requires Tracks(start, plan, remap) && p < |pgs| && KeyOrder(keys, names)
      modifies this
      ensures escaped <==> old(Short(pgs[p], want)) && |names| < want && |names| < 3
      ensures escaped ==> remap' && |pgs| == |start| && SentOut(start[p], pgs[p], size)
      ensures !escaped ==> Tracks(start, plan', remap')
      ensures !old(Short(pgs[p], want)) ==> pgs == old(pgs) && remap' == remap && plan' == plan
      ensures |pgs| == |old(pgs)| && pgs == old(pgs)[p := pgs[p]]
      ensures !escaped ==> plan' == plan[p := plan'[p]] && (!old(Eligible(pgs[p])) ==> pgs == old(pgs) && plan' == plan)
      ensures !escaped ==> plan' == plan || Addition(plan, plan', home, names, want)
      ensures !escaped && old(Eligible(pgs[p])) ==>
                && old(pgs[p]) == start[p] && Enough(plan'[p], want)
                && (plan'[p] == start[p].osdList || Grown(start[p].osdList, plan'[p], want))
    {
      if InState(pgs[p].state, REMAPPED) || InState(pgs[p].state, DOWN) || |pgs[p].osdList| == want {
        if Eligible(pgs[p]) {
          PlannedOnce(start[p], pgs[p], plan[p], size, want);
        }
        return remap, false, plan;
      }
      PlannedOnce(start[p], pgs[p], plan[p], size, want);
      var a, b, c := Candidates(keys, plan);
      ghost var before := pgs;
      ghost var list;
      var added;
      BooksLoads(Value(), plan, home, names);
      added, escaped, list := AddPgOsd(p, a, b, c, plan);
      plan' := plan[p := list];
      remap' := remap || added;
      if !escaped {
        AdditionFor(plan, p, list, home, names, want);
        AccountStep(start, before, plan, size, want, p, pgs[p], list);
      }
    }

    /** Nothing on domain m can move to any of the candidates. */
    ghost predicate Stuck(m: Domain, a: Domain, b: Domain, c: Domain)
      reads this
    {
      m in pgOnDomain && NoneFree(pgs, pgDomain, pgOnDomain[m], |pgOnDomain[m]|, a, b, c)
    }

    /** One group of the busiest domain. */
    method TryTransfer(p: nat, m: Domain, a: Domain, b: Domain, c: Domain, ghost start: seq<PgConfig>,
                       ghost plan: seq<seq<int>>, ghost remap: bool)
      returns (moved: bool, escaped: bool, ghost plan': seq<seq<int>>)
      requires Tracks(start, plan, remap) && m in names && Offered(names, a, b, c) && p < |pgDomain| && m in pgDomain[p]
      requires Ranked(domainPgNum, a, b, c)
      modifies this
      ensures moved <==> !old(Pinned(pgs, pgDomain, p, a, b, c))
      ensures escaped <==> moved && |names| < 3 && |names| <= |plan[p]|
      ensures escaped ==> |pgs| == |start| && SentOut(start[p], pgs[p], size)
      ensures !escaped ==> Tracks(start, plan', remap || moved)
      ensures !moved ==> plan' == plan && Value() == old(Value()) && pgs == old(pgs)
      ensures moved && !escaped ==> LeftDomain(plan, plan', home, old(domainPgNum), m)
      ensures moved && !escaped ==> OneReplanned(start, old(pgs), pgs, p)
    {
      if !Transferable(pgs[p]) { return false, false, plan; }
      PlannedOnce(start[p], pgs[p], plan[p], size, want);
      PickFor(plan, p, a, b, c);
      ghost var before := pgs;
      ghost var list;
      moved, escaped, list := TransferPG(p, m, a, b, c, plan);
      plan' := plan[p := list];
      if !escaped {
        AccountStep(start, before, plan, size, want, p, pgs[p], list);
      }
    }

    /** With fewer than three domains the first group that can move is the first that is
        transferable, because there is always a name it has no member in. */
    lemma FewPinned(plan: seq<seq<int>>, p: nat, a: Domain, b: Domain, c: Domain)
      requires Valid(plan) && p < |plan| && Offered(names, a, b, c) && |names| < 3
      ensures Pinned(pgs, pgDomain, p, a, b, c) <==> !Transferable(pgs[p])
    {
      PickFor(plan, p, a, b, c);
    }

    /** The inner loop: the first group of the busiest domain that can move does. It leaves the
        tree exactly when there are fewer than three domains and it is in all of them. */
    method TransferFrom(m: Domain, a: Domain, b: Domain, c: Domain, ghost start: seq<PgConfig>, ghost plan: seq<seq<int>>,
                        ghost remap: bool)
      returns (moved: bool, escaped: bool, ghost plan': seq<seq<int>>, g: nat)
      requires Tracks(start, plan, remap) && m in names && Offered(names, a, b, c) && Ranked(domainPgNum, a, b, c)
      modifies this
      ensures moved ==> g < |start| && old(FirstFree(pgs, pgDomain, pgOnDomain[m], g, a, b, c))
      ensures escaped <==> moved && |names| < 3 && |names| <= |plan[g]|
      ensures escaped ==> |pgs| == |start| && SentOut(start[g], pgs[g], size)
      ensures !escaped ==> Tracks(start, plan', remap || moved)
      ensures !moved ==> plan' == plan && Value() == old(Value()) && pgs == old(pgs) && Stuck(m, a, b, c)
      ensures moved && !escaped ==> LeftDomain(plan, plan', home, old(domainPgNum), m)
      ensures moved && !escaped ==> OneReplanned(start, old(pgs), pgs, g)
    {
      var groups := pgOnDomain[m];
      ghost var books, before := Value(), pgs;
      for i := 0 to |groups|
        invariant Value() == books && pgs == before && Tracks(start, plan, remap)
        invariant NoneFree(pgs, pgDomain, groups, i, a, b, c)
      {
        g := groups[i];
        OnList(Value(), m, i);
        moved, escaped, plan' := TryTransfer(groups[i], m, a, b, c, start, plan, remap);
        if moved { return; }
      }
      return false, false, plan, 0;
    }

    /** Nothing is left to do: all domains hold the average or one more, or nothing is placed,
        or no group can leave the busiest domain for one of the three idlest. */
    ghost predicate AtRest(avg: int, keys: seq<Domain>, m: Domain, a: Domain, b: Domain, c: Domain)
      reads this
    {
      || (forall d :: d in domainPgNum ==> avg <= domainPgNum[d] <= avg + 1)
      || (forall d :: d in domainPgNum ==> domainPgNum[d] <= 0)
      || (&& m in domainPgNum && (forall d :: d in domainPgNum ==> domainPgNum[d] <= domainPgNum[m])
          && Idlest(domainPgNum, keys, a, b, c) && Stuck(m, a, b, c))
    }

    /** One round of the second loop of reblancePool. */
    method TransferRound(keys: seq<Domain>, avg: int, ghost start: seq<PgConfig>, ghost plan: seq<seq<int>>, ghost remap: bool)
      returns (moved: bool, escaped: bool, ghost plan': seq<seq<int>>, g: nat, m: Domain, a: Domain, b: Domain, c: Domain)
      requires Tracks(start, plan, remap) && KeyOrder(keys, names)
      modifies this
      ensures moved ==> Uneven(old(domainPgNum), keys, avg, m, a, b, c)
      ensures moved ==> m in old(pgOnDomain) && g < |start|
      ensures moved ==> FirstFree(old(pgs), old(pgDomain), old(pgOnDomain)[m], g, a, b, c)
      ensures escaped <==> moved && |names| < 3 && |names| <= |plan[g]|
      ensures escaped ==> |pgs| == |start| && SentOut(start[g], pgs[g], size)
      ensures !escaped ==> Tracks(start, plan', remap || moved)
      ensures !moved ==> plan' == plan && Value() == old(Value()) && pgs == old(pgs) && AtRest(avg, keys, m, a, b, c)
      ensures moved && !escaped ==> LeftDomain(plan, plan', home, old(domainPgNum), m)
      ensures moved && !escaped ==> OneReplanned(start, old(pgs), pgs, g)
    {
      m := GetMaxValue(domainPgNum, keys);
      a, b, c := Candidates(keys, plan);
      moved, escaped, plan', g := false, false, plan, 0;
      if m in domainPgNum {
        if domainPgNum[a] < avg || domainPgNum[m] > avg + 1 {
          moved, escaped, plan', g := TransferFrom(m, a, b, c, start, plan, remap);
        } else {
          AllBetween(domainPgNum, keys, avg, m, a, b, c);
        }
      }
    }

    /** The first loop after some groups: the plans it passed through, and nothing else while none
        of the groups was short. */
    ghost predicate InAdding(start: seq<PgConfig>, plan: seq<seq<int>>, adds: seq<seq<seq<int>>>, done: seq<nat>, remap: bool)
      reads this
    {
      && Tracks(start, plan, remap) && |pgs| == |start| && Fed(start, pgs, plan, want, done)
      && Additions(adds, home, names, want) && adds[0] == Lists(start) && adds[|adds| - 1] == plan
      && (NoneShort(start, want, done) ==> pgs == start && !remap && plan == Lists(start))
      && (|names| < want && |names| < 3 ==> NoneShort(start, want, done))
    }

    method AddNext(order: seq<nat>, i: nat, keys: seq<Domain>, ghost start: seq<PgConfig>, ghost plan: seq<seq<int>>,
                   ghost adds: seq<seq<seq<int>>>, remap: bool)
      returns (remap': bool, escaped: bool, ghost plan': seq<seq<int>>, ghost adds': seq<seq<seq<int>>>)
      requires i < |order| && order[i] < |pgs| && KeyOrder(keys, names)
      requires InAdding(start, plan, adds, order[..i], remap)
      modifies this
      ensures escaped <==> |names| < want && |names| < 3 && Short(start[order[i]], want)
      ensures escaped ==> remap' && |pgs| == |start| && SentOut(start[order[i]], pgs[order[i]], size)
      ensures !escaped ==> InAdding(start, plan', adds', order[..i + 1], remap')
    {
      NoneShortStep(start, want, order, i);
      ghost var now := pgs;
      remap', escaped, plan' := AddIfShort(order[i], keys, start, plan, remap);
      adds' := adds;
      if !escaped {
        FedStep(start, now, plan, want, order, i, pgs, plan'[order[i]]);
        if plan' != plan {
          AdditionsStep(adds, plan', home, names, want);
          adds' := adds + [plan'];
        }
      }
    }

    /** The first loop of reblancePool, up to the first group that leaves the tree. */
    method AddAll(order: seq<nat>, orders: nat -> seq<Domain>, ghost start: seq<PgConfig>)
      returns (isRemap: bool, escaped: bool, ghost plan: seq<seq<int>>, g: nat, ghost adds: seq<seq<seq<int>>>)
      requires Tracks(start, Lists(pgs), false)
      requires forall i :: 0 <= i < |order| ==> order[i] < |pgs|
      requires KeyOrders(orders, names)
      modifies this
      ensures escaped <==> |names| < want && |names| < 3 && !NoneShort(old(pgs), want, order)
      ensures escaped ==> isRemap && g < |pgs| == |start| && SentOut(start[g], pgs[g], size)
      ensures !escaped ==> Tracks(start, plan, isRemap)
      ensures !escaped ==> Fed(start, pgs, plan, want, order)
      ensures Additions(adds, home, names, want) && adds[0] == Lists(old(pgs)) && (!escaped ==> adds[|adds| - 1] == plan)
      ensures NoneShort(old(pgs), want, order) ==> pgs == old(pgs) && !isRemap && plan == Lists(old(pgs))
    {
      isRemap, escaped, plan, g := false, false, Lists(pgs), 0;
      adds := [plan];
      assert pgs == start;
      for i := 0 to |order|
        invariant InAdding(start, plan, adds, order[..i], isRemap) && !escaped
      {
        g := order[i];
        NoneShortStep(start, want, order, i);
        ghost var adds';
        isRemap, escaped, plan, adds' := AddNext(order, i, orders(i), start, plan, adds, isRemap);
        if escaped { return; }
        adds := adds';
      }
      assert order[..|order|] == order;
    }

    /** A round of the second loop is a shift of the plan and replans one group more. */
    lemma RoundShifts(trace: seq<seq<seq<int>>>, plan: seq<seq<int>>, num: map<Domain, int>, keys: seq<Domain>, avg: int,
                      m: Domain, a: Domain, b: Domain, c: Domain,
                      start: seq<PgConfig>, was: seq<PgConfig>, now: seq<PgConfig>, g: nat)
      requires Shifts(trace, home, names, avg) && num == LoadsOf(trace[|trace| - 1], home, names)
      requires Uneven(num, keys, avg, m, a, b, c) && LeftDomain(trace[|trace| - 1], plan, home, num, m)
      requires OneReplanned(start, was, now, g)
      ensures Shifts(trace + [plan], home, names, avg)
      ensures Replanned(start, now) == Replanned(start, was) + 1 <= |now|
    {
      ShiftsStep(trace, plan, home, names, avg);
      ReplannedStep(start, was, now, g);
      AllReplanned(start, now);
    }

    /** The second loop after some rounds: the plans it passed through, and a group replanned in
        every round. */
    ghost predicate InLoop(start: seq<PgConfig>, trace: seq<seq<seq<int>>>, rounds: nat, remap: bool, avg: int)
      reads this
    {
      && |trace| == rounds + 1 && Shifts(trace, home, names, avg) && Tracks(start, trace[rounds], remap)
      && |start| == |pgs| && rounds <= Replanned(start, pgs) <= |pgs|
    }

    method NextRound(keys: seq<Domain>, avg: int, ghost start: seq<PgConfig>, ghost trace: seq<seq<seq<int>>>, rounds: nat,
                     remap: bool)
      returns (moved: bool, escaped: bool, ghost trace': seq<seq<seq<int>>>, g: nat, m: Domain, a: Domain, b: Domain, c: Domain)
      requires InLoop(start, trace, rounds, remap, avg) && KeyOrder(keys, names)
      modifies this
      ensures escaped ==> moved && g < |pgs| == |start| && SentOut(start[g], pgs[g], size)
      ensures escaped ==> Leaves(trace[rounds], home, names, avg, g)
      ensures moved && !escaped ==> InLoop(start, trace', rounds + 1, true, avg) && trace' == trace + [trace'[rounds + 1]]
      ensures !moved ==> InLoop(start, trace, rounds, remap, avg) && AtRest(avg, keys, m, a, b, c)
    {
      ghost var was, num, plan := pgs, domainPgNum, trace[rounds];
      BooksLoads(Value(), plan, home, names);
      moved, escaped, plan, g, m, a, b, c := TransferRound(keys, avg, start, plan, remap);
      trace' := trace;
      assert moved ==> OffAverage(num, avg, m);
      if moved && !escaped {
        RoundShifts(trace, plan, num, keys, avg, m, a, b, c, start, was, pgs, g);
        trace' := trace + [plan];
      }
    }

    /** The second loop of reblancePool, up to the first group that leaves the tree. */
    method TransferAll(orders: nat -> seq<Domain>, avg: int, ghost start: seq<PgConfig>, ghost plan0: seq<seq<int>>, remap: bool)
      returns (isRemap: bool, escaped: bool, ghost trace: seq<seq<seq<int>>>, g: nat, rounds: nat,
               m: Domain, a: Domain, b: Domain, c: Domain)
      requires Tracks(start, plan0, remap)
      requires KeyOrders(orders, names)
      modifies this
      ensures escaped ==> isRemap && g < |pgs| == |start| && SentOut(start[g], pgs[g], size)
      ensures escaped ==> |trace| == rounds + 1 && Leaves(trace[rounds], home, names, avg, g)
      ensures Shifts(trace, home, names, avg) && |trace| == rounds + 1 && trace[0] == plan0
      ensures !escaped ==> Tracks(start, trace[rounds], isRemap)
      ensures !escaped ==> (forall p :: 0 <= p < |pgs| ==> pgs[p] != start[p]) || AtRest(avg, orders(rounds), m, a, b, c)
    {
      isRemap, escaped, trace, g, rounds, m, a, b, c := remap, false, [plan0], 0, 0, "", "", "", "";
      AllReplanned(start, pgs);
      while rounds < |pgs|
        invariant !escaped && InLoop(start, trace, rounds, isRemap, avg) && trace[0] == plan0
        decreases |start| - rounds
      {
        var moved;
        ghost var trace';
        moved, escaped, trace', g, m, a, b, c := NextRound(orders(rounds), avg, start, trace, rounds, isRemap);
        isRemap := isRemap || moved;
        if escaped || !moved { return; }
        trace, rounds := trace', rounds + 1;
      }
      AllReplanned(start, pgs);
    }

    /** reblancePool. Unless a member leaves the tree, the books agree with the plan throughout;
        every group is untouched or replanned once, growing or swapping one member, into a
        list with all members in distinct known domains; the result says whether any group
        changed. The first loop only adds, until every group it looks at has enough members;
        every round of the second is a move off the busiest domain under an uneven load; the run
        ends at rest, unless every group was replanned. Only with fewer than three domains can a
        member leave the tree; the run is followed up to there. */
    method RebalancePool(order: seq<nat>, adding: nat -> seq<Domain>, moving: nat -> seq<Domain>)
      returns (isRemap: bool, escaped: bool, ghost adds: seq<seq<seq<int>>>, ghost trace: seq<seq<seq<int>>>, g: nat, rounds: nat,
               m: Domain, a: Domain, b: Domain, c: Domain)
      requires Valid(Lists(pgs))
      requires forall i :: 0 <= i < |order| ==> order[i] < |pgs|
      requires KeyOrders(adding, names) && KeyOrders(moving, names)
      modifies this
      ensures |trace| == rounds + 1
      ensures !escaped ==> Valid(trace[rounds]) && AllAccounted(old(pgs), pgs, trace[rounds], size, want)
      ensures !escaped ==> (isRemap <==> Differs(old(pgs), pgs))
      ensures !escaped ==> forall p :: 0 <= p < |pgs| && pgs[p] != old(pgs)[p] ==> Spread(pgs[p].newOsdList, home)
      ensures Additions(adds, home, names, want) && adds[0] == Lists(old(pgs))
      ensures !escaped ==> adds[|adds| - 1] == trace[0] && OnlyAdded(old(pgs), trace[0], want)
      ensures !escaped && names != {} ==> Shifts(trace, home, names, |old(pgs)| * want / |names|)
      ensures !escaped && names != {} ==> AllEnough(old(pgs), trace[rounds], want, order)
      ensures !escaped && names != {} ==>
                || (forall p :: 0 <= p < |pgs| ==> pgs[p] != old(pgs)[p])
                || AtRest(|old(pgs)| * want / |names|, moving(rounds), m, a, b, c)
      ensures escaped ==> |names| < 3 && isRemap && g < |pgs| == |old(pgs)| && SentOut(old(pgs)[g], pgs[g], size)
      ensures 0 < |names| < 3 && |names| < want && !NoneShort(old(pgs), want, order) ==> escaped
      ensures escaped && (|names| >= want || NoneShort(old(pgs), want, order)) ==>
                && names != {} && adds[|adds| - 1] == trace[0] && OnlyAdded(old(pgs), trace[0], want)
                && Shifts(trace, home, names, |old(pgs)| * want / |names|)
                && Leaves(trace[rounds], home, names, |old(pgs)| * want / |names|, g)
    {
      ghost var start := pgs;
      assert |domainPgNum| == |domainPgNum.Keys| == |names|;
      isRemap, escaped, trace, g, rounds, m, a, b, c := false, false, [Lists(pgs)], 0, 0, "", "", "", "";
      adds := trace;
      if |domainPgNum| == 0 { return; }
      var avg := |pgs| * want / |domainPgNum|;
      ghost var plan;
      isRemap, escaped, plan, g, adds := AddAll(order, adding, start);
      if escaped { return; }
      FedAdded(start, pgs, plan, want, order);
      isRemap, escaped, trace, g, rounds, m, a, b, c := TransferAll(moving, avg, start, plan, isRemap);
      if !escaped {
        NewListsSpread(Value(), start, pgs, trace[rounds], size, want, home);
        StillEnough(start, trace, want, order, home, names, avg);
      }
    }

    /** The four maps for one swap. */
    method RecordSwap(p: nat, src: Domain, dst: Domain, srcOsd: int, dstOsd: int) returns (onSrc: seq<nat>, domains: seq<Domain>)
      requires p < |pgDomain| && src != dst && src in pgDomain[p]
      requires {src, dst} <= domainPgNum.Keys && {src, dst} <= pgOnDomain.Keys && {srcOsd, dstOsd} <= pgNumPerOsd.Keys
      modifies this`domainPgNum, this`pgOnDomain, this`pgNumPerOsd, this`pgDomain
      ensures multiset(onSrc) == multiset(old(pgOnDomain[src]))[p := 0]
      ensures multiset(domains) == multiset(old(pgDomain[p])) - multiset{src} + multiset{dst}
      ensures srcOsd != dstOsd ==> Value() == Swapped(old(Value()), p, src, dst, srcOsd, dstOsd, onSrc, domains)
    {
      domainPgNum := Counted(Counted(domainPgNum, src, -1), dst, 1);
      onSrc := RemoveGroup(pgOnDomain[src], p);
      pgOnDomain := WithGroup(pgOnDomain[src := onSrc], dst, p);
      domains := ChangePgDomain(pgDomain[p], src, dst);
      pgDomain := pgDomain[p := domains];
      pgNumPerOsd := OneLess(pgNumPerOsd, srcOsd);
      pgNumPerOsd := OneMore(pgNumPerOsd, dstOsd);
    }
  }

  lemma Overwrite(plan: seq<seq<int>>, p: nat, x: seq<int>, y: seq<int>)
    requires p < |plan|
    ensures plan[p := x][p := y] == plan[p := y]
  {
  }

  /** The order in which the domains happen to be visited. */
  ghost predicate KeyOrder(keys: seq<Domain>, names: set<Domain>) {
    Distinct(keys) && forall d :: d in keys <==> d in names
  }

  /** Each time the domains are visited in some order. */
  ghost predicate KeyOrders(orders: nat -> seq<Domain>, names: set<Domain>) {
    forall i :: KeyOrder(orders(i), names)
  }

  lemma KeysAll(keys: seq<Domain>, names: set<Domain>)
    requires KeyOrder(keys, names)
    ensures |keys| == |names|
  {
    DistinctSize(keys);
    assert Elements(keys) == names;
  }

  /** What addPgOsd writes into the group. */
  method Replan(pg: PgConfig, newOsdList: seq<int>, size: nat) returns (now: PgConfig)
    requires newOsdList != [] && !InState(pg.state, REMAPPED) && !InState(pg.state, DOWN)
    ensures PlannedPg(pg, newOsdList, size) == Touch(now, true) && now != pg
  {
    var s := SetState(pg.state, REMAPPED);
    if |newOsdList| == size { s := s & !UNDERSIZE; }
    now := pg.(version := pg.version + 1, state := s, newOsdList := newOsdList, newCoreIndex := pg.coreIndex);
  }

  /** What transferPG writes into the group, which is not undersized. */
  method ReplanSwap(pg: PgConfig, newOsdList: seq<int>, size: nat) returns (now: PgConfig)
    requires newOsdList != [] && !InState(pg.state, REMAPPED) && !InState(pg.state, DOWN) && !InState(pg.state, UNDERSIZE)
    ensures PlannedPg(pg, newOsdList, size) == Touch(now, true) && now != pg
  {
    now := pg.(version := pg.version + 1, state := SetState(pg.state, REMAPPED), newOsdList := newOsdList,
               newCoreIndex := pg.coreIndex);
    NotUndersize(pg.state);
  }

  lemma NotUndersize(s: Bits)
    requires !InState(s, UNDERSIZE)
    ensures SetState(s, REMAPPED) & !UNDERSIZE == SetState(s, REMAPPED)
  {
  }

  /** The first loop of transferPG: the list without the domain's member, and that member. */
  method SplitOff(list: seq<int>, home: map<int, Domain>, d: Domain) returns (rest: seq<int>, srcOsd: int)
    ensures rest == Without(list, home, d)
    ensures (exists i :: 0 <= i < |list| && list[i] in home && home[list[i]] == d) ==>
              srcOsd in list && srcOsd in home && home[srcOsd] == d
  {
    rest, srcOsd := [], 0;
    for i := 0 to |list|
      invariant rest == Without(list[..i], home, d)
      invariant (exists k :: 0 <= k < i && list[k] in home && home[list[k]] == d) ==>
                  srcOsd in list && srcOsd in home && home[srcOsd] == d
    {
      assert list[..i + 1][..i] == list[..i];
      if list[i] in home && home[list[i]] == d { srcOsd := list[i]; } else { rest := rest + [list[i]]; }
    }
    assert list[..|list|] == list;
  }

  /** removeArrInt applied to a domain's group list. */
  method RemoveGroup(list: seq<nat>, p: nat) returns (r: seq<nat>)
    ensures multiset(r) == multiset(list)[p := 0]
  {
    var arr := new nat[|list|](i requires 0 <= i < |list| => list[i]);
    assert arr[..] == list;
    var left := RemoveArrInt(arr, p);
    r := arr[..left];
  }

  // ---- A run as an event of the pool ---------------------------------------------------------

  ghost function ToMap<V>(ids: seq<PgId>, values: seq<V>): map<PgId, V>
    requires |ids| == |values|
  {
    if ids == [] then map[]
    else ToMap(ids[..|ids| - 1], values[..|ids| - 1])[ids[|ids| - 1] := values[|ids| - 1]]
  }

  lemma {:induction false} ToMapAt<V>(ids: seq<PgId>, values: seq<V>)
    requires |ids| == |values| && Distinct(ids)
    ensures forall p :: 0 <= p < |ids| ==> ids[p] in ToMap(ids, values) && ToMap(ids, values)[ids[p]] == values[p]
    ensures forall id :: id in ToMap(ids, values) ==> id in ids
  {
    if ids != [] {
      var k := |ids| - 1;
      ToMapAt(ids[..k], values[..k]);
      assert ids == ids[..k] + [ids[k]];
    }
  }

  /** The new lists, with nothing for a group that did not change. */
  ghost function Planned(start: seq<PgConfig>, pgs: seq<PgConfig>, plan: seq<seq<int>>): (r: seq<seq<int>>)
    requires |start| == |pgs| == |plan|
    ensures |r| == |pgs| && forall p :: 0 <= p < |pgs| ==> r[p] == if pgs[p] == start[p] then [] else plan[p]
  {
    seq(|pgs|, p requires 0 <= p < |pgs| => if pgs[p] == start[p] then [] else plan[p])
  }

  lemma PlannedAt(lists: map<PgId, seq<int>>, id: PgId, start: PgConfig, now: PgConfig, list: seq<int>, size: nat, want: int)
    requires Accounted(start, now, list, size, want) && id in lists && lists[id] == if now == start then [] else list
    ensures StepOf(Event.Rebalance(lists), size)(id, start) == Touch(now, now != start)
  {
  }

  /** What the planner does to the groups is the pool's rebalance event for its plan: with the
      version raised when a group changed, it is the next state of the pool. */
  lemma {:induction false} RunIsEvent(ids: seq<PgId>, version: int, start: seq<PgConfig>, pgs: seq<PgConfig>,
                                      plan: seq<seq<int>>, size: nat, want: int)
    requires Distinct(ids) && |ids| == |start| && AllAccounted(start, pgs, plan, size, want)
    ensures Next(Pool(version, ToMap(ids, start), size), Event.Rebalance(ToMap(ids, Planned(start, pgs, plan)))) ==
            Pool(if Differs(start, pgs) then version + 1 else version, ToMap(ids, pgs), size)
  {
    var lists := ToMap(ids, Planned(start, pgs, plan));
    var f := StepOf(Event.Rebalance(lists), size);
    ToMapAt(ids, Planned(start, pgs, plan));
    forall p | 0 <= p < |ids|
      ensures f(ids[p], start[p]) == Touch(pgs[p], pgs[p] != start[p])
    {
      PlannedAt(lists, ids[p], start[p], pgs[p], plan[p], size, want);
    }
    SweepIs(Pool(version, ToMap(ids, start), size), f, ids, start, pgs);
  }

  lemma {:induction false} SweepIs(pool: Pool, f: (PgId, PgConfig) -> Touch, ids: seq<PgId>, start: seq<PgConfig>, pgs: seq<PgConfig>)
    requires |ids| == |start| == |pgs| && Distinct(ids) && pool.pgs == ToMap(ids, start)
    requires forall p :: 0 <= p < |ids| ==> f(ids[p], start[p]) == Touch(pgs[p], pgs[p] != start[p])
    ensures Sweep(pool, f) == Pool(if Differs(start, pgs) then pool.version + 1 else pool.version, ToMap(ids, pgs), pool.size)
  {
    ToMapAt(ids, start);
    ToMapAt(ids, pgs);
    assert Sweep(pool, f).pgs == ToMap(ids, pgs);
    if Touches(pool.pgs, f) {
      var id :| id in pool.pgs && f(id, pool.pgs[id]).touched;
      var p :| 0 <= p < |ids| && ids[p] == id;
      assert pgs[p] != start[p];
    }
    if Differs(start, pgs) {
      var p :| 0 <= p < |pgs| && pgs[p] != start[p];
      assert ids[p] in pool.pgs && f(ids[p], pool.pgs[ids[p]]).touched;
    }
  }

  // ---- A pool whose plan leaves the tree -----------------------------------------------------

  /** Domain "a" has OSD 1, domain "b" has OSD 2. */
  function TwoDomains(): seq<Node> {
    [Node("a", [1]), Node("b", [2])]
  }

  function PgWith(osdList: seq<int>, state: Bits): PgConfig {
    PgConfig(1, state, osdList, [], 0, 0)
  }

  /** Two active groups of two, and one that is down and has one member. */
  function ThreeGroups(): seq<PgConfig> {
    [PgWith([1, 2], ACTIVE), PgWith([1, 2], ACTIVE), PgWith([1], DOWN)]
  }

  lemma TwoDomainsHold(d: Domain, o: int)
    ensures InDomain(TwoDomains(), d, o) <==> (d == "a" && o == 1) || (d == "b" && o == 2)
  {
    var tree := TwoDomains();
    assert tree[0].name == "a" && 1 in tree[0].osds && tree[1].name == "b" && 2 in tree[1].osds;
  }

  lemma TwoDomainsWf()
    ensures TreeWf(TwoDomains()) && Names(TwoDomains()) == {"a", "b"}
    ensures KeyOrder(["a", "b"], {"a", "b"}) && |{"a", "b"}| == 2
  {
    var tree := TwoDomains();
    assert tree[0].name == "a" && tree[1].name == "b";
    KeysAll(["a", "b"], {"a", "b"});
  }

  lemma TwoDomainsSpread()
    ensures SpreadIn([1, 2], TwoDomains()) && SpreadIn([1], TwoDomains())
  {
    forall d, o
      ensures InDomain(TwoDomains(), d, o) <==> (d == "a" && o == 1) || (d == "b" && o == 2)
    {
      TwoDomainsHold(d, o);
    }
    OneEach([1, 2], ["a", "b"], TwoDomains());
    OneEach([1], ["a"], TwoDomains());
  }

  lemma OneEach(list: seq<int>, homes: seq<Domain>, tree: seq<Node>)
    requires |list| == |homes| && Distinct(homes)
    requires forall i :: 0 <= i < |list| ==> InDomain(tree, homes[i], list[i])
    requires forall i, d :: 0 <= i < |list| && InDomain(tree, d, list[i]) ==> d == homes[i]
    ensures SpreadIn(list, tree)
  {
  }


  lemma TwoDomainsOf(b: Books, home: map<int, Domain>, p: nat)
    requires TreeOk(TwoDomains(), home, {"a", "b"}) && GroupsTrue(b.pgDomain, Lists(ThreeGroups()), home) && p < 3
    ensures p < |b.pgDomain| == 3 && "a" in b.pgDomain[p] && ("b" in b.pgDomain[p] <==> p < 2)
  {
    var lists := Lists(ThreeGroups());
    TwoDomainsHold("a", 1);
    TwoDomainsHold("b", 2);
    GroupAt(b.pgDomain, lists, home, p);
    NamedIn(b.pgDomain[p], lists[p], home, "a");
    NamedIn(b.pgDomain[p], lists[p], home, "b");
    assert lists[p][0] == 1 && (p < 2 ==> lists[p][1] == 2);
  }

  /** A domain's list that names exactly the first n groups. */
  lemma {:induction false} FirstGroups(s: seq<nat>, n: nat)
    requires n == 2 || n == 3
    requires forall p: nat :: multiset(s)[p] == if p < n then 1 else 0
    ensures |s| == n && 0 in s
  {
    assert multiset(s) == if n == 2 then multiset{0, 1} else multiset{0, 1, 2};
    assert 0 in multiset(s);
  }

  /** What the maps of these groups say. */
  lemma {:induction false} TwoDomainsBooks(b: Books, home: map<int, Domain>)
    requires TreeOk(TwoDomains(), home, {"a", "b"}) && Consistent(b, Lists(ThreeGroups()), home, {"a", "b"})
    ensures b.domainPgNum["a"] == 3 && b.domainPgNum["b"] == 2 && 0 in b.pgOnDomain["a"]
  {
    TwoDomainsOf(b, home, 0);
    TwoDomainsOf(b, home, 1);
    TwoDomainsOf(b, home, 2);
    assert OnDomain(b, "a") && OnDomain(b, "b");
    FirstGroups(b.pgOnDomain["a"], 3);
    FirstGroups(b.pgOnDomain["b"], 2);
  }

  lemma TwoDomainsNoneShort(planner: Planner)
    requires planner.pgs == ThreeGroups() && planner.want == 2
    ensures NoneShort(planner.pgs, 2, [0, 1, 2])
  {
  }

  /** A group that can move has two members. */
  lemma FreeHasTwo(pgDomain: seq<seq<Domain>>, groups: seq<nat>, g: nat, a: Domain, b: Domain, c: Domain)
    requires FirstFree(ThreeGroups(), pgDomain, groups, g, a, b, c) && |pgDomain| == 3 && g < 3
    ensures |Lists(ThreeGroups())[g]| == 2
  {
  }

  method TwoDomainsOrder() returns (orders: nat -> seq<Domain>)
    ensures KeyOrders(orders, {"a", "b"})
  {
    TwoDomainsWf();
    orders := _ => ["a", "b"];
  }

  method TwoDomainsPlanner() returns (planner: Planner)
    ensures fresh(planner) && planner.tree == TwoDomains() && planner.names == {"a", "b"} && planner.pgs == ThreeGroups()
    ensures planner.want == 2 && planner.Tracks(ThreeGroups(), Lists(ThreeGroups()), false)
  {
    TwoDomainsWf();
    TwoDomainsSpread();
    planner := new Planner(TwoDomains(), 2, 2, ThreeGroups());
  }

  /** The first loop of reblancePool leaves these groups alone: two are full and one is down. */
  method TwoDomainsAdded() returns (planner: Planner)
    ensures fresh(planner) && planner.tree == TwoDomains() && planner.names == {"a", "b"} && planner.pgs == ThreeGroups()
    ensures planner.Tracks(ThreeGroups(), Lists(ThreeGroups()), false)
  {
    var orders := TwoDomainsOrder();
    planner := TwoDomainsPlanner();
    TwoDomainsNoneShort(planner);
    var isRemap, escaped, g;
    ghost var plan, adds;
    isRemap, escaped, plan, g, adds := planner.AddAll([0, 1, 2], orders, ThreeGroups());
  }

  /** An active group of domain "a" can move. */
  lemma TwoDomainsFree(planner: Planner, a: Domain, b: Domain, c: Domain)
    requires planner.tree == TwoDomains() && planner.names == {"a", "b"} && planner.pgs == ThreeGroups()
    requires planner.Valid(Lists(ThreeGroups())) && Offered({"a", "b"}, a, b, c)
    ensures !planner.Stuck("a", a, b, c)
  {
    TwoDomainsWf();
    TwoDomainsBooks(planner.Value(), planner.home);
    planner.FewPinned(Lists(ThreeGroups()), 0, a, b, c);
  }

  lemma TwoDomainsOffered(num: map<Domain, int>, a: Domain, b: Domain, c: Domain)
    requires num.Keys == {"a", "b"} && num["a"] == 3 && num["b"] == 2 && Idlest(num, ["a", "b"], a, b, c)
    ensures Offered({"a", "b"}, a, b, c)
  {
    TwoDomainsWf();
    OfferedBy(num, ["a", "b"], {"a", "b"}, a, b, c);
  }

  /** The loads are 3 and 2, the average is 3, and an active group may move. */
  lemma TwoDomainsNotAtRest(planner: Planner, m: Domain, a: Domain, b: Domain, c: Domain)
    requires planner.tree == TwoDomains() && planner.names == {"a", "b"} && planner.pgs == ThreeGroups()
    requires planner.Valid(Lists(ThreeGroups()))
    ensures !planner.AtRest(3, ["a", "b"], m, a, b, c)
  {
    TwoDomainsBooks(planner.Value(), planner.home);
    var num := planner.domainPgNum;
    assert "a" in num && "b" in num && num.Keys == {"a", "b"};
    if Idlest(num, ["a", "b"], a, b, c) {
      TwoDomainsOffered(num, a, b, c);
      TwoDomainsFree(planner, a, b, c);
    }
  }

  /** The first round of the second loop moves a group. */
  method TwoDomainsMoved(planner: Planner) returns (escaped: bool, g: nat)
    requires planner.tree == TwoDomains() && planner.names == {"a", "b"} && planner.pgs == ThreeGroups()
    requires planner.Tracks(ThreeGroups(), Lists(ThreeGroups()), false)
    modifies planner
    ensures g < 3 && (escaped <==> |Lists(ThreeGroups())[g]| >= 2) && |Lists(ThreeGroups())[g]| == 2
    ensures escaped ==> |planner.pgs| == 3 && SentOut(ThreeGroups()[g], planner.pgs[g], planner.size)
  {
    TwoDomainsWf();
    ghost var on, domains := planner.pgOnDomain, planner.pgDomain;
    var moved, m, a, b, c;
    ghost var plan;
    moved, escaped, plan, g, m, a, b, c :=
      planner.TransferRound(["a", "b"], 3 * 2 / 2, ThreeGroups(), Lists(ThreeGroups()), false);
    assert moved by {
      if !moved { TwoDomainsNotAtRest(planner, m, a, b, c); }
    }
    FreeHasTwo(domains, on[m], g, a, b, c);
  }

  /** With two domains the plan leaves the tree: an active group, being in both domains, gets
      OSD 0, which neither domain has. */
  method TwoDomainsEscape() returns (escaped: bool, list: seq<int>)
    ensures escaped && list != [] && list[|list| - 1] == 0
  {
    var planner := TwoDomainsAdded();
    var g;
    escaped, g := TwoDomainsMoved(planner);
    list := planner.pgs[g].newOsdList;
  }
}
