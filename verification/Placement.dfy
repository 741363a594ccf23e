/** Steps 1 and 2 of SimpleInitial: choosing the failure domains ("hosts") of every
    placement group and evening out the load. Random numbers are arbitrary: rand.Perm is
    any permutation, and the retry loop around rand.Intn ends with any unused host. */
module Placement {
  import opened Counting

  // ---- Load -------------------------------------------------------------------------------

  /** How many slots of all placement groups are on host h. */
  function Load(rows: seq<seq<nat>>, h: nat): nat {
    if rows == [] then 0 else Load(rows[..|rows| - 1], h) + Count(rows[|rows| - 1], h)
  }

  lemma LoadStep(rows: seq<seq<nat>>, k: nat, h: nat)
    requires |rows| == k + 1
    ensures Load(rows, h) == Load(rows[..k], h) + Count(rows[k], h)
  {
  }

  lemma {:induction false} LoadUpdate(rows: seq<seq<nat>>, i: nat, row: seq<nat>, h: nat)
    requires i < |rows|
    ensures Load(rows[i := row], h) == Load(rows, h) - Count(rows[i], h) + Count(row, h)
  {
    var k := |rows| - 1;
    if i < k {
      LoadUpdate(rows[..k], i, row, h);
      assert rows[i := row][..k] == rows[..k][i := row];
    } else {
      assert rows[i := row][..k] == rows[..k];
    }
  }

  /** A placement: size distinct hosts per group, with the given leaders first. */
  ghost predicate Placed(rows: seq<seq<nat>>, leaders: seq<nat>, size: nat, hosts: nat) {
    && |rows| == |leaders|
    && forall i :: 0 <= i < |rows| ==> RowOk(rows[i], leaders[i], size, hosts)
  }

  ghost predicate RowOk(row: seq<nat>, leader: nat, size: nat, hosts: nat) {
    && |row| == size && size > 0 && row[0] == leader && Distinct(row)
    && forall j :: 0 <= j < size ==> row[j] < hosts
  }

  ghost predicate LoadsTrue(load: seq<int>, rows: seq<seq<nat>>) {
    forall h: nat :: h < |load| ==> load[h] == Load(rows, h)
  }

  // ---- Leaders ------------------------------------------------------------------------------

  /** getRandIndex: every candidate div times in turn, then a random choice for the rest. */
  method GetRandIndex(candidate: nat, need: nat, perm: seq<nat>) returns (ans: seq<nat>)
    requires candidate > 0
    requires |perm| == candidate && Distinct(perm) && forall i :: 0 <= i < candidate ==> perm[i] < candidate
    ensures |ans| == need && forall i :: 0 <= i < need ==> ans[i] < candidate
    ensures forall h: nat :: h < candidate ==>
              need / candidate <= Count(ans, h) <= need / candidate + (if need % candidate == 0 then 0 else 1)
  {
    ans := [];
    var div := need / candidate;
    var remain := need - div * candidate;
    assert remain == need % candidate;
    for i := 0 to div
      invariant |ans| == i * candidate
      invariant forall k :: 0 <= k < |ans| ==> ans[k] < candidate
      invariant forall h: nat :: h < candidate ==> Count(ans, h) == i
    {
      ans := AppendRound(ans, candidate);
      assert (i + 1) * candidate == i * candidate + candidate;
    }
    ans := AppendFirst(ans, perm, remain, candidate);
    ChosenOnce(perm, remain);
  }

  /** Every candidate once more. */
  method AppendRound(s: seq<nat>, candidate: nat) returns (ans: seq<nat>)
    requires forall k :: 0 <= k < |s| ==> s[k] < candidate
    ensures |ans| == |s| + candidate
    ensures forall k :: 0 <= k < |ans| ==> ans[k] < candidate
    ensures forall h: nat :: h < candidate ==> Count(ans, h) == Count(s, h) + 1
  {
    ans := s;
    for j := 0 to candidate
      invariant |ans| == |s| + j
      invariant forall k :: 0 <= k < |ans| ==> ans[k] < candidate
      invariant forall h: nat :: h < candidate ==> Count(ans, h) == Count(s, h) + if h < j then 1 else 0
    {
      AppendCounts(ans, j, candidate);
      ans := ans + [j];
    }
  }

  method AppendFirst(s: seq<nat>, perm: seq<nat>, remain: nat, candidate: nat) returns (ans: seq<nat>)
    requires remain <= |perm| && forall k :: 0 <= k < |perm| ==> perm[k] < candidate
    requires forall k :: 0 <= k < |s| ==> s[k] < candidate
    ensures |ans| == |s| + remain
    ensures forall k :: 0 <= k < |ans| ==> ans[k] < candidate
    ensures forall h: nat :: h < candidate ==> Count(ans, h) == Count(s, h) + Count(perm[..remain], h)
  {
    ans := s;
    for j := 0 to remain
      invariant |ans| == |s| + j
      invariant forall k :: 0 <= k < |ans| ==> ans[k] < candidate
      invariant forall h: nat :: h < candidate ==> Count(ans, h) == Count(s, h) + Count(perm[..j], h)
    {
      AppendCounts(ans, perm[j], candidate);
      AppendCounts(perm[..j], perm[j], candidate);
      assert perm[..j + 1] == perm[..j] + [perm[j]];
      ans := ans + [perm[j]];
    }
  }

  lemma ChosenOnce(perm: seq<nat>, remain: nat)
    requires Distinct(perm) && remain <= |perm|
    ensures forall h: nat :: Count(perm[..remain], h) <= if remain == 0 then 0 else 1
  {
    forall h: nat
      ensures Count(perm[..remain], h) <= if remain == 0 then 0 else 1
    {
      CountDistinct(perm[..remain], h);
    }
  }

  lemma AppendCounts(s: seq<nat>, y: nat, n: nat)
    ensures forall h: nat :: h < n ==> Count(s + [y], h) == Count(s, h) + if y == h then 1 else 0
  {
  }

  // ---- Filling the rows -----------------------------------------------------------------------

  /** Each group gets its leader and then hosts not used before in the row. */
  method FillRows(leaders: seq<nat>, size: nat, hosts: nat) returns (rows: seq<seq<nat>>)
    requires 0 < size <= hosts && forall i :: 0 <= i < |leaders| ==> leaders[i] < hosts
    ensures Placed(rows, leaders, size, hosts)
  {
    rows := [];
    for i := 0 to |leaders|
      invariant |rows| == i
      invariant forall k :: 0 <= k < i ==> RowOk(rows[k], leaders[k], size, hosts)
    {
      var row := [leaders[i]];
      for j := 1 to size
        invariant RowOk(row, leaders[i], j, hosts)
      {
        ghost var unused := Pigeonhole(row, hosts);
        var r: nat :| r < hosts && r !in row;
        row := row + [r];
      }
      rows := rows + [row];
    }
  }

  // ---- Conservation: the loads add up to groups times size --------------------------------------

  ghost function Loads(rows: seq<seq<nat>>, hosts: nat): (r: seq<int>)
    ensures |r| == hosts && forall h: nat :: h < hosts ==> r[h] == Load(rows, h)
  {
    seq(hosts, (h: nat) requires h < hosts => Load(rows, h) as int)
  }

  ghost function Counts(row: seq<nat>, hosts: nat): (r: seq<int>)
    ensures |r| == hosts && forall h: nat :: h < hosts ==> r[h] == Count(row, h)
  {
    seq(hosts, (h: nat) requires h < hosts => Count(row, h) as int)
  }

  lemma {:induction false} SumZero(n: nat)
    ensures Sum(seq(n, _ => 0)) == 0
  {
    if n > 0 {
      SumZero(n - 1);
      assert seq(n, _ => 0)[..n - 1] == seq(n - 1, _ => 0);
    }
  }

  lemma {:induction false} SumPlus(a: seq<int>, b: seq<int>, c: seq<int>)
    requires |a| == |b| == |c| && forall i :: 0 <= i < |a| ==> c[i] == a[i] + b[i]
    ensures Sum(c) == Sum(a) + Sum(b)
  {
    if a != [] {
      var k := |a| - 1;
      SumPlus(a[..k], b[..k], c[..k]);
    }
  }

  lemma {:induction false} SumCounts(row: seq<nat>, hosts: nat)
    requires forall j :: 0 <= j < |row| ==> row[j] < hosts
    ensures Sum(Counts(row, hosts)) == |row|
  {
    if row == [] {
      SumZero(hosts);
      assert Counts(row, hosts) == seq(hosts, _ => 0);
    } else {
      var k := |row| - 1;
      var front := Counts(row[..k], hosts);
      SumCounts(row[..k], hosts);
      SumUpdate(front, row[k], front[row[k]] + 1);
      assert Counts(row, hosts) == front[row[k] := front[row[k]] + 1];
    }
  }

  lemma SumLoadsStep(rows: seq<seq<nat>>, k: nat, hosts: nat)
    requires |rows| == k + 1
    ensures Sum(Loads(rows, hosts)) == Sum(Loads(rows[..k], hosts)) + Sum(Counts(rows[k], hosts))
  {
    var a, b, c := Loads(rows[..k], hosts), Counts(rows[k], hosts), Loads(rows, hosts);
    forall h: nat | h < hosts
      ensures c[h] == a[h] + b[h]
    {
      LoadStep(rows, k, h);
    }
    SumPlus(a, b, c);
  }

  lemma {:induction false} SumLoads(rows: seq<seq<nat>>, leaders: seq<nat>, size: nat, hosts: nat)
    requires Placed(rows, leaders, size, hosts)
    ensures Sum(Loads(rows, hosts)) == |rows| * size
  {
    if rows == [] {
      SumZero(hosts);
      assert Loads(rows, hosts) == seq(hosts, _ => 0);
    } else {
      var k := |rows| - 1;
      assert RowOk(rows[k], leaders[k], size, hosts);
      SumLoads(rows[..k], leaders[..k], size, hosts);
      SumCounts(rows[k], hosts);
      SumLoadsStep(rows, k, hosts);
      Times(k, size);
    }
  }

  lemma Times(k: nat, size: nat)
    ensures (k + 1) * size == k * size + size
  {
  }

  /** onHost lists, for each host, exactly the groups that are on it. */
  ghost predicate Lists(onHost: seq<seq<nat>>, rows: seq<seq<nat>>) {
    forall h: nat, g: nat :: ListsAt(onHost, rows, h, g)
  }

  ghost predicate ListsAt(onHost: seq<seq<nat>>, rows: seq<seq<nat>>, h: nat, g: nat) {
    h < |onHost| ==> (g in onHost[h] <==> g < |rows| && h in rows[g])
  }

  /** One more row, tallied. */
  lemma ListsStep(onHost: seq<seq<nat>>, rows: seq<seq<nat>>, i: nat, onHost': seq<seq<nat>>)
    requires i < |rows| && Lists(onHost, rows[..i]) && |onHost'| == |onHost|
    requires forall h: nat, g: nat :: h < |onHost| ==> (g in onHost'[h] <==> g in onHost[h] || (g == i && h in rows[i]))
    ensures Lists(onHost', rows[..i + 1])
  {
    var rows' := rows[..i + 1];
    forall h: nat, g: nat
      ensures ListsAt(onHost', rows', h, g)
    {
      assert ListsAt(onHost, rows[..i], h, g);
    }
  }

  lemma ListedInRange(onHost: seq<seq<nat>>, rows: seq<seq<nat>>)
    requires Lists(onHost, rows)
    ensures forall h, k :: 0 <= h < |onHost| && 0 <= k < |onHost[h]| ==> onHost[h][k] < |rows|
  {
    forall h, k | 0 <= h < |onHost| && 0 <= k < |onHost[h]|
      ensures onHost[h][k] < |rows|
    {
      assert ListsAt(onHost, rows, h, onHost[h][k]);
    }
  }

  /** Counts the groups on each host and lists them. */
  method Tally(rows: seq<seq<nat>>, hosts: nat) returns (load: seq<int>, onHost: seq<seq<nat>>)
    requires forall i :: 0 <= i < |rows| ==> forall j :: 0 <= j < |rows[i]| ==> rows[i][j] < hosts
    ensures |load| == hosts && LoadsTrue(load, rows)
    ensures |onHost| == hosts && Lists(onHost, rows)
  {
    load := seq(hosts, _ => 0);
    onHost := seq(hosts, _ => []);
    for i := 0 to |rows|
      invariant |load| == |onHost| == hosts
      invariant forall h: nat :: h < hosts ==> load[h] == Load(rows[..i], h)
      invariant Lists(onHost, rows[..i])
    {
      ghost var before, were := load, onHost;
      load, onHost := TallyRow(rows[i], i, load, onHost);
      ListsStep(were, rows, i, onHost);
      assert rows[..i + 1][..i] == rows[..i];
      forall h: nat | h < hosts
        ensures load[h] == Load(rows[..i + 1], h)
      {
        LoadStep(rows[..i + 1], i, h);
        assert before[h] == Load(rows[..i], h);
      }
    }
    assert rows[..|rows|] == rows;
  }

  method TallyRow(row: seq<nat>, group: nat, load: seq<int>, onHost: seq<seq<nat>>)
    returns (load': seq<int>, onHost': seq<seq<nat>>)
    requires |load| == |onHost| && forall j :: 0 <= j < |row| ==> row[j] < |load|
    ensures |load'| == |onHost'| == |load|
    ensures forall h: nat :: h < |load| ==> load'[h] == load[h] + Count(row, h)
    ensures forall h: nat, g: nat :: h < |load| ==> (g in onHost'[h] <==> g in onHost[h] || (g == group && h in row))
  {
    load', onHost' := load, onHost;
    for j := 0 to |row|
      invariant |load'| == |onHost'| == |load|
      invariant forall h: nat :: h < |load| ==> load'[h] == load[h] + Count(row[..j], h)
      invariant forall h: nat, g: nat :: h < |load| ==> (g in onHost'[h] <==> g in onHost[h] || (g == group && h in row[..j]))
    {
      var h := row[j];
      AppendCounts(row[..j], h, |load|);
      assert row[..j + 1] == row[..j] + [h];
      load' := load'[h := load'[h] + 1];
      onHost' := onHost'[h := onHost'[h] + [group]];
    }
    assert row[..|row|] == row;
  }

  // ---- The busiest host and the three idlest ------------------------------------------------------

  /** Bounds the sentinels of max_index and top3_min_index assume. */
  const MAX_INT: int := 2147483647
  const MIN_INT: int := -2147483648

  ghost predicate InRange(load: seq<int>) {
    forall h :: 0 <= h < |load| ==> MIN_INT < load[h] < MAX_INT
  }

  /** max_index: the first of the largest entries, -1 when none is above the sentinel. */
  method MaxIndex(load: seq<int>) returns (index: int)
    ensures -1 <= index < |load|
    ensures index == -1 <==> forall h :: 0 <= h < |load| ==> load[h] <= MIN_INT
    ensures index != -1 ==> forall h :: 0 <= h < |load| ==> load[h] <= load[index]
    ensures forall h :: 0 <= h < index ==> load[h] < load[index]
  {
    var maxNum := MIN_INT;
    index := -1;
    for i := 0 to |load|
      invariant index == -1 ==> maxNum == MIN_INT
      invariant index != -1 ==> 0 <= index < i && maxNum == load[index] > MIN_INT
      invariant forall h :: 0 <= h < i ==> load[h] <= maxNum
      invariant forall h :: 0 <= h < index ==> load[h] < maxNum
    {
      if load[i] > maxNum {
        maxNum, index := load[i], i;
      }
    }
  }

  /** Entry i, or the sentinel for "no such host". */
  function At(load: seq<int>, i: int): int
    requires -1 <= i < |load|
  {
    if i == -1 then MAX_INT else load[i]
  }

  /** a, b, c are the three smallest entries below the sentinel in order, or -1 where there
      are fewer. */
  ghost predicate Idlest(load: seq<int>, n: nat, a: int, b: int, c: int)
    requires n <= |load|
  {
    && -1 <= a < n && -1 <= b < n && -1 <= c < n
    && (a != -1 ==> load[a] < MAX_INT)
    && (b != -1 ==> b != a && a != -1 && load[b] < MAX_INT)
    && (c != -1 ==> c != a && c != b && b != -1 && load[c] < MAX_INT)
    && At(load, a) <= At(load, b) <= At(load, c)
    && forall h :: 0 <= h < n && h != a && h != b && h != c ==> At(load, c) <= load[h]
  }

  /** top3_min_index */
  method Top3MinIndex(load: seq<int>) returns (a: int, b: int, c: int)
    ensures Idlest(load, |load|, a, b, c)
  {
    a, b, c := -1, -1, -1;
    var minNum, secondNum, thirdNum := MAX_INT, MAX_INT, MAX_INT;
    for i := 0 to |load|
      invariant Idlest(load, i, a, b, c)
      invariant minNum == At(load, a) && secondNum == At(load, b) && thirdNum == At(load, c)
    {
      if load[i] < minNum {
        thirdNum, c := secondNum, b;
        secondNum, b := minNum, a;
        minNum, a := load[i], i;
      } else if load[i] >= minNum && load[i] < secondNum {
        thirdNum, c := secondNum, b;
        secondNum, b := load[i], i;
      } else if load[i] >= secondNum && load[i] < thirdNum {
        thirdNum, c := load[i], i;
      }
    }
  }

  /** With all entries below the sentinel, -1 stands exactly for a host that does not exist. */
  lemma IdlestPresent(load: seq<int>, a: int, b: int, c: int)
    requires InRange(load) && Idlest(load, |load|, a, b, c)
    ensures (a == -1 <==> |load| < 1) && (b == -1 <==> |load| < 2) && (c == -1 <==> |load| < 3)
  {
    assert |load| > 0 ==> 0 == a || 0 == b || 0 == c || At(load, c) <= load[0];
    assert |load| > 1 ==> 1 == a || 1 == b || 1 == c || At(load, c) <= load[1];
    assert |load| > 2 ==> 2 == a || 2 == b || 2 == c || At(load, c) <= load[2];
  }

  // ---- One move ----------------------------------------------------------------------------------

  /** find: the first position from begin on that holds val, or -1. */
  method Find(row: seq<nat>, val: nat, begin: nat) returns (idx: int)
    ensures idx == -1 <==> begin >= |row| || val !in row[begin..]
    ensures idx != -1 ==> begin <= idx < |row| && row[idx] == val && forall k :: begin <= k < idx ==> row[k] != val
  {
    var i := begin;
    while i < |row|
      invariant begin <= i
      invariant forall k :: begin <= k < i && k < |row| ==> row[k] != val
    {
      if row[i] == val {
        assert row[begin..][i - begin] == val;
        return i;
      }
      i := i + 1;
    }
    return -1;
  }

  /** Moving slot j of a group from its host to t, with the loads adjusted. */
  function MovedLoad(load: seq<int>, from: nat, t: nat): seq<int>
    requires from < |load| && t < |load|
  {
    var l := load[from := load[from] - 1];
    l[t := l[t] + 1]
  }

  function MovedRows(rows: seq<seq<nat>>, g: nat, j: nat, t: nat): seq<seq<nat>>
    requires g < |rows| && j < |rows[g]|
  {
    var row: seq<nat> := rows[g][j := t];
    rows[g := row]
  }

  /** transfer_one: the busiest host's non-leader slot goes to the first of the three idlest
      hosts that the group does not use yet. */
  method TransferOne(row: seq<nat>, busiest: nat, a: nat, b: nat, c: nat, load: seq<int>)
    returns (moved: bool, row': seq<nat>, load': seq<int>, j: nat, t: nat)
    requires |row| > 1 && busiest in row[1..]
    requires busiest < |load| && a < |load| && b < |load| && c < |load|
    ensures moved <==> !(a in row && b in row && c in row)
    ensures !moved ==> row' == row && load' == load
    ensures moved ==>
              && t == (if a !in row then a else if b !in row then b else c) && t !in row
              && 1 <= j < |row| && row[j] == busiest
              && row' == row[j := t] && load' == MovedLoad(load, busiest, t)
  {
    row', load', j, t := row, load, 0, 0;
    var idx := Find(row, busiest, 1);
    if a !in row {
      t := a;
    } else if b !in row {
      t := b;
    } else if c !in row {
      t := c;
    } else {
      return false, row, load, 0, 0;
    }
    j := idx;
    row' := row[j := t];
    load' := MovedLoad(load, busiest, t);
    moved := true;
  }

  /** A move keeps every group on distinct hosts, leaves the leaders alone and keeps the
      loads true. */
  lemma MoveKeeps(rows: seq<seq<nat>>, leaders: seq<nat>, size: nat, hosts: nat, load: seq<int>,
                  g: nat, j: nat, t: nat)
    requires Placed(rows, leaders, size, hosts) && |load| == hosts && LoadsTrue(load, rows)
    requires g < |rows| && 1 <= j < size && t < hosts && t !in rows[g]
    ensures rows[g][j] < hosts
    ensures Placed(MovedRows(rows, g, j, t), leaders, size, hosts)
    ensures LoadsTrue(MovedLoad(load, rows[g][j], t), MovedRows(rows, g, j, t))
  {
    var row := rows[g];
    var row': seq<nat> := row[j := t];
    assert RowOk(row, leaders[g], size, hosts);
    assert RowOk(row', leaders[g], size, hosts);
    forall h: nat | h < hosts
      ensures MovedLoad(load, row[j], t)[h] == Load(MovedRows(rows, g, j, t), h)
    {
      LoadUpdate(rows, g, row', h);
      CountUpdate<nat>(row, j, t, h);
    }
  }

  // ---- Progress ------------------------------------------------------------------------------------

  /** x * x, as a sum of odd numbers. */
  function Square(x: int): int
    decreases if x < 0 then -x else x
  {
    if x > 0 then Square(x - 1) + 2 * x - 1
    else if x < 0 then Square(x + 1) - 2 * x - 1
    else 0
  }

  lemma {:induction false} SquareIsProduct(x: int)
    ensures Square(x) == x * x
    decreases if x < 0 then -x else x
  {
    if x > 0 {
      SquareIsProduct(x - 1);
      assert (x - 1) * (x - 1) == x * x - 2 * x + 1;
    } else if x < 0 {
      SquareIsProduct(x + 1);
      assert (x + 1) * (x + 1) == x * x + 2 * x + 1;
    }
  }

  function Squares(load: seq<int>): int {
    if load == [] then 0 else Squares(load[..|load| - 1]) + Square(load[|load| - 1])
  }

  lemma {:induction false} SquaresUpdate(load: seq<int>, i: nat, y: int)
    requires i < |load|
    ensures Squares(load[i := y]) == Squares(load) - Square(load[i]) + Square(y)
  {
    var k := |load| - 1;
    if i < k {
      SquaresUpdate(load[..k], i, y);
      assert load[i := y][..k] == load[..k][i := y];
    } else {
      assert load[i := y][..k] == load[..k];
    }
  }

  lemma SquareSteps(x: int, y: int, was: int, between: int, now: int)
    requires between == was - Square(x) + Square(x - 1)
    requires now == between - Square(y) + Square(y + 1)
    ensures now == was + 2 * (y - x + 1)
  {
  }

  /** What a move does to the sum of squared loads. */
  lemma {:induction false} MoveSquares(load: seq<int>, from: nat, t: nat)
    requires from < |load| && t < |load| && from != t
    ensures Squares(MovedLoad(load, from, t)) == Squares(load) + 2 * (load[t] - load[from] + 1)
  {
    var l := load[from := load[from] - 1];
    SquaresUpdate(load, from, load[from] - 1);
    SquaresUpdate(l, t, load[t] + 1);
    SquareSteps(load[from], load[t], Squares(load), Squares(l), Squares(MovedLoad(load, from, t)));
  }

  /** Hosts outside average .. average + 1 force a gap of two between busiest and idlest. */
  lemma TriggerGap(load: seq<int>, average: int, idlest: nat, busiest: nat)
    requires idlest < |load| && busiest < |load|
    requires |load| * average <= Sum(load) < |load| * (average + 1)
    requires forall h :: 0 <= h < |load| ==> load[idlest] <= load[h] <= load[busiest]
    requires load[idlest] < average || load[busiest] > average + 1
    ensures load[idlest] + 2 <= load[busiest]
  {
    if load[idlest] < average {
      if load[busiest] <= average {
        SumAtMost(load, average, idlest);
        assert false;
      }
    } else if load[idlest] > average {
      SumAtLeast(load, average + 1, busiest);
      assert false;
    }
  }

  // ---- The balancing loop -----------------------------------------------------------------------------

  /** Some host is below the average or more than one above it. */
  ghost predicate Uneven(load: seq<int>, average: int) {
    exists h :: 0 <= h < |load| && (load[h] < average || load[h] > average + 1)
  }

  ghost predicate Busiest(load: seq<int>, m: int) {
    0 <= m < |load| && forall h :: 0 <= h < |load| ==> load[h] <= load[m]
  }

  /** Group row can give up host m to one of the candidates. */
  predicate Movable(row: seq<nat>, m: int, a: int, b: int, c: int) {
    |row| > 1 && m in row[1..] && !(a in row && b in row && c in row)
  }

  /** None of the groups that onHost lists for the busiest host m can be moved off it. The lists
      are those of the first tally; a group that came to the host later is not looked at. */
  ghost predicate Stuck(rows: seq<seq<nat>>, load: seq<int>, onHost: seq<seq<nat>>, m: int, a: int, b: int, c: int) {
    && Busiest(load, m) && Idlest(load, |load|, a, b, c) && m < |onHost|
    && forall k :: 0 <= k < |onHost[m]| && onHost[m][k] < |rows| ==> !Movable(rows[onHost[m][k]], m, a, b, c)
  }

  lemma {:induction false} LoadAtMost(rows: seq<seq<nat>>, leaders: seq<nat>, size: nat, hosts: nat, h: nat)
    requires Placed(rows, leaders, size, hosts)
    ensures Load(rows, h) <= |rows|
  {
    if rows != [] {
      var k := |rows| - 1;
      assert RowOk(rows[k], leaders[k], size, hosts);
      LoadAtMost(rows[..k], leaders[..k], size, hosts, h);
      CountDistinct(rows[k], h);
    }
  }

  /** With as many slots as hosts, every host carries every group. */
  lemma {:induction false} FullLoad(rows: seq<seq<nat>>, leaders: seq<nat>, hosts: nat, h: nat)
    requires Placed(rows, leaders, hosts, hosts) && h < hosts
    ensures Load(rows, h) == |rows|
  {
    if rows != [] {
      var k := |rows| - 1;
      assert RowOk(rows[k], leaders[k], hosts, hosts);
      FullLoad(rows[..k], leaders[..k], hosts, h);
      Full(rows[k], hosts, h);
      CountDistinct(rows[k], h);
    }
  }

  /** The "no such host" candidates of top3_min_index are never used: when the loads are
      uneven and some group could give up a non-leader slot, there are three hosts. */
  lemma NeedsThreeHosts(rows: seq<seq<nat>>, leaders: seq<nat>, size: nat, hosts: nat, load: seq<int>, average: int, g: nat)
    requires Placed(rows, leaders, size, hosts) && size <= hosts && |load| == hosts && LoadsTrue(load, rows)
    requires hosts * average <= |rows| * size < hosts * (average + 1)
    requires Uneven(load, average) && g < |rows| && |rows[g]| > 1
    ensures hosts >= 3
  {
    assert RowOk(rows[g], leaders[g], size, hosts);
    if size == hosts {
      forall h: nat | h < hosts
        ensures load[h] == |rows|
      {
        FullLoad(rows, leaders, hosts, h);
      }
      SameQuotient(|rows|, hosts, average);
    }
  }

  lemma SameQuotient(n: nat, hosts: nat, average: int)
    requires hosts > 0 && hosts * average <= n * hosts < hosts * (average + 1)
    ensures average == n
  {
  }

  /** One pass over the groups of the busiest host: the first movable one moves. */
  method TryMove(rows: seq<seq<nat>>, load: seq<int>, groups: seq<nat>, m: nat, a: int, b: int, c: int)
    returns (moved: bool, rows': seq<seq<nat>>, load': seq<int>, g: nat, j: nat, t: nat)
    requires m < |load| && -1 <= a < |load| && -1 <= b < |load| && -1 <= c < |load|
    requires forall k :: 0 <= k < |groups| ==> groups[k] < |rows|
    requires forall k :: 0 <= k < |groups| && |rows[groups[k]]| > 1 ==> a >= 0 && b >= 0 && c >= 0
    ensures !moved ==> rows' == rows && load' == load
    ensures !moved <==> forall k :: 0 <= k < |groups| ==> !Movable(rows[groups[k]], m, a, b, c)
    ensures moved ==>
              && g < |rows| && 1 <= j < |rows[g]| && t < |load|
              && t == (if a !in rows[g] then a else if b !in rows[g] then b else c)
              && rows[g][j] == m && t !in rows[g]
              && rows' == MovedRows(rows, g, j, t) && load' == MovedLoad(load, m, t)
  {
    rows', load', g, j, t := rows, load, 0, 0, 0;
    for i := 0 to |groups|
      invariant forall k :: 0 <= k < i ==> !Movable(rows[groups[k]], m, a, b, c)
    {
      g := groups[i];
      var row := rows[g];
      if |row| > 1 && m in row[1..] {
        var row', l;
        moved, row', l, j, t := TransferOne(row, m, a, b, c, load);
        if moved {
          assert Movable(rows[groups[i]], m, a, b, c);
          return true, rows[g := row'], l, g, j, t;
        }
      }
    }
    return false, rows, load, 0, 0, 0;
  }

  datatype Snapshot = Snapshot(rows: seq<seq<nat>>, load: seq<int>)

  /** One move of the balancing loop: with an uneven load, a slot that is not the leader's
      leaves the busiest host for the first of the three idlest that its group is not on. */
  ghost predicate Moves(s: Snapshot, s': Snapshot, average: int, m: int, a: int, b: int, c: int, g: nat, j: nat, t: nat) {
    && Uneven(s.load, average) && Busiest(s.load, m) && Idlest(s.load, |s.load|, a, b, c)
    && g < |s.rows| && 1 <= j < |s.rows[g]| && t < |s.load| && s.rows[g][j] == m && t !in s.rows[g]
    && t == (if a !in s.rows[g] then a else if b !in s.rows[g] then b else c)
    && s' == Snapshot(MovedRows(s.rows, g, j, t), MovedLoad(s.load, m, t))
  }

  ghost predicate Move(s: Snapshot, s': Snapshot, average: int) {
    exists m, a, b, c, g, j, t :: Moves(s, s', average, m, a, b, c, g, j, t)
  }

  /** The states the loop passed through. */
  ghost predicate Trace(trace: seq<Snapshot>, average: int) {
    |trace| > 0 && forall i :: 0 <= i < |trace| - 1 ==> Move(trace[i], trace[i + 1], average)
  }

  lemma TraceStep(trace: seq<Snapshot>, s: Snapshot, average: int)
    requires Trace(trace, average) && Move(trace[|trace| - 1], s, average)
    ensures Trace(trace + [s], average)
  {
  }

  /** A state the loop can be in: a valid placement, true loads, and the average is the floor
      of the slots per host. */
  ghost predicate State(s: Snapshot, leaders: seq<nat>, size: nat, hosts: nat, average: int) {
    && Placed(s.rows, leaders, size, hosts) && |s.load| == hosts && LoadsTrue(s.load, s.rows)
    && hosts * average <= |s.rows| * size < hosts * (average + 1)
  }

  /** What a move does to the sum of squared loads: it never rises by more than 2, and it
      falls exactly when the target is at least two below the busiest host. */
  lemma {:induction false} MoveImprovesIff(s: Snapshot, s': Snapshot, average: int,
                                           m: int, a: int, b: int, c: int, g: nat, j: nat, t: nat)
    requires Moves(s, s', average, m, a, b, c, g, j, t)
    ensures Squares(s'.load) == Squares(s.load) + 2 * (s.load[t] - s.load[m] + 1) <= Squares(s.load) + 2
    ensures Squares(s'.load) < Squares(s.load) <==> s.load[t] + 2 <= s.load[m]
  {
    assert m == s.rows[g][j] && m in s.rows[g];
    MoveSquares(s.load, m, t);
  }

  /** A move to the idlest host always lowers it strictly: an uneven load forces a gap of two. */
  lemma {:induction false} MoveToIdlestImproves(s: Snapshot, s': Snapshot, leaders: seq<nat>, size: nat, hosts: nat,
                                                average: int, m: int, a: int, b: int, c: int, g: nat, j: nat, t: nat)
    requires State(s, leaders, size, hosts, average) && Moves(s, s', average, m, a, b, c, g, j, t) && t == a
    ensures Squares(s'.load) < Squares(s.load)
  {
    SumLoads(s.rows, leaders, size, hosts);
    assert s.load == Loads(s.rows, hosts);
    var h :| 0 <= h < hosts && (s.load[h] < average || s.load[h] > average + 1);
    assert s.load[a] <= s.load[h] <= s.load[m];
    TriggerGap(s.load, average, a, m);
    MoveImprovesIff(s, s', average, m, a, b, c, g, j, t);
  }

  lemma MoveKeepsState(s: Snapshot, s': Snapshot, leaders: seq<nat>, size: nat, hosts: nat,
                       average: int, m: int, a: int, b: int, c: int, g: nat, j: nat, t: nat)
    requires State(s, leaders, size, hosts, average) && Moves(s, s', average, m, a, b, c, g, j, t)
    ensures State(s', leaders, size, hosts, average)
  {
    assert RowOk(s.rows[g], leaders[g], size, hosts);
    MoveKeeps(s.rows, leaders, size, hosts, s.load, g, j, t);
  }

  /** The step took a slot to the idlest host of all. */
  ghost predicate ToIdlest(s: Snapshot, s': Snapshot, average: int) {
    exists m, a, b, c, g, j, t :: Moves(s, s', average, m, a, b, c, g, j, t) && t == a
  }

  lemma {:induction false} TraceStates(trace: seq<Snapshot>, leaders: seq<nat>, size: nat, hosts: nat, average: int, i: nat)
    requires Trace(trace, average) && State(trace[0], leaders, size, hosts, average) && i < |trace|
    ensures State(trace[i], leaders, size, hosts, average)
  {
    if i > 0 {
      TraceStates(trace, leaders, size, hosts, average, i - 1);
      assert Move(trace[i - 1], trace[i - 1 + 1], average);
      var m, a, b, c, g, j, t :| Moves(trace[i - 1], trace[i], average, m, a, b, c, g, j, t);
      MoveKeepsState(trace[i - 1], trace[i], leaders, size, hosts, average, m, a, b, c, g, j, t);
    }
  }

  lemma {:induction false} StepProgress(s: Snapshot, s': Snapshot, leaders: seq<nat>, size: nat, hosts: nat, average: int)
    requires State(s, leaders, size, hosts, average) && Move(s, s', average)
    ensures Squares(s'.load) <= Squares(s.load) + 2
    ensures ToIdlest(s, s', average) ==> Squares(s'.load) < Squares(s.load)
  {
    if ToIdlest(s, s', average) {
      var m, a, b, c, g, j, t :| Moves(s, s', average, m, a, b, c, g, j, t) && t == a;
      MoveToIdlestImproves(s, s', leaders, size, hosts, average, m, a, b, c, g, j, t);
    } else {
      var m, a, b, c, g, j, t :| Moves(s, s', average, m, a, b, c, g, j, t);
      MoveImprovesIff(s, s', average, m, a, b, c, g, j, t);
    }
  }

  /** Along every run of the loop the placement and the loads stay true, no step raises the sum
      of squares by more than 2, and every step to the idlest host lowers it. */
  lemma {:induction false} TraceProgress(trace: seq<Snapshot>, leaders: seq<nat>, size: nat, hosts: nat, average: int, i: nat)
    requires Trace(trace, average) && State(trace[0], leaders, size, hosts, average) && i + 1 < |trace|
    ensures State(trace[i], leaders, size, hosts, average)
    ensures Squares(trace[i + 1].load) <= Squares(trace[i].load) + 2
    ensures ToIdlest(trace[i], trace[i + 1], average) ==> Squares(trace[i + 1].load) < Squares(trace[i].load)
  {
    TraceStates(trace, leaders, size, hosts, average, i);
    StepProgress(trace[i], trace[i + 1], leaders, size, hosts, average);
  }

  /** One more group of two. */
  lemma AddPair(load: seq<int>, rows: seq<seq<nat>>, a: nat, b: nat, load': seq<int>, rows': seq<seq<nat>>)
    requires LoadsTrue(load, rows) && rows' == rows + [[a, b]] && |load'| == |load|
    requires forall h: nat :: h < |load| ==> load'[h] == load[h] + (if h == a then 1 else 0) + (if h == b then 1 else 0)
    ensures LoadsTrue(load', rows')
  {
    var row: seq<nat> := [a, b];
    assert row[..1] == [a] && row[..1][..0] == [];
    assert rows'[..|rows|] == rows;
    forall h: nat | h < |load'|
      ensures load'[h] == Load(rows', h)
    {
      LoadStep(rows', |rows|, h);
      assert Count(row, h) == Count(row[..1], h) + if b == h then 1 else 0;
    }
  }

  lemma FiveLoads()
    ensures LoadsTrue([2, 4, 4], [[0, 1], [1, 2], [2, 0], [1, 2], [2, 1]])
  {
    AddPair([0, 0, 0], [], 0, 1, [1, 1, 0], [[0, 1]]);
    AddPair([1, 1, 0], [[0, 1]], 1, 2, [1, 2, 1], [[0, 1], [1, 2]]);
    AddPair([1, 2, 1], [[0, 1], [1, 2]], 2, 0, [2, 2, 2], [[0, 1], [1, 2], [2, 0]]);
    AddPair([2, 2, 2], [[0, 1], [1, 2], [2, 0]], 1, 2, [2, 3, 3], [[0, 1], [1, 2], [2, 0], [1, 2]]);
    AddPair([2, 3, 3], [[0, 1], [1, 2], [2, 0], [1, 2]], 2, 1, [2, 4, 4], [[0, 1], [1, 2], [2, 0], [1, 2], [2, 1]]);
  }

  /** A move to the third choice can make the spread worse. Five groups of two on three hosts,
      with leaders as getRandIndex may choose them, have loads 2, 4, 4; the first group moves
      from host 1 to host 2. */
  lemma MoveCanWorsen()
    ensures var s := Snapshot([[0, 1], [1, 2], [2, 0], [1, 2], [2, 1]], [2, 4, 4]);
      var s' := Snapshot([[0, 2], [1, 2], [2, 0], [1, 2], [2, 1]], [2, 3, 5]);
      && State(s, [0, 1, 2, 1, 2], 2, 3, 3)
      && Moves(s, s', 3, 1, 0, 1, 2, 0, 1, 2) && Squares(s'.load) == Squares(s.load) + 2
  {
    FiveLoads();
    MoveSquares([2, 4, 4], 1, 2);
    var rows: seq<seq<nat>> := [[0, 1], [1, 2], [2, 0], [1, 2], [2, 1]];
    assert rows[0][1 := 2] == [0, 2];
    assert MovedRows(rows, 0, 1, 2) == [[0, 2], [1, 2], [2, 0], [1, 2], [2, 1]];
    assert MovedLoad([2, 4, 4], 1, 2) == [2, 3, 5];
  }

  /** Step 2. It keeps a valid placement with the same leaders and true loads, every change on
      the way is such a move, and it stops because the loads are even, because nothing can be
      moved off the busiest host, or after as many moves as there are groups. */
  method Balance(rows0: seq<seq<nat>>, load0: seq<int>, onHost: seq<seq<nat>>,
                 ghost leaders: seq<nat>, size: nat, hosts: nat, average: int)
    returns (rows: seq<seq<nat>>, load: seq<int>, moves: nat, ghost trace: seq<Snapshot>)
    requires 0 < size <= hosts && Placed(rows0, leaders, size, hosts)
    requires |load0| == |onHost| == hosts && LoadsTrue(load0, rows0) && |rows0| < MAX_INT
    requires forall h, k :: 0 <= h < hosts && 0 <= k < |onHost[h]| ==> onHost[h][k] < |rows0|
    requires hosts * average <= |rows0| * size < hosts * (average + 1)
    ensures Placed(rows, leaders, size, hosts) && |load| == hosts && LoadsTrue(load, rows)
    ensures moves <= |rows0|
    ensures Trace(trace, average) && |trace| == moves + 1
    ensures trace[0] == Snapshot(rows0, load0) && trace[moves] == Snapshot(rows, load)
    ensures moves < |rows0| ==> !Uneven(load, average) || exists m, a, b, c :: Stuck(rows, load, onHost, m, a, b, c)
  {
    rows, load, moves, trace := rows0, load0, 0, [Snapshot(rows0, load0)];
    while moves < |rows0|
      invariant moves <= |rows0| && |rows| == |rows0|
      invariant Placed(rows, leaders, size, hosts) && |load| == hosts && LoadsTrue(load, rows)
      invariant Trace(trace, average) && |trace| == moves + 1
      invariant trace[0] == Snapshot(rows0, load0) && trace[moves] == Snapshot(rows, load)
    {
      LoadsInRange(rows, leaders, size, hosts, load);
      var m := MaxIndex(load);
      var a, b, c := Top3MinIndex(load);
      IdlestPresent(load, a, b, c);
      assert Busiest(load, m);
      if !(load[a] < average || load[m] > average + 1) {
        return;
      }
      assert Uneven(load, average);
      forall k | 0 <= k < |onHost[m]| && |rows[onHost[m][k]]| > 1
        ensures hosts >= 3
      {
        NeedsThreeHosts(rows, leaders, size, hosts, load, average, onHost[m][k]);
      }
      var moved, rows', load', g, j, t := TryMove(rows, load, onHost[m], m, a, b, c);
      if !moved {
        assert Stuck(rows, load, onHost, m, a, b, c);
        return;
      }
      MoveKeeps(rows, leaders, size, hosts, load, g, j, t);
      assert Moves(Snapshot(rows, load), Snapshot(rows', load'), average, m, a, b, c, g, j, t);
      TraceStep(trace, Snapshot(rows', load'), average);
      trace := trace + [Snapshot(rows', load')];
      rows, load, moves := rows', load', moves + 1;
    }
  }

  lemma LoadsInRange(rows: seq<seq<nat>>, leaders: seq<nat>, size: nat, hosts: nat, load: seq<int>)
    requires Placed(rows, leaders, size, hosts) && LoadsTrue(load, rows) && |rows| < MAX_INT
    ensures InRange(load)
  {
    forall h: nat | h < |load|
      ensures MIN_INT < load[h] < MAX_INT
    {
      LoadAtMost(rows, leaders, size, hosts, h);
    }
  }

  // ---- Steps 1 and 2 together ----------------------------------------------------------------------------

  /** The balancing from the first placement, whose groups onHost lists, to the last: every change
      is a move, and it ended even, after one move per group, or with no listed group to move. */
  ghost predicate Evened(trace: seq<Snapshot>, rows: seq<seq<nat>>, load: seq<int>, leaders: seq<nat>,
                         onHost: seq<seq<nat>>, groups: nat, size: nat, hosts: nat)
  {
    && hosts > 0 && Trace(trace, groups * size / hosts) && |trace| <= groups + 1
    && Placed(trace[0].rows, leaders, size, hosts) && |onHost| == hosts && Lists(onHost, trace[0].rows)
    && trace[|trace| - 1] == Snapshot(rows, load) && LoadsTrue(load, rows)
    && (|trace| <= groups ==>
          !Uneven(load, groups * size / hosts) || exists m, a, b, c :: Stuck(rows, load, onHost, m, a, b, c))
  }

  datatype Placement = NotEnoughHosts | Groups(rows: seq<seq<nat>>, load: seq<int>)

  /** Every group gets size distinct hosts; the load array is the true count and adds up to
      groups times size; every host leads the floor or the ceiling of groups per host. From the
      first placement, whose groups onHost lists, every change is a move of the balancing loop,
      and it ends after one move per group, even, or with no listed group left to move. */
  method PlaceGroups(groups: nat, size: nat, hosts: nat, perm: seq<nat>)
    returns (p: Placement, ghost leaders: seq<nat>, ghost onHost: seq<seq<nat>>, moves: nat, ghost trace: seq<Snapshot>)
    requires size > 0 && groups < MAX_INT
    requires |perm| == hosts && Distinct(perm) && forall i :: 0 <= i < hosts ==> perm[i] < hosts
    ensures p.NotEnoughHosts? <==> hosts == 0 || size > hosts
    ensures p.Groups? ==>
              && Placed(p.rows, leaders, size, hosts) && |p.rows| == groups
              && |p.load| == hosts && LoadsTrue(p.load, p.rows) && Sum(p.load) == groups * size
              && forall h: nat :: h < hosts ==>
                   groups / hosts <= Count(leaders, h) <= groups / hosts + (if groups % hosts == 0 then 0 else 1)
    ensures p.Groups? ==> |trace| == moves + 1 && Evened(trace, p.rows, p.load, leaders, onHost, groups, size, hosts)
  {
    leaders, onHost, moves, trace := [], [], 0, [];
    if hosts == 0 || size > hosts { return NotEnoughHosts, [], [], 0, []; }
    var average := groups * size / hosts;
    var first := GetRandIndex(hosts, groups, perm);
    leaders := first;
    var rows := FillRows(first, size, hosts);
    assert forall i :: 0 <= i < |rows| ==> RowOk(rows[i], leaders[i], size, hosts);
    var load, lists := Tally(rows, hosts);
    onHost := lists;
    AverageBounds(groups * size, hosts);
    ListedInRange(lists, rows);
    rows, load, moves, trace := Balance(rows, load, lists, leaders, size, hosts, average);
    SumLoads(rows, leaders, size, hosts);
    assert load == Loads(rows, hosts);
    p := Groups(rows, load);
  }

  lemma AverageBounds(total: nat, hosts: nat)
    requires hosts > 0
    ensures hosts * (total / hosts) <= total < hosts * (total / hosts + 1)
  {
  }
}
