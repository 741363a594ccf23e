/** The user-space client: its own split loops, the count of outstanding objects that
    decides when the callback fires, and the reassembly of a read. */
module UserClient {
  import opened ObjectMath
  import opened ObjectNames
  import opened ObjectHash
  import opened Split
  import opened FlatImage

  /** default_object_size, 4 MiB */
  const OBJECT: nat := 0x40_0000

  // ---- The number of objects ---------------------------------------------------------

  /** The value of x in 64 bits. */
  function Wrap(x: int): nat
    decreases if x < 0 then U64 - x else x
  {
    if x < 0 then Wrap(x + U64) else if x < U64 then x else Wrap(x - U64)
  }

  lemma WrapLaps(x: nat, laps: int)
    requires x < U64 && -1 <= laps <= 2
    ensures Wrap(x - laps * U64) == x
  {
    assert Wrap(x) == x && Wrap(x + U64) == x && Wrap(x - U64) == x;
    assert Wrap(x - 2 * U64) == Wrap(x - U64);
  }

  /** Clearing the low bits of an object-sized alignment. */
  function AlignDown(x: nat): nat {
    Locate(x, OBJECT);
    x - OffsetIn(x, OBJECT)
  }

  function AlignUp(x: nat): nat { AlignDown(Wrap(x + OBJECT - 1)) }

  /** get_obj_num, in u64 arithmetic. */
  function ObjNum(off: nat, len: nat): nat {
    ObjectOf(Wrap(AlignUp(Wrap(off + len)) - AlignDown(off)), OBJECT)
  }

  /** Objects in a 64-bit address space. */
  const LAP: nat := 0x400_0000_0000

  lemma LapIsWhole()
    ensures StartOf(LAP, OBJECT) == U64
  {
    StartIsProduct(LAP, OBJECT);
  }

  lemma {:induction false} StartAdds(m: nat, n: nat)
    requires m <= n
    ensures StartOf(n, OBJECT) - StartOf(m, OBJECT) == StartOf(n - m, OBJECT)
  {
    if m > 0 {
      StartAdds(m - 1, n - 1);
    }
  }

  /** AlignUp rounds up to the start of an object; 2^64 itself reads as 0. */
  lemma AlignUpExact(x: nat, m: nat)
    requires x < U64 && StartOf(m, OBJECT) < x + OBJECT && x <= StartOf(m, OBJECT)
    ensures AlignUp(x) == if m == LAP then 0 else StartOf(m, OBJECT)
  {
    LapIsWhole();
    var t := x + OBJECT - 1;
    ObjectIff(t, m, OBJECT);
    Locate(t, OBJECT);
    if m < LAP {
      StartMonotone(m, LAP, OBJECT);
    } else if m > LAP {
      StartMonotone(LAP, m, OBJECT);
    } else {
      WrapLaps(t - U64, -1);
      assert OffsetIn(t - U64, OBJECT) == t - U64;
    }
  }

  /** The aligned end of the range is the start of the object after its last one, up to
      whole laps of the address space. */
  lemma EndAligned(off: nat, len: nat, n: nat) returns (laps: nat)
    requires off < U64 && 0 < len < U64 && n == ObjectOf(off + len - 1, OBJECT) + 1
    ensures laps <= 2 && AlignUp(Wrap(off + len)) == StartOf(n, OBJECT) - laps * U64
  {
    Locate(off + len - 1, OBJECT);
    LapIsWhole();
    if off + len < U64 {
      AlignUpExact(off + len, n);
      laps := if n == LAP then 1 else 0;
    } else {
      WrapLaps(off + len - U64, -1);
      if n < LAP {
        StartMonotone(n, LAP, OBJECT);
      }
      StartAdds(LAP, n);
      AlignUpExact(off + len - U64, n - LAP);
      laps := if n - LAP == LAP then 2 else 1;
    }
  }

  /** d objects, counted modulo the address space. */
  lemma CountWraps(d: nat, laps: nat)
    requires d < 2 * LAP && laps <= 2
    ensures ObjectOf(Wrap(StartOf(d, OBJECT) - laps * U64), OBJECT) == if d < LAP then d else d - LAP
  {
    LapIsWhole();
    if d < LAP {
      StartMonotone(d, LAP, OBJECT);
      WrapLaps(StartOf(d, OBJECT), laps);
      ObjectIff(StartOf(d, OBJECT), d, OBJECT);
    } else {
      StartAdds(LAP, d);
      StartMonotone(d - LAP, LAP, OBJECT);
      WrapLaps(StartOf(d - LAP, OBJECT), laps - 1);
      ObjectIff(StartOf(d - LAP, OBJECT), d - LAP, OBJECT);
    }
  }

  /** A range shorter than the address space touches less than two laps of objects. */
  lemma ShortSpan(off: nat, len: nat)
    requires 0 < len < U64
    ensures Span(OBJECT, off, len) < 2 * LAP
  {
    LapIsWhole();
    var first, last := ObjectOf(off, OBJECT), ObjectOf(off + len - 1, OBJECT);
    ObjectMonotone(off, off + len - 1, OBJECT);
    Locate(off, OBJECT);
    Locate(off + len - 1, OBJECT);
    StartAdds(first, last);
    if last - first > LAP {
      StartMonotone(LAP, last - first, OBJECT);
    }
  }

  /** The count is right modulo a lap, so right for every range that touches fewer than
      2^42 objects, even one that ends at or past 2^64. */
  lemma ObjNumExact(off: nat, len: nat)
    requires off < U64 && 0 < len < U64
    ensures var n := Span(OBJECT, off, len);
      n < 2 * LAP && ObjNum(off, len) == if n < LAP then n else n - LAP
  {
    var first, n := ObjectOf(off, OBJECT), ObjectOf(off + len - 1, OBJECT) + 1;
    ShortSpan(off, len);
    ObjectMonotone(off, off + len - 1, OBJECT);
    Locate(off, OBJECT);
    var laps := EndAligned(off, len, n);
    StartAdds(first, n);
    CountWraps(n - first, laps);
  }

  // ---- The split loops ------------------------------------------------------------------

  /** calc_first_object_position */
  method FirstPosition(off: nat, len: nat, size: nat) returns (take: nat, inObject: nat, seqNo: nat)
    requires size > 0
    ensures inObject == OffsetIn(off, size) && seqNo == ObjectOf(off, size)
    ensures take == Min(len, size - inObject)
  {
    ObjectIsQuotient(off, size);
    inObject := off % size;
    take := size - inObject;
    if len < take { take := len; }
    seqNo := off / size;
  }

  /** The write and read loops: the first piece from calc_first_object_position, then whole
      objects, the last one cut to what is left. They yield the kernel client's pieces, so
      the loop turns once per object of the range. */
  method UserSplit(size: nat, off: nat, len: nat) returns (ps: seq<Piece>)
    requires size > 0
    ensures ps == Pieces(size, off, len) && |ps| == Span(size, off, len)
  {
    ps := [];
    Locate(off, size);
    var take: nat, inObject: nat, seqNo: nat := FirstPosition(off, len, size);
    var done: nat := 0;
    ghost var all := Cut(size, off, len, 0);
    while done < len
      invariant |ps| <= |all| && ps == all[..|ps|]
      invariant LoopAt(all, |ps|, size, off, len, Piece(seqNo, done, inObject, take))
      decreases len - done
    {
      var p := Piece(seqNo, done, inObject, take);
      LoopStep(all, |ps|, size, off, len, p);
      ps := ps + [p];
      done := done + take;
      take := size;
      if take > len - done { take := len - done; }
      inObject := 0;
      seqNo := seqNo + 1;
    }
    CutAll(size, off, len);
  }

  /** The loop's variables describe the next piece to cut, if one is left. */
  ghost predicate LoopAt(all: seq<Piece>, i: nat, size: nat, off: nat, len: nat, p: Piece)
    requires size > 0
  {
    && p.requestOffset <= len
    && Remains(all, i, size, off + p.requestOffset, len - p.requestOffset, p.requestOffset)
    && (p.requestOffset < len ==>
          && p == NextPiece(size, off + p.requestOffset, len - p.requestOffset, p.requestOffset)
          && StartOf(p.objectSeq, size) + p.objectOffset == off + p.requestOffset)
  }

  lemma LoopStep(all: seq<Piece>, i: nat, size: nat, off: nat, len: nat, p: Piece)
    requires size > 0 && LoopAt(all, i, size, off, len, p) && p.requestOffset < len
    ensures i < |all| && all[i] == p && 0 < p.length <= len - p.requestOffset
    ensures var done := p.requestOffset + p.length;
      LoopAt(all, i + 1, size, off, len, Piece(p.objectSeq + 1, done, 0, Min(size, len - done)))
  {
    var done := p.requestOffset + p.length;
    CutStep(all, i, size, off + p.requestOffset, len - p.requestOffset, p.requestOffset, p);
    if done < len {
      WholeNext(size, off + done, p.objectSeq + 1, len - done, done);
    }
  }

  /** At the start of an object the loop takes the whole object or all that is left. */
  lemma WholeNext(size: nat, a: nat, seqNo: nat, left: nat, done: nat)
    requires size > 0 && left > 0 && StartOf(seqNo, size) == a
    ensures NextPiece(size, a, left, done) == Piece(seqNo, done, 0, Min(left, size))
  {
    ObjectIff(a, seqNo, size);
    Locate(a, size);
  }

  // ---- When the callback fires ------------------------------------------------------------

  /** write_source and read_source: the u32 count of objects still out, the result so far,
      and the results that the callback was given. */
  datatype Source = Source(objNum: nat, result: int, fired: seq<int>)

  /** A source for n objects; n is stored in 32 bits. */
  function NewSource(n: nat): Source {
    Source(n % 0x1_0000_0000, 0, [])
  }

  /** write_done, and read_done apart from the copy: an error replaces the result, and the
      callback fires when the count reaches zero. */
  function Done(s: Source, state: int): Source {
    var result := if state != 0 then state else s.result;
    var left := if s.objNum == 0 then U32 - 1 else s.objNum - 1;
    Source(left, result, if left == 0 then s.fired + [result] else s.fired)
  }

  function AllDone(s: Source, states: seq<int>): Source {
    if states == [] then s
    else Done(AllDone(s, states[..|states| - 1]), states[|states| - 1])
  }

  /** The last error among the completions, or success. */
  function Outcome(states: seq<int>): (r: int)
    ensures r == 0 <==> forall i :: 0 <= i < |states| ==> states[i] == 0
  {
    if states == [] then 0
    else
      var r := Outcome(states[..|states| - 1]);
      assert states == states[..|states| - 1] + [states[|states| - 1]];
      if states[|states| - 1] != 0 then states[|states| - 1] else r
  }

  /** The count after some completions, when it started at c. */
  lemma {:induction false} CountDown(c: nat, states: seq<int>)
    requires c < U32 && |states| <= c + U32
    ensures var s := AllDone(Source(c, 0, []), states);
      && s.objNum == (if |states| <= c then c - |states| else c + U32 - |states|)
      && s.result == Outcome(states)
      && s.fired == Firings(c, states)
  {
    if states != [] {
      var front := states[..|states| - 1];
      CountDown(c, front);
      assert c <= |front| ==> front[..c] == states[..c];
      assert states[..|states|] == states;
    }
  }

  /** The callback results: one at completion c (if c > 0) and one at completion c + 2^32. */
  function Firings(c: nat, states: seq<int>): seq<int> {
    (if 0 < c <= |states| then [Outcome(states[..c])] else [])
    + (if c + U32 <= |states| then [Outcome(states[..c + U32])] else [])
  }

  /** Over n completions, with n stored in 32 bits, the callback fires exactly once, at the
      last one and with the overall outcome, exactly for n up to 2^32. */
  lemma {:induction false} CountFiresIff(n: nat)
    requires n > 0
    ensures n <= U32 <==> FiresLast(NewSource(n), n)
  {
    if n <= U32 {
      forall states: seq<int> | |states| <= n
        ensures AllDone(NewSource(n), states).fired == if |states| == n then [Outcome(states)] else []
      {
        CountDown(if n < U32 then n else 0, states);
        assert states[..|states|] == states;
      }
    } else {
      var c := n % 0x1_0000_0000;
      var early := seq(if c > 0 then c else U32, _ => 0);
      CountDown(c, early);
      assert |AllDone(NewSource(n), early).fired| == 1;
    }
  }

  /** Whatever the n completions report, the callback fires at the last of them and only then. */
  ghost predicate FiresLast(s: Source, n: nat) {
    forall states: seq<int> :: |states| <= n ==> AllDone(s, states).fired == if |states| == n then [Outcome(states)] else []
  }

  /** The count that a request stores is that of the pieces its loop cuts, in 32 bits. */
  lemma {:induction false} StoredCount(off: nat, len: nat)
    requires off < U64 && 0 < len < U64
    ensures NewSource(ObjNum(off, len)) == NewSource(Span(OBJECT, off, len))
  {
    ObjNumExact(off, len);
    LapIsEven(ObjNum(off, len));
  }

  lemma {:induction false} LapIsEven(n: nat)
    ensures (n + LAP) % 0x1_0000_0000 == n % 0x1_0000_0000
  {
  }

  /** For every request: its callback fires exactly once, when the last of the pieces that its
      loop cuts is completed, exactly when there are at most 2^32 of them. */
  lemma {:induction false} FiresOnceIff(off: nat, len: nat)
    requires off < U64 && 0 < len < U64
    ensures Span(OBJECT, off, len) <= U32 <==> FiresLast(NewSource(ObjNum(off, len)), Span(OBJECT, off, len))
  {
    StoredCount(off, len);
    CountFiresIff(Span(OBJECT, off, len));
  }

  // ---- Reassembling a read -----------------------------------------------------------------

  /** Where read_done puts the data of object idx. */
  function Position(first: nat, idx: nat, size: nat): nat {
    if idx == 0 then 0 else first + (idx - 1) * size
  }

  lemma {:induction false} StartShift(o: nat, i: nat, size: nat)
    ensures StartOf(o + i, size) == StartOf(o, size) + i * size
  {
    StartIsProduct(o + i, size);
    StartIsProduct(o, size);
    assert (o + i) * size == o * size + i * size;
  }

  /** That is the offset of the object's piece in the request. */
  lemma PositionIsOffset(size: nat, off: nat, len: nat, i: nat)
    requires size > 0 && i < Span(size, off, len)
    ensures Position(PieceAt(size, off, len, 0).length, i, size) == PieceAt(size, off, len, i).requestOffset
  {
    Touches(size, off, len, 0);
    Touches(size, off, len, i);
    if i > 0 {
      StartShift(ObjectOf(off, size) + 1, i - 1, size);
    }
  }

  class ReadSource {
    const first: nat
    const size: nat
    const buf: array<Byte>
    var source: Source

    constructor (n: nat, len: nat, first: nat, size: nat)
      ensures source == NewSource(n) && fresh(buf) && buf[..] == Zeros(len)
      ensures this.first == first && this.size == size
    {
      this.first, this.size := first, size;
      buf := new Byte[len](_ => 0);
      source := NewSource(n);
    }

    /** read_done: a successful piece is copied to its place; a failed one only counts. */
    method ReadDone(idx: nat, data: seq<Byte>, state: int)
      requires state == 0 ==> Position(first, idx, size) + |data| <= buf.Length
      modifies this, buf
      ensures source == Done(old(source), state)
      ensures buf[..] == if state == 0 then Overlay(old(buf[..]), Position(first, idx, size), data) else old(buf[..])
    {
      if state == 0 {
        var at := if idx == 0 then 0 else first + (idx - 1) * size;
        forall k | 0 <= k < |data| {
          buf[at + k] := data[k];
        }
      }
      source := Done(source, state);
    }
  }

  /** The read buffer after the replies arrived in the order of run; a failed piece has an
      empty reply. */
  function Reassemble(len: nat, reply: Piece -> seq<Byte>, run: seq<Piece>): seq<Byte> {
    Fold(Placer(reply), Zeros(len), run)
  }

  function Placer(reply: Piece -> seq<Byte>): (seq<Byte>, Piece) -> seq<Byte> {
    (b: seq<Byte>, p: Piece) => Overlay(b, p.requestOffset, reply(p))
  }

  /** In whatever order the pieces arrive, each ends up at its place, zero-filled where its
      reply was short: the buffer is the concatenation of the pieces. */
  lemma {:induction false} ReassembledByte(size: nat, off: nat, len: nat, reply: Piece -> seq<Byte>, run: seq<Piece>, j: nat, i: nat)
    requires size > 0 && j < len && i < Span(size, off, len)
    requires forall p :: p in run <==> p in Pieces(size, off, len)
    requires forall p :: p in run ==> |reply(p)| <= p.length
    requires Holds(PieceAt(size, off, len, i), j)
    ensures var p := PieceAt(size, off, len, i);
      && |Reassemble(len, reply, run)| == len
      && Reassemble(len, reply, run)[j] == ByteOf(reply(p), j - p.requestOffset)
  {
    var home := PieceAt(size, off, len, i);
    var value := ByteOf(reply(home), j - home.requestOffset);
    var step := Placer(reply);
    var inv := (b: seq<Byte>) => |b| == len;
    var get := (b: seq<Byte>) => ByteOf(b, j);
    var hit := (p: Piece) => p.requestOffset <= j < p.requestOffset + |reply(p)|;
    OnlyHome(size, off, len, i, j);
    assert forall p :: p in run && hit(p) ==> p == home;
    assert home == Pieces(size, off, len)[i] && home in run;
    FoldSettles(step, Zeros(len), run, inv, get, hit, value);
    assert (exists p :: p in run && hit(p)) <==> hit(home);
  }

  lemma {:induction false} OnlyHome(size: nat, off: nat, len: nat, i: nat, j: nat)
    requires size > 0 && j < len && i < Span(size, off, len) && Holds(PieceAt(size, off, len, i), j)
    ensures forall p :: p in Pieces(size, off, len) && Holds(p, j) ==> p == PieceAt(size, off, len, i)
  {
    var h := ByteHome(size, off, len, j);
    forall p | p in Pieces(size, off, len) && Holds(p, j)
      ensures p == PieceAt(size, off, len, i)
    {
      var k :| 0 <= k < |Pieces(size, off, len)| && Pieces(size, off, len)[k] == p;
      assert Holds(PieceAt(size, off, len, k), j);
    }
  }

  /** The pieces' replies one after the other, each filled up with zeros to its length. */
  function Joined(ps: seq<Piece>, replies: seq<seq<Byte>>): seq<Byte>
    requires |ps| == |replies|
  {
    if ps == [] then []
    else
      var k := |ps| - 1;
      Joined(ps[..k], replies[..k]) + Slice(replies[k], 0, ps[k].length)
  }

  lemma {:induction false} PartitionFront(ps: seq<Piece>, size: nat, off: nat, len: nat)
    requires ps != [] && Partitions(ps, size, off, len)
    ensures var k := |ps| - 1;
      Partitions(ps[..k], size, off, ps[k].requestOffset) && ps[k].requestOffset + ps[k].length == len
  {
    assert |ps| > 1 ==> Follows(ps[|ps| - 2], ps[|ps| - 1]);
  }

  lemma {:induction false} JoinedLength(ps: seq<Piece>, replies: seq<seq<Byte>>, size: nat, off: nat, len: nat)
    requires |ps| == |replies| && Partitions(ps, size, off, len)
    ensures |Joined(ps, replies)| == len
  {
    if ps != [] {
      var k := |ps| - 1;
      PartitionFront(ps, size, off, len);
      JoinedLength(ps[..k], replies[..k], size, off, ps[k].requestOffset);
    }
  }

  lemma ByteOfConcat(a: seq<Byte>, b: seq<Byte>, j: nat)
    ensures ByteOf(a + b, j) == if j < |a| then ByteOf(a, j) else ByteOf(b, j - |a|)
  {
  }

  /** In the concatenation every piece is at its own offset. */
  lemma {:induction false} JoinedByte(ps: seq<Piece>, replies: seq<seq<Byte>>, size: nat, off: nat, len: nat, i: nat, j: nat)
    requires |ps| == |replies| && Partitions(ps, size, off, len) && i < |ps| && Holds(ps[i], j)
    ensures ByteOf(Joined(ps, replies), j) == ByteOf(replies[i], j - ps[i].requestOffset)
  {
    var k := |ps| - 1;
    var front, back := Joined(ps[..k], replies[..k]), Slice(replies[k], 0, ps[k].length);
    PartitionFront(ps, size, off, len);
    JoinedLength(ps[..k], replies[..k], size, off, ps[k].requestOffset);
    ByteOfConcat(front, back, j);
    if i < k {
      Before(ps, size, off, len, i);
      JoinedByte(ps[..k], replies[..k], size, off, ps[k].requestOffset, i, j);
    }
  }

  /** A piece ends before the last one starts. */
  lemma {:induction false} Before(ps: seq<Piece>, size: nat, off: nat, len: nat, i: nat)
    requires Partitions(ps, size, off, len) && i < |ps| - 1
    ensures ps[i].requestOffset + ps[i].length <= ps[|ps| - 1].requestOffset
    decreases |ps|
  {
    var k := |ps| - 1;
    PartitionFront(ps, size, off, len);
    if i < k - 1 {
      Before(ps[..k], size, off, ps[k].requestOffset, i);
      PartitionFront(ps[..k], size, off, ps[k].requestOffset);
    }
  }

  /** What a piece contributes: a failed one nothing. */
  function Arrived(replies: seq<seq<Byte>>, states: seq<int>): (r: seq<seq<Byte>>)
    requires |replies| == |states|
    ensures |r| == |replies| && forall i :: 0 <= i < |r| ==> r[i] == if states[i] == 0 then replies[i] else []
  {
    seq(|replies|, i requires 0 <= i < |replies| => if states[i] == 0 then replies[i] else [])
  }

  /** The replies by piece. */
  function ByPiece(size: nat, off: nat, arrived: seq<seq<Byte>>): Piece -> seq<Byte>
    requires size > 0
  {
    (p: Piece) => var i := p.objectSeq - ObjectOf(off, size); if 0 <= i < |arrived| then arrived[i] else []
  }

  function Picked<T>(s: seq<T>, order: seq<nat>): (r: seq<T>)
    requires forall k :: 0 <= k < |order| ==> order[k] < |s|
    ensures |r| == |order| && forall k :: 0 <= k < |order| ==> r[k] == s[order[k]]
  {
    seq(|order|, k requires 0 <= k < |order| => s[order[k]])
  }

  /** Every piece completes exactly once, in the order given. */
  ghost predicate Completes(order: seq<nat>, n: nat) {
    |order| == n && (forall k :: 0 <= k < n ==> order[k] < n) && forall i: nat :: i < n ==> i in order
  }

  /** What the OSDs may answer: no more than was asked for. */
  ghost predicate Answers(ps: seq<Piece>, replies: seq<seq<Byte>>, states: seq<int>) {
    |replies| == |states| == |ps| && forall i :: 0 <= i < |ps| && states[i] == 0 ==> |replies[i]| <= ps[i].length
  }

  lemma {:induction false} InAnyOrder(size: nat, off: nat, len: nat, arrived: seq<seq<Byte>>, order: seq<nat>)
    requires size > 0 && |arrived| == Span(size, off, len) && Completes(order, |arrived|)
    requires forall i: nat :: i < |arrived| ==> |arrived[i]| <= PieceAt(size, off, len, i).length
    ensures Reassemble(len, ByPiece(size, off, arrived), Picked(Pieces(size, off, len), order)) ==
            Joined(Pieces(size, off, len), arrived)
  {
    var ps := Pieces(size, off, len);
    var run, reply := Picked(ps, order), ByPiece(size, off, arrived);
    PiecesPartition(size, off, len);
    JoinedLength(ps, arrived, size, off, len);
    forall p
      ensures p in run <==> p in ps
      ensures p in ps ==> |reply(p)| <= p.length
    {
      PickedIn(ps, order, p);
      RepliesFit(size, off, len, arrived, p);
    }
    ReassembledLength(len, reply, run);
    forall j: nat | j < len
      ensures Reassemble(len, reply, run)[j] == Joined(ps, arrived)[j]
    {
      SameByte(size, off, len, arrived, run, j);
    }
  }

  lemma {:induction false} RepliesFit(size: nat, off: nat, len: nat, arrived: seq<seq<Byte>>, p: Piece)
    requires size > 0 && |arrived| == Span(size, off, len)
    requires forall i: nat :: i < |arrived| ==> |arrived[i]| <= PieceAt(size, off, len, i).length
    ensures p in Pieces(size, off, len) ==> |ByPiece(size, off, arrived)(p)| <= p.length
  {
    if p in Pieces(size, off, len) {
      var i: nat :| i < |Pieces(size, off, len)| && Pieces(size, off, len)[i] == p;
      PieceFits(size, off, len, i);
    }
  }

  lemma {:induction false} JoinedAt(size: nat, off: nat, len: nat, arrived: seq<seq<Byte>>, i: nat, j: nat)
    requires size > 0 && |arrived| == Span(size, off, len) && i < |arrived| && Holds(PieceAt(size, off, len, i), j)
    ensures |Joined(Pieces(size, off, len), arrived)| == len
    ensures ByteOf(Joined(Pieces(size, off, len), arrived), j) ==
            ByteOf(arrived[i], j - PieceAt(size, off, len, i).requestOffset)
  {
    var ps := Pieces(size, off, len);
    PiecesPartition(size, off, len);
    JoinedLength(ps, arrived, size, off, len);
    assert ps[i] == PieceAt(size, off, len, i);
    JoinedByte(ps, arrived, size, off, len, i, j);
  }

  lemma {:induction false} SameByte(size: nat, off: nat, len: nat, arrived: seq<seq<Byte>>, run: seq<Piece>, j: nat)
    requires size > 0 && |arrived| == Span(size, off, len) && j < len
    requires forall p :: p in run <==> p in Pieces(size, off, len)
    requires forall p :: p in run ==> |ByPiece(size, off, arrived)(p)| <= p.length
    ensures |Reassemble(len, ByPiece(size, off, arrived), run)| == |Joined(Pieces(size, off, len), arrived)| == len
    ensures Reassemble(len, ByPiece(size, off, arrived), run)[j] == Joined(Pieces(size, off, len), arrived)[j]
  {
    var i := ByteHome(size, off, len, j);
    assert Holds(PieceAt(size, off, len, i), j);
    PieceFits(size, off, len, i);
    JoinedAt(size, off, len, arrived, i, j);
    ReassembledByte(size, off, len, ByPiece(size, off, arrived), run, j, i);
  }

  lemma {:induction false} PickedIn<T>(s: seq<T>, order: seq<nat>, x: T)
    requires Completes(order, |s|)
    ensures x in Picked(s, order) <==> x in s
  {
    if x in s {
      var i: nat :| i < |s| && s[i] == x;
      assert i in order;
      var k :| 0 <= k < |order| && order[k] == i;
      assert Picked(s, order)[k] == x;
    }
  }

  lemma {:induction false} ReassembledLength(len: nat, reply: Piece -> seq<Byte>, run: seq<Piece>)
    ensures |Reassemble(len, reply, run)| == len
  {
    FoldSettles(Placer(reply), Zeros(len), run, (b: seq<Byte>) => |b| == len, _ => 0, _ => false, 0);
  }

  /** One completion: the piece's reply is laid at its offset in the request. */
  method Complete(source: ReadSource, size: nat, off: nat, len: nat, i: nat, replies: seq<seq<Byte>>, states: seq<int>)
    requires size > 0 && i < Span(size, off, len) && Answers(Pieces(size, off, len), replies, states)
    requires source.first == PieceAt(size, off, len, 0).length && source.size == size && source.buf.Length == len
    modifies source, source.buf
    ensures source.source == Done(old(source.source), states[i])
    ensures source.buf[..] == Placer(ByPiece(size, off, Arrived(replies, states)))(old(source.buf[..]), PieceAt(size, off, len, i))
  {
    PositionIsOffset(size, off, len, i);
    PieceFits(size, off, len, i);
    assert |replies| == |Pieces(size, off, len)|;
    source.ReadDone(i, replies[i], states[i]);
  }

  /** All completions, in the order given. */
  method CompleteAll(source: ReadSource, size: nat, off: nat, len: nat, order: seq<nat>, replies: seq<seq<Byte>>,
                     states: seq<int>, ghost run: seq<Piece>, ghost reports: seq<int>)
    requires size > 0 && len > 0
    requires Completes(order, Span(size, off, len)) && Answers(Pieces(size, off, len), replies, states)
    requires source.first == PieceAt(size, off, len, 0).length && source.size == size && source.buf[..] == Zeros(len)
    requires run == Picked(Pieces(size, off, len), order) && reports == Picked(states, order)
    modifies source, source.buf
    ensures source.source == AllDone(old(source.source), reports)
    ensures source.buf[..] == Reassemble(len, ByPiece(size, off, Arrived(replies, states)), run)
  {
    ghost var reply, start := ByPiece(size, off, Arrived(replies, states)), source.source;
    for k := 0 to |order|
      invariant source.source == AllDone(start, reports[..k])
      invariant source.buf[..] == Fold(Placer(reply), Zeros(len), run[..k])
    {
      FoldStep(Placer(reply), Zeros(len), run, k);
      DoneStep(start, reports, k);
      Complete(source, size, off, len, order[k], replies, states);
    }
    assert run[..|order|] == run && reports[..|order|] == reports;
  }

  lemma {:induction false} DoneStep(s: Source, states: seq<int>, k: nat)
    requires k < |states|
    ensures AllDone(s, states[..k + 1]) == Done(AllDone(s, states[..k]), states[k])
  {
    assert states[..k + 1][..k] == states[..k];
  }

  /** A read from end to end: the range is split, and the pieces complete in any order with any
      outcome. The buffer given to the callback is the concatenation of what arrived, and the
      callback fires once, at the last completion, with the overall outcome. */
  method Read(off: nat, len: nat, order: seq<nat>, replies: seq<seq<Byte>>, states: seq<int>)
    returns (ps: seq<Piece>, buf: seq<Byte>, fired: seq<int>)
    requires off < U64 && len < U64
    requires Completes(order, Span(OBJECT, off, len)) && Answers(Pieces(OBJECT, off, len), replies, states)
    ensures ps == Pieces(OBJECT, off, len)
    ensures buf == Joined(ps, Arrived(replies, states))
    ensures |ps| <= U32 ==> fired == [Outcome(Picked(states, order))]
  {
    if len == 0 { return [], [], [0]; }
    var first, inObject, seqNo := FirstPosition(off, len, OBJECT);
    var source := new ReadSource(ObjNum(off, len), len, first, OBJECT);
    ps := UserSplit(OBJECT, off, len);
    FirstTake(OBJECT, off, len, first);
    CompleteAll(source, OBJECT, off, len, order, replies, states, Picked(ps, order), Picked(states, order));
    InAnyOrder(OBJECT, off, len, Arrived(replies, states), order);
    FiresOnceIff(off, len);
    buf, fired := source.buf[..], source.source.fired;
  }

  lemma {:induction false} PieceFits(size: nat, off: nat, len: nat, i: nat)
    requires size > 0 && i < Span(size, off, len)
    ensures var p := PieceAt(size, off, len, i);
      p.requestOffset + p.length <= len && p.objectSeq == ObjectOf(off, size) + i
  {
    Touches(size, off, len, i);
  }

  lemma {:induction false} FirstTake(size: nat, off: nat, len: nat, take: nat)
    requires size > 0 && len > 0 && take == Min(len, size - OffsetIn(off, size))
    ensures PieceAt(size, off, len, 0).length == take
  {
    Touches(size, off, len, 0);
    CutsPiece(size, off, len, 0, off);
  }

  // ---- The same object and placement group as the kernel client -----------------------------

  /** With equal object size, the user-space client names and routes every piece of every
      request exactly as the kernel client does. */
  lemma {:induction false} RoutesLikeKernel(img: Image, off: nat, len: nat, i: nat)
    requires off + len <= U64 && i < Span(OBJECT, off, len)
    requires img.pool < U32 && |img.name| < MAX_IMAGE_NAME && img.pgCount > 0
    ensures var e := Extents(img, OBJECT, off, len)[i];
      && e.objectName == UserName(img.pool, img.name, e.piece.objectSeq)
      && e.pgId == UserPg(e.objectName, img.pgCount)
  {
    var o := PieceAt(OBJECT, off, len, i).objectSeq;
    Touches(OBJECT, off, len, i);
    StartIsProduct(o, OBJECT);
    UserNameWholeIff(img.pool, img.name, o);
    KernelNameWhole(img.pool, img.name, o);
    SamePg(KernelName(img.pool, img.name, o), img.pgCount);
  }
}
