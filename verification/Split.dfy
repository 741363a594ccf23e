/** Splitting a byte range into object extents: the kernel client's estimate, allocation
    and split loop, against a closed form in which piece i is simply the part of the
    range that lies in object first + i. */
module Split {
  import opened ObjectMath
  import opened ObjectNames
  import opened ObjectHash

  /** byte_offset is a u64, byte_length and object_size are u32. */
  const U64: nat := 0x1_0000_0000_0000_0000
  const U32: nat := 0x1_0000_0000

  /** The sum of two u64 values keeps its low 64 bits. */
  function Add64(x: nat, y: nat): nat
    requires x < U64 && y < U64
  {
    if x + y < U64 then x + y else x + y - U64
  }

  /** KFASTBLOCK_MAX_OBJECT_EXTENTS */
  const MAX_EXTENTS: nat := 128

  datatype Errno = OK | EINVAL | E2BIG

  datatype Image = Image(pool: nat, name: Name, pgCount: nat)

  /** One object's share of a request: the offsets and length of an object extent. */
  datatype Piece = Piece(objectSeq: nat, requestOffset: nat, objectOffset: nat, length: nat)

  /** struct kfastblock_object_extent */
  datatype Extent = Extent(piece: Piece, objectName: Name, pgId: nat)

  function Routed(img: Image, p: Piece): Extent {
    var name := KernelName(img.pool, img.name, p.objectSeq);
    Extent(p, name, KernelPg(name, img.pgCount))
  }

  function Min(a: int, b: int): int { if a <= b then a else b }
  function Max(a: int, b: int): int { if a >= b then a else b }

  /** Number of objects that the bytes [off, off + len) touch. */
  function Span(size: nat, off: nat, len: nat): (n: nat)
    requires size > 0
    ensures n == 0 <==> len == 0
  {
    if len == 0 then 0
    else
      ObjectMonotone(off, off + len - 1, size);
      ObjectOf(off + len - 1, size) - ObjectOf(off, size) + 1
  }

  /** The part of [off, off + len) inside the i-th object it touches. */
  function PieceAt(size: nat, off: nat, len: nat, i: nat): Piece
    requires size > 0 && i < Span(size, off, len)
  {
    var o := ObjectOf(off, size) + i;
    Touches(size, off, len, i);
    var from, to := Max(off, StartOf(o, size)), Min(off + len, StartOf(o, size) + size);
    Piece(o, from - off, from - StartOf(o, size), to - from)
  }

  function Pieces(size: nat, off: nat, len: nat): seq<Piece>
    requires size > 0
  {
    seq(Span(size, off, len), i requires 0 <= i < Span(size, off, len) => PieceAt(size, off, len, i))
  }

  function Labelled(route: Piece -> Extent, ps: seq<Piece>): seq<Extent> {
    seq(|ps|, i requires 0 <= i < |ps| => route(ps[i]))
  }

  /** The extents of a request: its pieces with object name and placement group. */
  function Extents(img: Image, size: nat, off: nat, len: nat): seq<Extent>
    requires size > 0
  {
    Labelled(p => Routed(img, p), Pieces(size, off, len))
  }

  /** The i-th object touched starts before the range ends and ends after it starts; it
      runs into the next one exactly when there is a next one. */
  lemma Touches(size: nat, off: nat, len: nat, i: nat)
    requires size > 0 && i < Span(size, off, len)
    ensures var s := StartOf(ObjectOf(off, size) + i, size);
      && s < off + len && off < s + size
      && (if i == 0 then s <= off else off < s)
      && (i + 1 < Span(size, off, len) <==> s + size < off + len)
  {
    var o := ObjectOf(off, size) + i;
    var last := ObjectOf(off + len - 1, size);
    Locate(off, size);
    Locate(off + len - 1, size);
    if i > 0 {
      StartMonotone(ObjectOf(off, size), o, size);
    }
    if o < last {
      StartMonotone(o, last, size);
    }
  }

  /** A non-empty piece inside one object, at the place its request offset says. */
  ghost predicate InOneObject(e: Piece, size: nat, off: nat) {
    && 0 < e.length && e.objectOffset + e.length <= size
    && StartOf(e.objectSeq, size) + e.objectOffset == off + e.requestOffset
  }

  ghost predicate Follows(d: Piece, e: Piece) {
    e.requestOffset == d.requestOffset + d.length && e.objectSeq == d.objectSeq + 1
  }

  /** What the split promises: every piece is non-empty and inside one object, request
      offsets are running sums, and together the pieces are exactly the byte range. */
  ghost predicate Partitions(es: seq<Piece>, size: nat, off: nat, len: nat) {
    && (forall i :: 0 <= i < |es| ==> InOneObject(es[i], size, off))
    && (forall i :: 0 < i < |es| ==> Follows(es[i - 1], es[i]))
    && (if es == [] then len == 0
        else es[0].requestOffset == 0 && es[|es| - 1].requestOffset + es[|es| - 1].length == len)
  }

  lemma PieceInOneObject(size: nat, off: nat, len: nat, i: nat)
    requires size > 0 && i < Span(size, off, len)
    ensures InOneObject(PieceAt(size, off, len, i), size, off)
  {
    Touches(size, off, len, i);
  }

  lemma PiecesPartition(size: nat, off: nat, len: nat)
    requires size > 0
    ensures Partitions(Pieces(size, off, len), size, off, len)
  {
    var es := Pieces(size, off, len);
    forall i | 0 <= i < |es|
      ensures InOneObject(es[i], size, off)
    {
      PieceInOneObject(size, off, len, i);
    }
    forall i | 0 < i < |es|
      ensures Follows(es[i - 1], es[i])
    {
      Touches(size, off, len, i - 1);
      Touches(size, off, len, i);
    }
    if es != [] {
      Touches(size, off, len, 0);
      Touches(size, off, len, |es| - 1);
    }
  }

  ghost predicate Holds(p: Piece, j: nat) {
    p.requestOffset <= j < p.requestOffset + p.length
  }

  /** Byte j of the request is byte OffsetIn(off + j) of object ObjectOf(off + j), and only
      the piece of that object holds it. */
  lemma ByteHome(size: nat, off: nat, len: nat, j: nat) returns (i: nat)
    requires size > 0 && j < len
    ensures i < Span(size, off, len)
    ensures forall k: nat :: k < Span(size, off, len) ==> (Holds(PieceAt(size, off, len, k), j) <==> k == i)
    ensures var e := PieceAt(size, off, len, i);
      && e.objectSeq == ObjectOf(off + j, size)
      && e.objectOffset + (j - e.requestOffset) == OffsetIn(off + j, size)
  {
    ObjectMonotone(off, off + j, size);
    ObjectMonotone(off + j, off + len - 1, size);
    i := ObjectOf(off + j, size) - ObjectOf(off, size);
    forall k: nat | k < Span(size, off, len)
      ensures Holds(PieceAt(size, off, len, k), j) <==> k == i
    {
      Touches(size, off, len, k);
      ObjectIff(off + j, ObjectOf(off, size) + k, size);
    }
    Locate(off + j, size);
  }

  /** kfastblock_request_estimate_extent_count, with its u64 arithmetic. */
  function Estimate(size: nat, off: nat, len: nat): nat
    requires off < U64 && len < U32
  {
    if len == 0 || size == 0 then 0
    else
      var first := off / size;
      var last := Add64(off, len - 1) / size;
      if last < first then 0
      else if last - first + 1 > MAX_EXTENTS then MAX_EXTENTS + 1
      else last - first + 1
  }

  /** The estimate is the exact number of objects, capped, unless the range wraps past
      the 64-bit address space; then it is zero. */
  lemma {:induction false} EstimateExact(size: nat, off: nat, len: nat)
    requires 0 < size < U32 && len < U32 && off < U64
    ensures Estimate(size, off, len) ==
            if off + len <= U64 then Min(Span(size, off, len), MAX_EXTENTS + 1) else 0
  {
    if len > 0 {
      var end := Add64(off, len - 1);
      ObjectIsQuotient(off, size);
      ObjectIsQuotient(end, size);
      if off + len > U64 {
        ObjectMonotone(end, off, size);
      } else {
        ObjectMonotone(off, end, size);
      }
    }
  }

  /** The piece that the split loop cuts off next. */
  function NextPiece(size: nat, off: nat, len: nat, done: nat): (p: Piece)
    requires size > 0 && len > 0
    ensures 0 < p.length <= len
  {
    Piece(ObjectOf(off, size), done, OffsetIn(off, size), Min(len, size - OffsetIn(off, size)))
  }

  /** The pieces as the split loop cuts them off, one after the other. */
  function Cut(size: nat, off: nat, len: nat, done: nat): seq<Piece>
    requires size > 0
    decreases len
  {
    if len == 0 then []
    else
      var p := NextPiece(size, off, len, done);
      [p] + Cut(size, off + p.length, len - p.length, done + p.length)
  }

  /** At the start of piece i the loop cuts off piece i and stops at the start of the next. */
  lemma CutsPiece(size: nat, off: nat, len: nat, i: nat, current: nat)
    requires size > 0 && i < Span(size, off, len)
    requires current == Max(off, StartOf(ObjectOf(off, size) + i, size)) && current < off + len
    ensures var p := NextPiece(size, current, off + len - current, current - off);
      && p == PieceAt(size, off, len, i)
      && (if i + 1 < Span(size, off, len)
          then current + p.length == StartOf(ObjectOf(off, size) + i + 1, size)
          else current + p.length == off + len)
  {
    var o := ObjectOf(off, size) + i;
    Touches(size, off, len, i);
    ObjectIff(current, o, size);
    Locate(current, size);
    assert StartOf(o + 1, size) == StartOf(o, size) + size;
  }

  lemma {:induction false} CutIsPieces(size: nat, off: nat, len: nat, i: nat, current: nat)
    requires size > 0 && i < Span(size, off, len)
    requires current == Max(off, StartOf(ObjectOf(off, size) + i, size)) && current < off + len
    ensures Cut(size, current, off + len - current, current - off) == Pieces(size, off, len)[i..]
    decreases Span(size, off, len) - i
  {
    CutsPiece(size, off, len, i, current);
    var p := PieceAt(size, off, len, i);
    if i + 1 < Span(size, off, len) {
      Touches(size, off, len, i + 1);
      CutIsPieces(size, off, len, i + 1, current + p.length);
    }
    FromHere(Pieces(size, off, len), i);
  }

  lemma FromHere<T>(s: seq<T>, i: nat)
    requires i < |s|
    ensures s[i..] == [s[i]] + s[i + 1..]
  {
  }

  lemma CutAll(size: nat, off: nat, len: nat)
    requires size > 0
    ensures Cut(size, off, len, 0) == Pieces(size, off, len)
  {
    if len > 0 {
      Touches(size, off, len, 0);
      CutIsPieces(size, off, len, 0, off);
      assert Pieces(size, off, len)[0..] == Pieces(size, off, len);
    }
  }

  /** What remains to be cut are the pieces of all from the i-th on. */
  ghost predicate Remains(all: seq<Piece>, i: nat, size: nat, off: nat, len: nat, done: nat)
    requires size > 0
  {
    i <= |all| && Cut(size, off, len, done) == all[i..]
  }

  lemma CutStep(all: seq<Piece>, i: nat, size: nat, off: nat, len: nat, done: nat, p: Piece)
    requires size > 0 && len > 0 && Remains(all, i, size, off, len, done)
    requires p == NextPiece(size, off, len, done)
    ensures i < |all| && all[i] == p
    ensures Remains(all, i + 1, size, off + p.length, len - p.length, done + p.length)
  {
    var ps := Cut(size, off, len, done);
    assert ps[1..] == Cut(size, off + p.length, len - p.length, done + p.length);
    assert all[i] == ps[0] && all[i + 1..] == ps[1..];
  }

  method PieceHere(size: nat, current: nat, remaining: nat, done: nat) returns (p: Piece)
    requires size > 0 && remaining > 0
    ensures p == NextPiece(size, current, remaining, done)
  {
    ObjectIsQuotient(current, size);
    var seqNo, inObject := current / size, current % size;
    p := Piece(seqNo, done, inObject, Min(remaining, size - inObject));
  }

  /** The split loop; route stands for building the object name and hashing it. */
  method SplitLoop(route: Piece -> Extent, size: nat, off: nat, len: nat, maxExtents: nat)
    returns (ret: Errno, objects: seq<Extent>)
    requires 0 < size
    requires maxExtents == if off + len <= U64 then |Cut(size, off, len, 0)| else 0
    requires off < U64 && len < U32
    ensures ret == if off + len <= U64 then OK else E2BIG
    ensures objects == if ret == OK then Labelled(route, Cut(size, off, len, 0)) else []
  {
    objects := [];
    var current, remaining := off, len;
    ghost var all := Cut(size, off, len, 0);
    ghost var at, done := off, 0;
    while remaining > 0
      invariant 0 <= remaining <= len && done == len - remaining && at == off + done
      invariant off + len > U64 ==> objects == [] && remaining == len
      invariant current < U64
      invariant remaining > 0 && off + len <= U64 ==> current == at
      invariant Remains(all, |objects|, size, at, remaining, done)
      invariant forall i :: 0 <= i < |objects| ==> objects[i] == route(all[i])
      decreases remaining
    {
      if |objects| >= maxExtents {
        ret := E2BIG;
        return;
      }
      var p := PieceHere(size, current, remaining, len - remaining);
      CutStep(all, |objects|, size, at, remaining, done, p);
      remaining := remaining - p.length;
      current := Add64(current, p.length);
      objects := objects + [route(p)];
      at, done := at + p.length, done + p.length;
    }
    ret := OK;
  }

  /** The fields of struct kfastblock_request that allocation and split use. */
  class BlockRequest {
    const img: Image
    const size: nat
    const off: nat
    const len: nat
    var maxExtents: nat
    var objects: seq<Extent>

    ghost predicate Fits() {
      size < U32 && len < U32 && off < U64
    }

    constructor (img: Image, size: nat, off: nat, len: nat)
      ensures this.img == img && this.size == size && this.off == off && this.len == len
      ensures maxExtents == 0 && objects == []
    {
      this.img, this.size, this.off, this.len := img, size, off, len;
      maxExtents, objects := 0, [];
    }

    /** kfastblock_request_alloc_state, with allocations that succeed. */
    method AllocState() returns (ret: Errno)
      requires Fits() && maxExtents == 0
      modifies this`maxExtents
      ensures ret == E2BIG <==> size > 0 && off + len <= U64 && Span(size, off, len) > MAX_EXTENTS
      ensures ret == OK || ret == E2BIG
      ensures maxExtents ==
              if ret == OK && size > 0 && off + len <= U64 then Span(size, off, len) else 0
    {
      if size > 0 { EstimateExact(size, off, len); }
      var count := Estimate(size, off, len);
      if count == 0 { return OK; }
      if count > MAX_EXTENTS { return E2BIG; }
      maxExtents := count;
      return OK;
    }

    /** kfastblock_request_split after a successful allocation. It produces exactly the
        extents of the closed form; the "too many extents" exit is taken by precisely the
        requests that wrap past 64 bits. */
    method Split() returns (ret: Errno)
      requires Fits() && objects == []
      requires maxExtents == if size > 0 && off + len <= U64 then Span(size, off, len) else 0
      modifies this`objects
      ensures ret == EINVAL <==> size == 0 || img.pgCount == 0
      ensures ret == E2BIG <==> size > 0 && img.pgCount > 0 && off + len > U64
      ensures ret == OK ==> objects == Extents(img, size, off, len)
      ensures ret != OK ==> objects == []
    {
      if size == 0 || img.pgCount == 0 { return EINVAL; }
      CutAll(size, off, len);
      ret, objects := SplitLoop(p => Routed(img, p), size, off, len, maxExtents);
    }
  }
}
