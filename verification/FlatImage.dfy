/** The object store behind an image behaves like one flat, zero-filled byte array.

    A request is split into pieces, each piece is executed on its own object, in any order
    and possibly more than once (an object is requeued after a failure whose effect on the
    OSD is unknown). Objects are keyed by name; an object is the bytes up to the furthest
    one written. */
module FlatImage {
  import opened ObjectMath
  import opened ObjectNames
  import opened Split
  import Wire

  type Byte = Wire.Byte
  type Store = map<Name, seq<Byte>>

  datatype Op = READ | WRITE | WRITE_ZEROES | DISCARD

  /** What identifies the image, and its object size. */
  datatype Volume = Volume(pool: nat, image: Name, size: nat) {
    function NameOf(o: nat): Name { ObjectName(pool, image, o) }
  }

  function Zeros(n: nat): seq<Byte> {
    seq(n, _ => 0)
  }

  /** Byte i of s, zero past its end. */
  function ByteOf(s: seq<Byte>, i: nat): Byte {
    if i < |s| then s[i] else 0
  }

  /** The n bytes of s from position at on, zero past its end. */
  function Slice(s: seq<Byte>, at: nat, n: nat): (r: seq<Byte>)
    ensures |r| == n && forall i :: 0 <= i < n ==> r[i] == ByteOf(s, at + i)
  {
    seq(n, i requires 0 <= i < n => ByteOf(s, at + i))
  }

  /** s with d laid over it from position at on. */
  function Overlay(s: seq<Byte>, at: nat, d: seq<Byte>): seq<Byte> {
    seq(|s|, i requires 0 <= i < |s| => if at <= i < at + |d| then d[i - at] else s[i])
  }

  // ---- The OSD's side -------------------------------------------------------------

  /** A write grows the object, with zeros, as far as it needs. */
  function OsdWrite(obj: seq<Byte>, at: nat, d: seq<Byte>): seq<Byte> {
    var grown := if |obj| < at + |d| then obj + Zeros(at + |d| - |obj|) else obj;
    Overlay(grown, at, d)
  }

  function ObjectIn(st: Store, n: Name): seq<Byte> {
    if n in st then st[n] else []
  }

  datatype Reply = NotFound | Data(bytes: seq<Byte>)

  /** A read returns what the object has of the range: a short read at its end. */
  function OsdRead(st: Store, n: Name, at: nat, len: nat): Reply {
    if n !in st then NotFound
    else if |st[n]| <= at then Data([])
    else Data(st[n][at..Min(at + len, |st[n]|)])
  }

  // ---- The client's side ----------------------------------------------------------

  /** kfastblock_transport_object_op: only a discard of the whole object deletes it. */
  function ObjectOp(op: Op, p: Piece, size: nat): Op {
    if op != DISCARD then op
    else if p.objectOffset == 0 && p.length == size then DISCARD
    else WRITE_ZEROES
  }

  /** Effect of executing one piece on the store. */
  function Apply(v: Volume, st: Store, op: Op, p: Piece, payload: seq<Byte>): Store {
    var n := v.NameOf(p.objectSeq);
    match ObjectOp(op, p, v.size)
    case READ => st
    case WRITE =>
      st[n := OsdWrite(ObjectIn(st, n), p.objectOffset, Slice(payload, p.requestOffset, p.length))]
    case WRITE_ZEROES => st[n := OsdWrite(ObjectIn(st, n), p.objectOffset, Zeros(p.length))]
    case DISCARD => st - {n}
  }

  /** Only a write looks at the payload. */
  lemma ApplyIgnores(v: Volume, st: Store, op: Op, p: Piece, a: seq<Byte>, b: seq<Byte>)
    requires op == WRITE ==> a == b
    ensures Apply(v, st, op, p, a) == Apply(v, st, op, p, b)
  {
  }

  /** A discard of a whole object leaves no object; a discard of a part leaves one, and so does a
      write. Other objects stay as they are. */
  lemma DiscardDeletes(v: Volume, st: Store, op: Op, p: Piece, payload: seq<Byte>)
    ensures var st', n := Apply(v, st, op, p, payload), v.NameOf(p.objectSeq);
            && (n in st' <==> if op == DISCARD then !(p.objectOffset == 0 && p.length == v.size)
                              else if op == READ then n in st else true)
            && forall m :: m != n ==> (m in st' <==> m in st) && (m in st ==> st'[m] == st[m])
  {
  }

  /** The extents of a request carry the names under which the store keeps their objects. */
  lemma ExtentsNamed(img: Image, size: nat, off: nat, len: nat, i: nat)
    requires size > 0 && i < Span(size, off, len) && off + len <= U64
    requires img.pool < U32 && |img.name| < MAX_IMAGE_NAME
    ensures var e := Extents(img, size, off, len)[i];
      e.piece == Pieces(size, off, len)[i] && e.objectName == Volume(img.pool, img.name, size).NameOf(e.piece.objectSeq)
  {
    var o := PieceAt(size, off, len, i).objectSeq;
    Touches(size, off, len, i);
    StartIsProduct(o, size);
    KernelNameWhole(img.pool, img.name, o);
  }

  /** Byte a of the image. */
  function ByteAt(v: Volume, st: Store, a: nat): Byte
    requires v.size > 0
  {
    ByteOf(ObjectIn(st, v.NameOf(ObjectOf(a, v.size))), OffsetIn(a, v.size))
  }

  /** What byte j of the range becomes. */
  function NewByte(op: Op, payload: seq<Byte>, j: nat): Byte {
    if op == WRITE then ByteOf(payload, j) else 0
  }

  ghost predicate InPiece(p: Piece, off: nat, a: nat) {
    off + p.requestOffset <= a < off + p.requestOffset + p.length
  }

  lemma OsdWriteByte(obj: seq<Byte>, at: nat, d: seq<Byte>, i: nat)
    ensures ByteOf(OsdWrite(obj, at, d), i) == if at <= i < at + |d| then d[i - at] else ByteOf(obj, i)
  {
  }

  /** One piece rewrites exactly its own bytes of the image. */
  lemma {:induction false} ApplyByte(v: Volume, st: Store, op: Op, p: Piece, payload: seq<Byte>, off: nat, a: nat)
    requires v.size > 0 && InOneObject(p, v.size, off)
    ensures ByteAt(v, Apply(v, st, op, p, payload), a) ==
            if op != READ && InPiece(p, off, a) then NewByte(op, payload, a - off) else ByteAt(v, st, a)
  {
    var o := ObjectOf(a, v.size);
    Locate(a, v.size);
    ObjectIff(a, p.objectSeq, v.size);
    var was := ObjectIn(st, v.NameOf(p.objectSeq));
    OsdWriteByte(was, p.objectOffset, Slice(payload, p.requestOffset, p.length), OffsetIn(a, v.size));
    OsdWriteByte(was, p.objectOffset, Zeros(p.length), OffsetIn(a, v.size));
    if v.NameOf(o) == v.NameOf(p.objectSeq) {
      NameInjective(v.pool, v.image, o, p.objectSeq);
    }
  }

  // ---- Executing pieces in any order, any number of times ----------------------------

  function Fold<S>(step: (S, Piece) -> S, s: S, run: seq<Piece>): S {
    if run == [] then s
    else step(Fold(step, s, run[..|run| - 1]), run[|run| - 1])
  }

  lemma FoldStep<S>(step: (S, Piece) -> S, s: S, run: seq<Piece>, i: nat)
    requires i < |run|
    ensures Fold(step, s, run[..i + 1]) == step(Fold(step, s, run[..i]), run[i])
  {
    assert run[..i + 1][..i] == run[..i];
  }

  /** If every piece either sets an observation to the same new value or leaves it alone,
      then order and repetition do not matter: only whether some piece sets it. */
  lemma {:induction false} FoldSettles<S(!new), B>(
      step: (S, Piece) -> S, s: S, run: seq<Piece>, inv: S -> bool, get: S -> B, hit: Piece -> bool, set': B)
    requires inv(s)
    requires forall t, p :: p in run && inv(t) ==>
               inv(step(t, p)) && get(step(t, p)) == if hit(p) then set' else get(t)
    ensures inv(Fold(step, s, run))
    ensures get(Fold(step, s, run)) == if exists p :: p in run && hit(p) then set' else get(s)
  {
    if run != [] {
      var k := |run| - 1;
      FoldSettles(step, s, run[..k], inv, get, hit, set');
      assert run == run[..k] + [run[k]];
    }
  }

  /** A block request, with its pieces in the order in which they were executed. */
  datatype Request = Request(op: Op, off: nat, len: nat, payload: seq<Byte>, run: seq<Piece>)

  /** A request that reads or writes memory has as much of it as its range. */
  ghost predicate HasMemory(r: Request) {
    r.op == READ || r.op == WRITE ==> |r.payload| == r.len
  }

  ghost predicate Good(v: Volume, r: Request) {
    v.size > 0 && HasMemory(r) && forall p :: p in r.run ==> InOneObject(p, v.size, r.off)
  }

  /** Exactly the pieces of the split were executed, each at least once. */
  ghost predicate Complete(v: Volume, r: Request)
    requires v.size > 0
  {
    forall p :: p in r.run <==> p in Pieces(v.size, r.off, r.len)
  }

  function Applier(v: Volume, op: Op, payload: seq<Byte>): (Store, Piece) -> Store {
    (t: Store, p: Piece) => Apply(v, t, op, p, payload)
  }

  function Execute(v: Volume, st: Store, r: Request): Store {
    Fold(Applier(v, r.op, r.payload), st, r.run)
  }

  lemma ExecuteByte(v: Volume, st: Store, r: Request, a: nat, newByte: Byte)
    requires Good(v, r)
    requires a >= r.off ==> newByte == NewByte(r.op, r.payload, a - r.off)
    ensures ByteAt(v, Execute(v, st, r), a) ==
            if r.op != READ && exists p :: p in r.run && InPiece(p, r.off, a)
            then newByte else ByteAt(v, st, a)
  {
    var step := Applier(v, r.op, r.payload);
    var get := (t: Store) => ByteAt(v, t, a);
    var hit := (p: Piece) => r.op != READ && InPiece(p, r.off, a);
    forall t: Store, p | p in r.run
      ensures get(step(t, p)) == if hit(p) then newByte else get(t)
    {
      ApplyByte(v, t, r.op, p, r.payload, r.off, a);
    }
    FoldSettles(step, st, r.run, _ => true, get, hit, newByte);
    assert r.op != READ ==>
           ((exists p :: p in r.run && hit(p)) <==> exists p :: p in r.run && InPiece(p, r.off, a));
  }

  /** The pieces of the split hold exactly the bytes of the range. */
  lemma PiecesReach(size: nat, off: nat, len: nat, a: nat)
    requires size > 0
    ensures (exists p :: p in Pieces(size, off, len) && InPiece(p, off, a)) <==> off <= a < off + len
  {
    var ps := Pieces(size, off, len);
    if off <= a < off + len {
      var i := ByteHome(size, off, len, a - off);
      assert Holds(ps[i], a - off);
      assert ps[i] in ps && InPiece(ps[i], off, a);
    }
    forall p | p in ps && InPiece(p, off, a)
      ensures off <= a < off + len
    {
      var i :| 0 <= i < |ps| && ps[i] == p;
      Touches(size, off, len, i);
    }
  }

  lemma CompleteReaches(v: Volume, r: Request, a: nat)
    requires v.size > 0 && Complete(v, r)
    ensures (exists p :: p in r.run && InPiece(p, r.off, a)) <==> r.off <= a < r.off + r.len
  {
    PiecesReach(v.size, r.off, r.len, a);
  }

  /** A completed request executed only pieces that lie in one object each. */
  lemma CompleteIsGood(v: Volume, r: Request)
    requires v.size > 0 && Complete(v, r) && HasMemory(r)
    ensures Good(v, r)
  {
    var ps := Pieces(v.size, r.off, r.len);
    forall p | p in r.run
      ensures InOneObject(p, v.size, r.off)
    {
      assert p in ps;
      var i :| 0 <= i < |ps| && ps[i] == p;
      Touches(v.size, r.off, r.len, i);
    }
  }

  /** The image as one array of n bytes. */
  function View(v: Volume, st: Store, n: nat): seq<Byte>
    requires v.size > 0
  {
    seq(n, a requires 0 <= a < n => ByteAt(v, st, a))
  }

  /** What a request does to a flat array. */
  function FlatUpdate(img: seq<Byte>, r: Request): seq<Byte> {
    match r.op
    case READ => img
    case WRITE => Overlay(img, r.off, r.payload)
    case WRITE_ZEROES => Overlay(img, r.off, Zeros(r.len))
    case DISCARD => Overlay(img, r.off, Zeros(r.len))
  }

  lemma FlatByte(img: seq<Byte>, r: Request, a: nat)
    requires a < |img| && HasMemory(r)
    ensures |FlatUpdate(img, r)| == |img|
    ensures FlatUpdate(img, r)[a] ==
            if r.op != READ && r.off <= a < r.off + r.len then NewByte(r.op, r.payload, a - r.off) else img[a]
  {
  }

  /** Whatever the order and repetition of its pieces, a completed request changes the
      image as it would change a flat array. */
  lemma RequestRefines(v: Volume, st: Store, r: Request, n: nat)
    requires v.size > 0 && Complete(v, r) && HasMemory(r)
    ensures View(v, Execute(v, st, r), n) == FlatUpdate(View(v, st, n), r)
  {
    CompleteIsGood(v, r);
    forall a | 0 <= a < n
      ensures View(v, Execute(v, st, r), n)[a] == FlatUpdate(View(v, st, n), r)[a]
    {
      ExecuteByte(v, st, r, a, if a >= r.off then NewByte(r.op, r.payload, a - r.off) else 0);
      CompleteReaches(v, r, a);
      FlatByte(View(v, st, n), r, a);
    }
  }

  // ---- Reads ----------------------------------------------------------------------

  /** Decoding a read response and then normalising "not found": the missing object and
      the tail of a short reply read as zeros; a reply longer than asked for is refused. */
  datatype ReadResult = Filled(bytes: seq<Byte>) | EPROTO

  function FillReply(reply: Reply, len: nat): ReadResult {
    match reply
    case NotFound => Filled(Zeros(len))
    case Data(d) => if |d| <= len then Filled(Slice(d, 0, len)) else EPROTO
  }

  function ReadPiece(v: Volume, st: Store, p: Piece): ReadResult {
    FillReply(OsdRead(st, v.NameOf(p.objectSeq), p.objectOffset, p.length), p.length)
  }

  /** The bytes of the image that piece p of a request at off covers. */
  function PieceBytes(v: Volume, st: Store, p: Piece, off: nat): seq<Byte>
    requires v.size > 0
  {
    seq(p.length, k requires 0 <= k < p.length => ByteAt(v, st, off + p.requestOffset + k))
  }

  /** Reading one piece yields the image's bytes, whether or not the object exists or is
      long enough. */
  lemma ReadPieceExact(v: Volume, st: Store, p: Piece, off: nat)
    requires v.size > 0 && InOneObject(p, v.size, off)
    ensures ReadPiece(v, st, p) == Filled(PieceBytes(v, st, p, off))
  {
    var d := PieceBytes(v, st, p, off);
    var r := ReadPiece(v, st, p);
    forall k | 0 <= k < p.length
      ensures r.bytes[k] == d[k]
    {
      var a := off + p.requestOffset + k;
      Locate(a, v.size);
      ObjectIff(a, p.objectSeq, v.size);
      assert d[k] == ByteAt(v, st, a);
    }
    assert r.bytes == d;
  }

  /** One piece of a read: what the object answers is laid over the buffer; a refused reply
      ends the read. */
  function ReadInto(v: Volume, st: Store, res: ReadResult, p: Piece): ReadResult {
    match (res, ReadPiece(v, st, p))
    case (Filled(buf), Filled(d)) => Filled(Overlay(buf, p.requestOffset, d))
    case _ => EPROTO
  }

  function Reader(v: Volume, st: Store): (ReadResult, Piece) -> ReadResult {
    (res: ReadResult, p: Piece) => ReadInto(v, st, res, p)
  }

  /** A read request, its objects asked one after the other; its payload is the buffer it
      was given. */
  function Gather(v: Volume, st: Store, r: Request): ReadResult {
    Fold(Reader(v, st), Filled(r.payload), r.run)
  }

  /** Byte j of the buffer, 0 after a refused reply. */
  function AnswerByte(res: ReadResult, j: nat): Byte {
    if res.Filled? then ByteOf(res.bytes, j) else 0
  }

  ghost predicate Fills(res: ReadResult, len: nat) {
    res.Filled? && |res.bytes| == len
  }

  /** No reply is refused, and a piece sets exactly its own bytes, to those of the image. */
  lemma ReadIntoByte(v: Volume, st: Store, res: ReadResult, p: Piece, off: nat, len: nat, j: nat)
    requires v.size > 0 && InOneObject(p, v.size, off) && Fills(res, len) && j < len
    ensures Fills(ReadInto(v, st, res, p), len)
    ensures AnswerByte(ReadInto(v, st, res, p), j) ==
            if InPiece(p, off, off + j) then ByteAt(v, st, off + j) else AnswerByte(res, j)
  {
    ReadPieceExact(v, st, p, off);
  }

  lemma GatherByte(v: Volume, st: Store, r: Request, j: nat)
    requires v.size > 0 && Complete(v, r) && |r.payload| == r.len && j < r.len
    ensures Fills(Gather(v, st, r), r.len)
    ensures AnswerByte(Gather(v, st, r), j) == ByteAt(v, st, r.off + j)
  {
    var step := Reader(v, st);
    var inv := (res: ReadResult) => Fills(res, r.len);
    var get := (res: ReadResult) => AnswerByte(res, j);
    var hit := (p: Piece) => InPiece(p, r.off, r.off + j);
    CompleteIsGood(v, r);
    forall res, p | p in r.run && inv(res)
      ensures inv(step(res, p))
      ensures get(step(res, p)) == if hit(p) then ByteAt(v, st, r.off + j) else get(res)
    {
      ReadIntoByte(v, st, res, p, r.off, r.len, j);
    }
    CompleteReaches(v, r, r.off + j);
    FoldSettles(step, Filled(r.payload), r.run, inv, get, hit, ByteAt(v, st, r.off + j));
  }

  lemma GatherFills(v: Volume, st: Store, r: Request)
    requires Good(v, r) && |r.payload| == r.len
    ensures Fills(Gather(v, st, r), r.len)
  {
    var inv := (res: ReadResult) => Fills(res, r.len);
    forall res, p | p in r.run && inv(res)
      ensures inv(ReadInto(v, st, res, p))
    {
      ReadPieceExact(v, st, p, r.off);
    }
    FoldSettles(Reader(v, st), Filled(r.payload), r.run, inv, _ => 0, _ => false, 0);
  }

  /** A completed read is never refused and returns the bytes of the image, whichever
      objects are missing or short and whatever the buffer held. */
  lemma ReadRefines(v: Volume, st: Store, r: Request, n: nat)
    requires v.size > 0 && Complete(v, r) && |r.payload| == r.len && r.off + r.len <= n
    ensures Gather(v, st, r) == Filled(Slice(View(v, st, n), r.off, r.len))
  {
    CompleteIsGood(v, r);
    GatherFills(v, st, r);
    var got := Gather(v, st, r).bytes;
    forall j | 0 <= j < r.len
      ensures got[j] == Slice(View(v, st, n), r.off, r.len)[j]
    {
      GatherByte(v, st, r, j);
    }
    assert got == Slice(View(v, st, n), r.off, r.len);
  }

  // ---- Every sequence of requests ---------------------------------------------------

  ghost predicate Runnable(v: Volume, r: Request, n: nat) {
    v.size > 0 && Complete(v, r) && r.off + r.len <= n && HasMemory(r)
  }

  /** The object store after the requests, and what each read returned. */
  function RunObjects(v: Volume, st: Store, rs: seq<Request>): (Store, seq<ReadResult>)
    decreases rs
  {
    if rs == [] then (st, [])
    else
      var r := rs[0];
      var rest := RunObjects(v, Execute(v, st, r), rs[1..]);
      if r.op == READ then (rest.0, [Gather(v, st, r)] + rest.1) else rest
  }

  /** The same requests on a flat array. */
  function RunFlat(img: seq<Byte>, rs: seq<Request>): (seq<Byte>, seq<ReadResult>)
    decreases rs
  {
    if rs == [] then (img, [])
    else
      var r := rs[0];
      var rest := RunFlat(FlatUpdate(img, r), rs[1..]);
      if r.op == READ then (rest.0, [Filled(Slice(img, r.off, r.len))] + rest.1) else rest
  }

  /** The object store refines the flat array over every sequence of requests: every read
      is answered with the same bytes, none is refused, and the images agree in the end. */
  lemma {:induction false} StoreRefinesFlat(v: Volume, st: Store, rs: seq<Request>, n: nat)
    requires v.size > 0 && forall i :: 0 <= i < |rs| ==> Runnable(v, rs[i], n)
    ensures RunFlat(View(v, st, n), rs) ==
            (View(v, RunObjects(v, st, rs).0, n), RunObjects(v, st, rs).1)
    decreases rs
  {
    if rs != [] {
      OneRequestRefines(v, st, rs[0], n);
      StoreRefinesFlat(v, Execute(v, st, rs[0]), rs[1..], n);
    }
  }

  lemma OneRequestRefines(v: Volume, st: Store, r: Request, n: nat)
    requires Runnable(v, r, n)
    ensures View(v, Execute(v, st, r), n) == FlatUpdate(View(v, st, n), r)
    ensures r.op == READ ==> Gather(v, st, r) == Filled(Slice(View(v, st, n), r.off, r.len))
  {
    RequestRefines(v, st, r, n);
    if r.op == READ {
      ReadRefines(v, st, r, n);
    }
  }

  /** A fresh image is all zeros. */
  lemma FreshIsZero(v: Volume, n: nat)
    requires v.size > 0
    ensures View(v, map[], n) == Zeros(n)
  {
  }
}
