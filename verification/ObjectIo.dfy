/** The kernel client's object I/O: copying between a request's scattered segments and an
    object buffer, and the chain prepare buffer, exchange, decode, normalise, copy back. */
module ObjectIo {
  import opened ObjectNames
  import opened Split
  import opened FlatImage

  /** The bytes of a request, whose memory is a list of segments. */
  function Concat(segs: seq<seq<Byte>>): seq<Byte> {
    if segs == [] then [] else Concat(segs[..|segs| - 1]) + segs[|segs| - 1]
  }

  lemma {:induction false} ConcatSplit(segs: seq<seq<Byte>>, i: nat)
    requires i <= |segs|
    ensures Concat(segs) == Concat(segs[..i]) + Concat(segs[i..])
    decreases |segs|
  {
    if i < |segs| {
      var front := segs[..|segs| - 1];
      ConcatSplit(front, i);
      assert front[..i] == segs[..i];
      assert segs[i..][..|segs[i..]| - 1] == front[i..];
    } else {
      assert segs[..i] == segs;
    }
  }

  lemma ConcatStep(segs: seq<seq<Byte>>, i: nat)
    requires i < |segs|
    ensures Concat(segs[..i + 1]) == Concat(segs[..i]) + segs[i]
  {
    assert segs[..i + 1][..i] == segs[..i];
  }

  /** How many of len bytes at off lie below total. */
  function Avail(total: nat, off: nat, len: nat): nat {
    if off >= total then 0 else Min(len, total - off)
  }

  /** kfastblock_transport_copy_request_data, reading the request. It gathers all the bytes
      that exist and succeeds exactly if those are all that were asked for. */
  method CopyFromRequest(segs: seq<seq<Byte>>, off: nat, len: nat) returns (ok: bool, buf: seq<Byte>)
    ensures ok <==> len == 0 || off + len <= |Concat(segs)|
    ensures buf == Slice(Concat(segs), off, Avail(|Concat(segs)|, off, len))
  {
    buf := [];
    if len == 0 { return true, []; }
    var i, skipped := 0, 0;
    while i < |segs|
      invariant i <= |segs| && skipped == |Concat(segs[..i])|
      invariant |buf| == Avail(skipped, off, len) < len
      invariant buf == Slice(Concat(segs[..i]), off, |buf|)
    {
      ConcatStep(segs, i);
      if off >= skipped + |segs[i]| {
        skipped := skipped + |segs[i]|;
        i := i + 1;
        continue;
      }
      var segOff := if off > skipped then off - skipped else 0;
      var chunk := Min(len - |buf|, |segs[i]| - segOff);
      SliceGrows(Concat(segs[..i]), segs[i], off, |buf|, segOff, chunk);
      buf := buf + segs[i][segOff..segOff + chunk];
      skipped := skipped + |segs[i]|;
      i := i + 1;
      if |buf| == len {
        ConcatSplit(segs, i);
        SlicePrefix(Concat(segs[..i]), Concat(segs[i..]), off, len);
        return true, buf;
      }
    }
    assert segs[..i] == segs;
    ok := |buf| == len;
  }

  /** The part of the next segment that the copy takes continues the slice. */
  lemma SliceGrows(a: seq<Byte>, seg: seq<Byte>, off: nat, copied: nat, segOff: nat, chunk: nat)
    requires segOff == (if off > |a| then off - |a| else 0) && segOff + chunk <= |seg|
    requires copied == (if off >= |a| then 0 else |a| - off) || chunk == 0
    requires chunk == 0 ==> off + copied <= |a| || copied == 0
    ensures Slice(a, off, copied) + seg[segOff..segOff + chunk] == Slice(a + seg, off, copied + chunk)
  {
  }

  lemma SlicePrefix(a: seq<Byte>, b: seq<Byte>, off: nat, len: nat)
    requires off + len <= |a|
    ensures Slice(a + b, off, len) == Slice(a, off, len)
  {
  }

  /** Copies into one segment, which starts at position skipped of the request. */
  method CopyToSegment(seg: seq<Byte>, skipped: nat, off: nat, buf: seq<Byte>, copied: nat)
    returns (seg': seq<Byte>, copied': nat)
    requires copied == Avail(skipped, off, |buf|) < |buf|
    ensures |seg'| == |seg| && copied' == Avail(skipped + |seg|, off, |buf|)
    ensures forall k :: 0 <= k < |seg| ==>
              seg'[k] == if off <= skipped + k < off + |buf| then buf[skipped + k - off] else seg[k]
  {
    if off >= skipped + |seg| { return seg, copied; }
    var segOff := if off > skipped then off - skipped else 0;
    var chunk := Min(|buf| - copied, |seg| - segOff);
    seg' := Overlay(seg, segOff, buf[copied..copied + chunk]);
    copied' := copied + chunk;
  }

  /** The same loop writing the request. Segments keep their lengths, and as a whole the
      request gets buf laid over it, cut at its end when the copy fails. */
  method CopyToRequest(segs: seq<seq<Byte>>, off: nat, buf: seq<Byte>) returns (ok: bool, out: seq<seq<Byte>>)
    ensures ok <==> buf == [] || off + |buf| <= |Concat(segs)|
    ensures |out| == |segs| && forall k :: 0 <= k < |segs| ==> |out[k]| == |segs[k]|
    ensures Concat(out) == Overlay(Concat(segs), off, buf)
  {
    var len := |buf|;
    if len == 0 {
      assert Overlay(Concat(segs), off, buf) == Concat(segs);
      return true, segs;
    }
    out := [];
    var i, skipped, copied := 0, 0, 0;
    while i < |segs|
      invariant i <= |segs| && skipped == |Concat(segs[..i])|
      invariant |out| == i && forall k :: 0 <= k < i ==> |out[k]| == |segs[k]|
      invariant copied == Avail(skipped, off, len) < len
      invariant Concat(out) == Overlay(Concat(segs[..i]), off, buf)
    {
      ConcatStep(segs, i);
      var seg;
      seg, copied := CopyToSegment(segs[i], skipped, off, buf, copied);
      OverlayGrows(Concat(segs[..i]), segs[i], off, buf, seg);
      ConcatAppend(out, seg);
      out := out + [seg];
      skipped := skipped + |seg|;
      i := i + 1;
      if copied == len {
        CopyDone(segs, out, i, off, buf);
        return true, out + segs[i..];
      }
    }
    assert segs[..i] == segs;
    ok := false;
  }

  lemma CopyDone(segs: seq<seq<Byte>>, out: seq<seq<Byte>>, i: nat, off: nat, buf: seq<Byte>)
    requires |out| == i <= |segs| && off + |buf| <= |Concat(segs[..i])|
    requires Concat(out) == Overlay(Concat(segs[..i]), off, buf)
    ensures Concat(out + segs[i..]) == Overlay(Concat(segs), off, buf)
    ensures off + |buf| <= |Concat(segs)|
  {
    ConcatSplit(segs, i);
    OverlayPrefix(Concat(segs[..i]), Concat(segs[i..]), off, buf);
    ConcatSplit(out + segs[i..], i);
    assert (out + segs[i..])[..i] == out && (out + segs[i..])[i..] == segs[i..];
  }

  lemma ConcatAppend(segs: seq<seq<Byte>>, seg: seq<Byte>)
    ensures Concat(segs + [seg]) == Concat(segs) + seg
  {
  }

  lemma OverlayPrefix(a: seq<Byte>, b: seq<Byte>, off: nat, d: seq<Byte>)
    requires off + |d| <= |a|
    ensures Overlay(a + b, off, d) == Overlay(a, off, d) + b
  {
  }

  /** Laying d over a + seg lays it over a and over the segment separately. */
  lemma OverlayGrows(a: seq<Byte>, seg: seq<Byte>, off: nat, d: seq<Byte>, seg': seq<Byte>)
    requires |seg'| == |seg|
    requires forall k :: 0 <= k < |seg| ==>
               seg'[k] == if off <= |a| + k < off + |d| then d[|a| + k - off] else seg[k]
    ensures Overlay(a, off, d) + seg' == Overlay(a + seg, off, d)
  {
  }

  datatype Status = Done | ENOENT | EIO | EPROTO

  /** One object's I/O: object_op, prepare_object_buffer, execute_object_opcode,
      normalize_object_ret and finish_object_success. On a request that has the memory it
      claims it always succeeds, has the effect Apply on the store, and a read lays the
      zero-filled piece over the request's memory. */
  method RunObjectIo(v: Volume, st: Store, op: Op, p: Piece, segs: seq<seq<Byte>>)
    returns (ret: Status, st': Store, segs': seq<seq<Byte>>)
    ensures op != READ && op != WRITE ==> ret == Done
    ensures op == READ || op == WRITE ==>
              (ret == Done <==> p.length == 0 || p.requestOffset + p.length <= |Concat(segs)|)
    ensures ret == Done ==> st' == Apply(v, st, op, p, Concat(segs))
    ensures op == READ ==>
              ReadPiece(v, st, p).Filled? && st' == st &&
              Concat(segs') == Overlay(Concat(segs), p.requestOffset, ReadPiece(v, st, p).bytes)
    ensures op != READ ==> segs' == segs
  {
    st', segs' := st, segs;
    var n := v.NameOf(p.objectSeq);
    var o := ObjectOp(op, p, v.size);
    var buf: seq<Byte> := [];
    if o == WRITE {
      var ok;
      ok, buf := CopyFromRequest(segs, p.requestOffset, p.length);
      if !ok { return EIO, st, segs; }
    } else if o == WRITE_ZEROES {
      buf := Zeros(p.length);
    }
    ret := Done;
    if o == WRITE || o == WRITE_ZEROES {
      st' := st[n := OsdWrite(ObjectIn(st, n), p.objectOffset, buf)];
    } else if o == READ {
      match OsdRead(st, n, p.objectOffset, p.length)
      case NotFound => ret := ENOENT;
      case Data(d) =>
        if |d| > p.length { ret := Status.EPROTO; } else { buf := Slice(d, 0, p.length); }
    } else if n in st {
      st' := st - {n};
    } else {
      ret := ENOENT;
    }
    if ret == ENOENT && o == READ {
      buf, ret := Zeros(p.length), Done;
    } else if ret == ENOENT && o == DISCARD {
      ret := Done;
    }
    if ret == Done && o == READ {
      var ok;
      ok, segs' := CopyToRequest(segs, p.requestOffset, buf);
      if !ok { ret := EIO; }
    }
  }

  /** A piece of a completed request lies inside its range. */
  lemma PieceInside(v: Volume, r: Request, p: Piece)
    requires v.size > 0 && Complete(v, r) && p in r.run
    ensures p.requestOffset + p.length <= r.len
  {
    var ps := Pieces(v.size, r.off, r.len);
    assert p in ps;
    var i :| 0 <= i < |ps| && ps[i] == p;
    Touches(v.size, r.off, r.len, i);
  }

  /** The objects of a request in turn, in the order r.run gives. */
  method RunPieces(v: Volume, st: Store, r: Request, segs: seq<seq<Byte>>)
    returns (ret: Status, st': Store, segs': seq<seq<Byte>>)
    requires v.size > 0 && Complete(v, r) && HasMemory(r) && (r.op == READ || r.op == WRITE ==> r.payload == Concat(segs))
    ensures ret == Done && st' == Execute(v, st, r)
    ensures if r.op == READ then Filled(Concat(segs')) == Gather(v, st, r) && st' == st else segs' == segs
  {
    st', segs' := st, segs;
    var i := 0;
    while i < |r.run|
      invariant i <= |r.run|
      invariant st' == Fold(Applier(v, r.op, r.payload), st, r.run[..i])
      invariant r.op == READ ==> st' == st && |Concat(segs')| == r.len
      invariant r.op == READ ==> Filled(Concat(segs')) == Fold(Reader(v, st), Filled(r.payload), r.run[..i])
      invariant r.op != READ ==> segs' == segs
    {
      PieceInside(v, r, r.run[i]);
      FoldStep(Applier(v, r.op, r.payload), st, r.run, i);
      FoldStep(Reader(v, st), Filled(r.payload), r.run, i);
      ApplyIgnores(v, st', r.op, r.run[i], Concat(segs'), r.payload);
      ret, st', segs' := RunObjectIo(v, st', r.op, r.run[i], segs');
      if ret != Done { return; }
      i := i + 1;
    }
    assert r.run[..i] == r.run;
    ret := Done;
  }

  /** A whole request. The request's memory, in segments, ends as the flat array's bytes if it
      is a read; the image changes as the flat array does; no object fails. A discard or
      write-zeroes needs no memory. */
  method RunRequest(v: Volume, st: Store, r: Request, segs: seq<seq<Byte>>, ghost n: nat)
    returns (ret: Status, st': Store, segs': seq<seq<Byte>>)
    requires Runnable(v, r, n) && (r.op == READ || r.op == WRITE ==> r.payload == Concat(segs))
    ensures ret == Done
    ensures st' == Execute(v, st, r) && View(v, st', n) == FlatUpdate(View(v, st, n), r)
    ensures if r.op == READ then Concat(segs') == Slice(View(v, st, n), r.off, r.len) && st' == st else segs' == segs
  {
    ret, st', segs' := RunPieces(v, st, r, segs);
    OneRequestRefines(v, st, r, n);
  }
}
