/** Little-endian fields and lists of records: writing them and reading them back. */
module Wire {
  newtype Byte = x: int | 0 <= x < 256

  type Int32 = x: int | -0x8000_0000 <= x < 0x8000_0000
  type Int64 = x: int | -0x8000_0000_0000_0000 <= x < 0x8000_0000_0000_0000
  type UInt32 = x: int | 0 <= x < 0x1_0000_0000
  type UInt64 = x: int | 0 <= x < 0x1_0000_0000_0000_0000

  datatype Errno = EPROTO | E2BIG | ENOENT

  /** What reading from the front of a buffer gives: a value and the rest, or an error. */
  datatype Parsed<T> = Ok(value: T, rest: seq<Byte>) | Err(errno: Errno)

  function Pow256(n: nat): (r: nat)
    ensures r > 0
  {
    if n == 0 then 1 else 256 * Pow256(n - 1)
  }

  /** x in n bytes, least significant first; what does not fit is dropped. */
  function Le(x: nat, n: nat): (r: seq<Byte>)
    ensures |r| == n
    decreases n + x
  {
    if n == 0 then [] else [(x % 256) as Byte] + Le(x / 256, n - 1)
  }

  function Unle(s: seq<Byte>): nat {
    if s == [] then 0 else s[0] as int + 256 * Unle(s[1..])
  }

  lemma {:induction false} LeRoundTrip(x: nat, n: nat)
    requires x < Pow256(n)
    ensures Unle(Le(x, n)) == x
    decreases n
  {
    if n > 0 {
      LeRoundTrip(x / 256, n - 1);
      assert Le(x, n)[1..] == Le(x / 256, n - 1);
    }
  }

  /** Two's complement: how a signed value arrives at a reader of unsigned ones. */
  function U32(x: Int32): (r: nat)
    ensures r < 0x1_0000_0000
  {
    if x < 0 then x + 0x1_0000_0000 else x
  }

  function U64(x: Int64): (r: nat)
    ensures r < 0x1_0000_0000_0000_0000
  {
    if x < 0 then x + 0x1_0000_0000_0000_0000 else x
  }

  lemma Widths()
    ensures Pow256(2) == 0x1_0000 && Pow256(4) == 0x1_0000_0000 && Pow256(8) == 0x1_0000_0000_0000_0000
  {
  }

  // ---- Lists ---------------------------------------------------------------------------------

  /** Records one after the other. */
  function EncodeAll<T>(enc: T -> seq<Byte>, xs: seq<T>): seq<Byte> {
    if xs == [] then [] else EncodeAll(enc, xs[..|xs| - 1]) + enc(xs[|xs| - 1])
  }

  /** Reading n records; the first that fails fails them all. */
  function ParseAll<T>(parse: seq<Byte> -> Parsed<T>, s: seq<Byte>, n: nat): Parsed<seq<T>> {
    if n == 0 then Ok([], s)
    else
      match ParseAll(parse, s, n - 1)
      case Err(e) => Err(e)
      case Ok(xs, rest) =>
        match parse(rest)
        case Err(e) => Err(e)
        case Ok(x, rest) => Ok(xs + [x], rest)
  }

  function MapAll<T, U>(f: T -> U, xs: seq<T>): (r: seq<U>)
    ensures |r| == |xs| && forall i :: 0 <= i < |xs| ==> r[i] == f(xs[i])
  {
    seq(|xs|, i requires 0 <= i < |xs| => f(xs[i]))
  }

  /** Reading a value's encoding gives back what the value means and leaves what follows. */
  ghost predicate Reads<T, U>(enc: T -> seq<Byte>, parse: seq<Byte> -> Parsed<U>, f: T -> U, x: T) {
    forall rest: seq<Byte> {:trigger parse(enc(x) + rest)} :: parse(enc(x) + rest) == Ok(f(x), rest)
  }

  lemma {:induction false} ListRoundTrip<T, U>(enc: T -> seq<Byte>, parse: seq<Byte> -> Parsed<U>, f: T -> U, xs: seq<T>,
                                               rest: seq<Byte>)
    requires forall i :: 0 <= i < |xs| ==> Reads(enc, parse, f, xs[i])
    ensures ParseAll(parse, EncodeAll(enc, xs) + rest, |xs|) == Ok(MapAll(f, xs), rest)
  {
    if xs == [] {
      assert EncodeAll(enc, xs) + rest == rest;
    } else {
      var k := |xs| - 1;
      var x := xs[k];
      ListRoundTrip(enc, parse, f, xs[..k], enc(x) + rest);
      assert EncodeAll(enc, xs) + rest == EncodeAll(enc, xs[..k]) + (enc(x) + rest);
      assert Reads(enc, parse, f, x);
      assert MapAll(f, xs) == MapAll(f, xs[..k]) + [f(x)];
    }
  }

  /** Two bytes, least significant first. */
  lemma TwoBytes(x: nat)
    ensures Le(x, 2) == [(x % 256) as Byte, (x / 256 % 256) as Byte]
  {
    assert Le(x / 256, 1) == [(x / 256 % 256) as Byte] + Le(x / 256 / 256, 0);
  }

  /** Four bytes, least significant first. */
  lemma FourBytes(x: nat)
    ensures Le(x, 4) == [(x % 256) as Byte, (x / 256 % 256) as Byte, (x / 256 / 256 % 256) as Byte, (x / 256 / 256 / 256 % 256) as Byte]
  {
    assert Le(x, 4) == [(x % 256) as Byte] + Le(x / 256, 3);
    assert Le(x / 256, 3) == [(x / 256 % 256) as Byte] + Le(x / 256 / 256, 2);
    TwoBytes(x / 256 / 256);
  }
}
