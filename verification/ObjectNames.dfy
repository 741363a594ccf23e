/** Object names, as built by the kernel client (scnprintf into a 192-byte buffer)
    and by the user-space client (prefix plus a 17-byte snprintf buffer). A name is a
    byte string: decimal pool id, "__blk_data___", image name, decimal object number. */
module ObjectNames {

  type Name = seq<bv8>

  /** "__blk_data___" in ASCII. */
  const TAG: Name := [95, 95, 98, 108, 107, 95, 100, 97, 116, 97, 95, 95, 95]

  /** KFASTBLOCK_MAX_OBJECT_NAME_LEN */
  const KERNEL_BUFFER: nat := 192

  /** KFASTBLOCK_MAX_NAME_LEN, which counts the terminating zero byte. */
  const MAX_IMAGE_NAME: nat := 128

  /** Size of the user-space client's buffer for the object number. */
  const USER_SEQ_BUFFER: nat := 17

  const DIGITS: Name := [48, 49, 50, 51, 52, 53, 54, 55, 56, 57]

  /** What %u, %llu and std::to_string print. */
  function Decimal(n: nat): (s: Name)
    ensures |s| > 0
    ensures forall c :: c in s ==> c in DIGITS
  {
    if n < 10 then [DIGITS[n]] else Decimal(n / 10) + [DIGITS[n % 10]]
  }

  function Prefix(pool: nat, image: Name): Name {
    Decimal(pool) + TAG + image
  }

  function ObjectName(pool: nat, image: Name, seqNo: nat): Name {
    Prefix(pool, image) + Decimal(seqNo)
  }

  function Clip(s: Name, room: nat): Name {
    if |s| <= room then s else s[..room]
  }

  /** scnprintf keeps at most one byte less than the buffer holds. */
  function KernelName(pool: nat, image: Name, seqNo: nat): Name {
    Clip(ObjectName(pool, image, seqNo), KERNEL_BUFFER - 1)
  }

  /** calc_image_object_prefix followed by get_image_object_name. */
  function UserName(pool: nat, image: Name, seqNo: nat): Name {
    Prefix(pool, image) + Clip(Decimal(seqNo), USER_SEQ_BUFFER - 1)
  }

  function Pow10(k: nat): (p: nat)
    ensures p > 0
  {
    if k == 0 then 1 else 10 * Pow10(k - 1)
  }

  /** A numeral has at most k digits exactly when the number is below ten to the k. */
  lemma {:induction false} DecimalLength(n: nat, k: nat)
    requires k > 0
    ensures |Decimal(n)| <= k <==> n < Pow10(k)
  {
    if n < 10 {
      assert Pow10(k) >= 10 by { assert Pow10(k) == 10 * Pow10(k - 1); }
    } else if k == 1 {
      assert Pow10(1) == 10 * Pow10(0);
    } else {
      DecimalLength(n / 10, k - 1);
      assert n / 10 < Pow10(k - 1) <==> n < 10 * Pow10(k - 1);
    }
  }

  lemma DigitsDistinct(i: nat, j: nat)
    requires i < 10 && j < 10 && DIGITS[i] == DIGITS[j]
    ensures i == j
  {
  }

  lemma {:induction false} DecimalInjective(a: nat, b: nat)
    requires Decimal(a) == Decimal(b)
    ensures a == b
    decreases a
  {
    var s := Decimal(a);
    assert |s| == 1 <==> a < 10;
    assert |s| == 1 <==> b < 10;
    assert s[|s| - 1] == DIGITS[a % 10] == DIGITS[b % 10];
    DigitsDistinct(a % 10, b % 10);
    if a >= 10 {
      assert s[..|s| - 1] == Decimal(a / 10);
      assert s[..|s| - 1] == Decimal(b / 10);
      DecimalInjective(a / 10, b / 10);
    }
  }

  /** Within one pool and image, distinct objects have distinct names. */
  lemma NameInjective(pool: nat, image: Name, s: nat, t: nat)
    requires ObjectName(pool, image, s) == ObjectName(pool, image, t)
    ensures s == t
  {
    var p := Prefix(pool, image);
    assert (p + Decimal(s))[|p|..] == Decimal(s);
    assert (p + Decimal(t))[|p|..] == Decimal(t);
    DecimalInjective(s, t);
  }

  lemma Cancel(a: Name, b: Name, x: Name, y: Name)
    requires a + x == b + y && |a| == |b|
    ensures a == b && x == y
  {
    assert (a + x)[..|a|] == a && (b + y)[..|b|] == b;
    assert (a + x)[|a|..] == x && (b + y)[|b|..] == y;
  }

  lemma TagEndsNumeral(p: nat, q: nat, tag: Name, x: Name, y: Name)
    requires Decimal(p) + (tag + x) == Decimal(q) + (tag + y)
    requires tag == TAG
    ensures |Decimal(q)| <= |Decimal(p)|
  {
    var n := Decimal(p) + (tag + x);
    assert n[|Decimal(p)|] == tag[0] == 95;
    assert forall i :: 0 <= i < |Decimal(q)| ==> n[i] == Decimal(q)[i];
    assert n[|Decimal(p)|] !in DIGITS;
  }

  lemma NameParts(pool: nat, image: Name, s: nat, tag: Name)
    requires tag == TAG
    ensures ObjectName(pool, image, s) == Decimal(pool) + (tag + (image + Decimal(s)))
  {
  }

  /** Names of different pools never meet: '_' is not a digit. */
  lemma PoolSeparates(p: nat, q: nat, image: Name, other: Name, s: nat, t: nat)
    requires ObjectName(p, image, s) == ObjectName(q, other, t)
    ensures p == q && image + Decimal(s) == other + Decimal(t)
  {
    var tag: Name :| tag == TAG;
    var x, y := image + Decimal(s), other + Decimal(t);
    NameParts(p, image, s, tag);
    NameParts(q, other, t, tag);
    TagEndsNumeral(p, q, tag, x, y);
    TagEndsNumeral(q, p, tag, y, x);
    Cancel(Decimal(p), Decimal(q), tag + x, tag + y);
    Cancel(tag, tag, x, y);
    DecimalInjective(p, q);
  }

  /** A non-empty proper prefix of a numeral is the numeral of a positive number. */
  lemma {:induction false} NumeralPrefix(t: nat, k: nat) returns (d: nat)
    requires 0 < k < |Decimal(t)|
    ensures d > 0 && Decimal(t)[..k] == Decimal(d)
  {
    var s := Decimal(t);
    assert t >= 10;
    assert s[..|s| - 1] == Decimal(t / 10);
    if k == |s| - 1 {
      d := t / 10;
    } else {
      d := NumeralPrefix(t / 10, k);
      assert s[..k] == Decimal(t / 10)[..k];
    }
  }

  /** The name of one image is the other's followed by a numeral without leading zero. */
  ghost predicate ExtendsByNumeral(longer: Name, shorter: Name) {
    exists d: nat :: d > 0 && longer == shorter + Decimal(d)
  }

  ghost predicate ShareAnObject(a: Name, b: Name) {
    exists s: nat, t: nat :: a + Decimal(s) == b + Decimal(t)
  }

  lemma ExtensionShares(a: Name, b: Name, d: nat)
    requires d > 0 && a == b + Decimal(d)
    ensures a + Decimal(0) == b + Decimal(10 * d)
  {
  }

  lemma SharingExtends(a: Name, b: Name, s: nat, t: nat)
    requires |a| > |b| && a + Decimal(s) == b + Decimal(t)
    ensures ExtendsByNumeral(a, b)
  {
    var n := a + Decimal(s);
    var x := a[|b|..];
    assert n[..|b|] == b && n[|b|..] == Decimal(t);
    assert a == n[..|a|] == b + x;
    assert Decimal(t)[..|x|] == x;
    var d := NumeralPrefix(t, |x|);
    assert a == b + Decimal(d);
  }

  /** There is no separator before the object number, so two images of one pool can name
      the same object. They do exactly when one name extends the other by a numeral. */
  lemma ImagesCollideIff(a: Name, b: Name)
    requires a != b
    ensures ShareAnObject(a, b) <==> ExtendsByNumeral(a, b) || ExtendsByNumeral(b, a)
  {
    if ShareAnObject(a, b) {
      var s: nat, t: nat :| a + Decimal(s) == b + Decimal(t);
      assert (a + Decimal(s))[..|a|] == a && (b + Decimal(t))[..|b|] == b;
      if |a| > |b| {
        SharingExtends(a, b, s, t);
      } else {
        SharingExtends(b, a, t, s);
      }
    }
    if ExtendsByNumeral(a, b) {
      var d: nat :| d > 0 && a == b + Decimal(d);
      ExtensionShares(a, b, d);
    }
    if ExtendsByNumeral(b, a) {
      var d: nat :| d > 0 && b == a + Decimal(d);
      ExtensionShares(b, a, d);
    }
  }

  /** Images "v1" and "v11" of one pool: object 10 of the first is object 0 of the second. */
  lemma CollisionExample(pool: nat)
    ensures ObjectName(pool, [118, 49], 10) == ObjectName(pool, [118, 49, 49], 0)
  {
  }

  /** The number a numeral stands for. */
  function Reading(s: Name): nat {
    if s == [] then 0 else 10 * Reading(s[..|s| - 1]) + Digit(s[|s| - 1])
  }

  function Digit(c: bv8): nat {
    if c == 49 then 1 else if c == 50 then 2 else if c == 51 then 3 else if c == 52 then 4 else if c == 53 then 5
    else if c == 54 then 6 else if c == 55 then 7 else if c == 56 then 8 else if c == 57 then 9 else 0
  }

  lemma DigitReads(d: nat)
    requires d < 10
    ensures Digit(DIGITS[d]) == d && (d > 0 ==> DIGITS[d] != 48)
  {
  }

  lemma {:induction false} ReadingStep(s: Name, c: bv8)
    ensures Reading(s + [c]) == 10 * Reading(s) + Digit(c)
  {
    assert (s + [c])[..|s|] == s;
  }

  /** A numeral reads back as its number and has no leading zero. */
  lemma {:induction false} DecimalReads(n: nat)
    ensures Reading(Decimal(n)) == n && (n > 0 ==> Decimal(n)[0] != 48)
  {
    DigitReads(n % 10);
    if n >= 10 {
      DecimalReads(n / 10);
      ReadingStep(Decimal(n / 10), DIGITS[n % 10]);
    } else {
      ReadingStep([], DIGITS[n]);
      assert [] + [DIGITS[n]] == Decimal(n);
    }
  }

  /** Object 12 of image "vol" in pool 7 is "7__blk_data___vol12". */
  lemma NameExample()
    ensures ObjectName(7, [118, 111, 108], 12) == [55, 95, 95, 98, 108, 107, 95, 100, 97, 116, 97, 95, 95, 95, 118, 111, 108, 49, 50]
  {
  }

  /** The kernel's buffer always holds the whole name. */
  lemma KernelNameWhole(pool: nat, image: Name, seqNo: nat)
    requires pool < 0x1_0000_0000 && |image| < MAX_IMAGE_NAME && seqNo < 0x1_0000_0000_0000_0000
    ensures KernelName(pool, image, seqNo) == ObjectName(pool, image, seqNo)
  {
    DecimalLength(pool, 10);
    DecimalLength(seqNo, 20);
    assert Pow10(10) == 10000000000 && Pow10(20) == 100000000000000000000 by { PowersOfTen(); }
  }

  /** The user-space client cuts the object number after sixteen digits, and only then. */
  lemma UserNameWholeIff(pool: nat, image: Name, seqNo: nat)
    ensures UserName(pool, image, seqNo) == ObjectName(pool, image, seqNo) <==> seqNo < 10000000000000000
  {
    DecimalLength(seqNo, 16);
    PowersOfTen();
    if |Decimal(seqNo)| > 16 {
      assert |UserName(pool, image, seqNo)| != |ObjectName(pool, image, seqNo)|;
    }
  }

  lemma PowersOfTen()
    ensures Pow10(10) == 10000000000
    ensures Pow10(16) == 10000000000000000
    ensures Pow10(20) == 100000000000000000000
  {
  }
}
