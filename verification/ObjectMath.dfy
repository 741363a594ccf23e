/** Object arithmetic: which object holds a byte of the image, where in it, and where an
    object starts. Defined by repeated subtraction so that proofs stay linear; the lemmas
    ObjectIsQuotient and StartIsProduct tie them to the clients' / and %. */
module ObjectMath {

  function ObjectOf(a: nat, size: nat): nat
    requires size > 0
  {
    if a < size then 0 else ObjectOf(a - size, size) + 1
  }

  function OffsetIn(a: nat, size: nat): (r: nat)
    requires size > 0
    ensures r < size
  {
    if a < size then a else OffsetIn(a - size, size)
  }

  function StartOf(o: nat, size: nat): nat {
    if o == 0 then 0 else StartOf(o - 1, size) + size
  }

  lemma {:induction false} Locate(a: nat, size: nat)
    requires size > 0
    ensures a == StartOf(ObjectOf(a, size), size) + OffsetIn(a, size)
  {
    if a >= size {
      Locate(a - size, size);
    }
  }

  lemma {:induction false} StartMonotone(o: nat, p: nat, size: nat)
    requires o < p
    ensures StartOf(o, size) + size <= StartOf(p, size)
  {
    if o + 1 < p {
      StartMonotone(o, p - 1, size);
    }
  }

  /** The object of a byte is the one whose range holds it. */
  lemma ObjectIff(a: nat, o: nat, size: nat)
    requires size > 0
    ensures StartOf(o, size) <= a < StartOf(o, size) + size <==> o == ObjectOf(a, size)
  {
  }

  lemma {:induction false} ObjectMonotone(a: nat, b: nat, size: nat)
    requires size > 0 && a <= b
    ensures ObjectOf(a, size) <= ObjectOf(b, size)
    ensures a + size <= b ==> ObjectOf(a, size) < ObjectOf(b, size)
    decreases b
  {
    if a + size <= b {
      ObjectMonotone(a, b - size, size);
    } else if a >= size {
      ObjectMonotone(a - size, b - size, size);
    }
  }

  lemma {:induction false} StartIsProduct(o: nat, size: nat)
    ensures StartOf(o, size) == o * size
  {
    if o > 0 {
      StartIsProduct(o - 1, size);
      assert o * size == (o - 1) * size + size;
    }
  }

  lemma ObjectIsQuotient(a: nat, size: nat)
    requires size > 0
    ensures ObjectOf(a, size) == a / size && OffsetIn(a, size) == a % size
  {
    Locate(a, size);
    ObjectIff(a, a / size, size);
    StartIsProduct(a / size, size);
    StartIsProduct(ObjectOf(a, size), size);
    assert a == (a / size) * size + a % size;
  }
}
