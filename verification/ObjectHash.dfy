/** The Jenkins hash that routes an object name to a placement group. The kernel client
    assembles words with OR, the user-space client with plus. The hash is written over an
    abstract word type, so that the two clients differ only in how a word is assembled. */
module ObjectHash {
  import opened ObjectNames

  datatype Lanes<W> = Lanes(a: W, b: W, c: W)

  datatype WordOps<!W, !B> = WordOps(
    seed: Lanes<W>,
    mix: Lanes<W> -> Lanes<W>,
    plus: (W, W) -> W,
    word: (B, B, B, B) -> W,  // four bytes, little end first
    byte: (B, nat) -> W,      // one byte, shifted left
    length: nat -> W)

  function AddBlock<W, B>(o: WordOps<W, B>, s: Lanes<W>, k: seq<B>, i: nat): Lanes<W>
    requires i + 12 <= |k|
  {
    Lanes(o.plus(s.a, o.word(k[i], k[i + 1], k[i + 2], k[i + 3])),
          o.plus(s.b, o.word(k[i + 4], k[i + 5], k[i + 6], k[i + 7])),
          o.plus(s.c, o.word(k[i + 8], k[i + 9], k[i + 10], k[i + 11])))
  }

  /** Lanes after the whole 12-byte blocks from position i on. */
  function Absorb<W, B>(o: WordOps<W, B>, s: Lanes<W>, k: seq<B>, i: nat): Lanes<W>
    decreases |k| - i
  {
    if i + 12 <= |k| then Absorb(o, o.mix(AddBlock(o, s, k, i)), k, i + 12) else s
  }

  /** Adds byte i when the key has it: one case of the fall-through switch. */
  function Case<W, B>(o: WordOps<W, B>, w: W, k: seq<B>, i: nat, shift: nat): W {
    if i < |k| then o.plus(w, o.byte(k[i], shift)) else w
  }

  /** The last, partial block; the low byte of lane c is kept for the length. */
  function Tail<W, B>(o: WordOps<W, B>, s: Lanes<W>, k: seq<B>, i: nat): Lanes<W> {
    Lanes(Case(o, Case(o, Case(o, Case(o, s.a, k, i + 3, 24), k, i + 2, 16), k, i + 1, 8), k, i, 0),
          Case(o, Case(o, Case(o, Case(o, s.b, k, i + 7, 24), k, i + 6, 16), k, i + 5, 8), k, i + 4, 0),
          Case(o, Case(o, Case(o, o.plus(s.c, o.length(|k|)), k, i + 10, 24), k, i + 9, 16), k, i + 8, 8))
  }

  function Jenkins<W, B>(o: WordOps<W, B>, k: seq<B>): W {
    o.mix(Tail(o, Absorb(o, o.seed, k, 0), k, |k| / 12 * 12)).c
  }

  /** The loop and the switch of both clients. */
  method Hash<W, B>(o: WordOps<W, B>, k: seq<B>) returns (h: W)
    ensures h == Jenkins(o, k)
  {
    var a, b, c := o.seed.a, o.seed.b, o.seed.c;
    var i := 0;
    while |k| - i >= 12
      invariant 0 <= i <= |k| && i % 12 == 0
      invariant Absorb(o, o.seed, k, 0) == Absorb(o, Lanes(a, b, c), k, i)
    {
      a := o.plus(a, o.word(k[i], k[i + 1], k[i + 2], k[i + 3]));
      b := o.plus(b, o.word(k[i + 4], k[i + 5], k[i + 6], k[i + 7]));
      c := o.plus(c, o.word(k[i + 8], k[i + 9], k[i + 10], k[i + 11]));
      var m := o.mix(Lanes(a, b, c));
      a, b, c := m.a, m.b, m.c;
      i := i + 12;
    }
    var len := |k| - i;
    c := o.plus(c, o.length(|k|));
    if len >= 11 { c := o.plus(c, o.byte(k[i + 10], 24)); }
    if len >= 10 { c := o.plus(c, o.byte(k[i + 9], 16)); }
    if len >= 9 { c := o.plus(c, o.byte(k[i + 8], 8)); }
    if len >= 8 { b := o.plus(b, o.byte(k[i + 7], 24)); }
    if len >= 7 { b := o.plus(b, o.byte(k[i + 6], 16)); }
    if len >= 6 { b := o.plus(b, o.byte(k[i + 5], 8)); }
    if len >= 5 { b := o.plus(b, o.byte(k[i + 4], 0)); }
    if len >= 4 { a := o.plus(a, o.byte(k[i + 3], 24)); }
    if len >= 3 { a := o.plus(a, o.byte(k[i + 2], 16)); }
    if len >= 2 { a := o.plus(a, o.byte(k[i + 1], 8)); }
    if len >= 1 { a := o.plus(a, o.byte(k[i], 0)); }
    assert i == |k| / 12 * 12;
    h := o.mix(Lanes(a, b, c)).c;
  }

  ghost predicate SameWords<W, B(!new)>(o: WordOps<W, B>, p: WordOps<W, B>) {
    && p == o.(word := p.word)
    && forall b0, b1, b2, b3 :: o.word(b0, b1, b2, b3) == p.word(b0, b1, b2, b3)
  }

  lemma {:induction false} SameAbsorb<W, B(!new)>(o: WordOps<W, B>, p: WordOps<W, B>, s: Lanes<W>, k: seq<B>, i: nat)
    requires SameWords(o, p)
    ensures Absorb(o, s, k, i) == Absorb(p, s, k, i)
    decreases |k| - i
  {
    if i + 12 <= |k| {
      assert AddBlock(o, s, k, i) == AddBlock(p, s, k, i);
      SameAbsorb(o, p, o.mix(AddBlock(o, s, k, i)), k, i + 12);
    }
  }

  lemma SameHash<W, B(!new)>(o: WordOps<W, B>, p: WordOps<W, B>, k: seq<B>)
    requires SameWords(o, p)
    ensures Jenkins(o, k) == Jenkins(p, k)
  {
    SameAbsorb(o, p, o.seed, k, 0);
  }

  /** The operations of the mixing step, over an abstract word type. */
  datatype MixOps<!W> = MixOps(
    sub: (W, W) -> W,
    add: (W, W) -> W,
    xor: (W, W) -> W,
    right: (W, nat) -> W,
    left: (W, nat) -> W)

  function Turn<W>(o: MixOps<W>, z: W, x: W, y: W, w: W): W {
    o.xor(o.sub(o.sub(z, x), y), w)
  }

  function Back<W>(o: MixOps<W>, z: W, x: W, y: W, w: W): W {
    o.add(o.add(o.xor(z, w), y), x)
  }

  /** The mixing step, the same text in both clients. */
  function Stir<W>(o: MixOps<W>, s: Lanes<W>): Lanes<W> {
    var a1 := Turn(o, s.a, s.b, s.c, o.right(s.c, 13));
    var b1 := Turn(o, s.b, s.c, a1, o.left(a1, 8));
    var c1 := Turn(o, s.c, a1, b1, o.right(b1, 13));
    var a2 := Turn(o, a1, b1, c1, o.right(c1, 12));
    var b2 := Turn(o, b1, c1, a2, o.left(a2, 16));
    var c2 := Turn(o, c1, a2, b2, o.right(b2, 5));
    var a3 := Turn(o, a2, b2, c2, o.right(c2, 3));
    var b3 := Turn(o, b2, c2, a3, o.left(a3, 10));
    var c3 := Turn(o, c2, a3, b3, o.right(b3, 15));
    Lanes(a3, b3, c3)
  }

  /** The same run backwards. */
  function Unstir<W>(o: MixOps<W>, s: Lanes<W>): Lanes<W> {
    var c2 := Back(o, s.c, s.a, s.b, o.right(s.b, 15));
    var b2 := Back(o, s.b, c2, s.a, o.left(s.a, 10));
    var a2 := Back(o, s.a, b2, c2, o.right(c2, 3));
    var c1 := Back(o, c2, a2, b2, o.right(b2, 5));
    var b1 := Back(o, b2, c1, a2, o.left(a2, 16));
    var a1 := Back(o, a2, b1, c1, o.right(c1, 12));
    var c0 := Back(o, c1, a1, b1, o.right(b1, 13));
    var b0 := Back(o, b1, c0, a1, o.left(a1, 8));
    Lanes(Back(o, a1, b0, c0, o.right(c0, 13)), b0, c0)
  }

  /** Adding undoes subtracting, and xor undoes itself. */
  ghost predicate Undoes<W(!new)>(o: MixOps<W>) {
    && (forall z, x :: o.add(o.sub(z, x), x) == z)
    && (forall z, w :: o.xor(o.xor(z, w), w) == z)
  }

  lemma StirUndone<W(!new)>(o: MixOps<W>, s: Lanes<W>)
    requires Undoes(o)
    ensures Unstir(o, Stir(o, s)) == s
  {
  }

  function Sub(z: bv32, x: bv32): bv32 { z - x }

  function Add(z: bv32, x: bv32): bv32 { z + x }

  function Xor(z: bv32, w: bv32): bv32 { z ^ w }

  lemma XorTwice(z: bv32, w: bv32)
    ensures Xor(Xor(z, w), w) == z
  {
  }

  lemma AddDifference(z: bv32, x: bv32)
    ensures Add(z - x, x) == z
  {
  }

  lemma AddBack(z: bv32, x: bv32)
    ensures Add(Sub(z, x), x) == z
  {
    AddDifference(z, x);
  }

  function Right(w: bv32, n: nat): bv32 {
    if n == 13 then w >> 13 else if n == 12 then w >> 12 else if n == 5 then w >> 5
    else if n == 3 then w >> 3 else if n == 15 then w >> 15 else w
  }

  function Left(w: bv32, n: nat): bv32 {
    if n == 8 then w << 8 else if n == 16 then w << 16 else if n == 10 then w << 10 else w
  }

  function Mixing(): MixOps<bv32> {
    MixOps(Sub, Add, Xor, Right, Left)
  }

  function Mix(s: Lanes<bv32>): Lanes<bv32> {
    Stir(Mixing(), s)
  }

  lemma MixingUndoes()
    ensures Undoes(Mixing())
  {
    forall z, x
      ensures Mixing().add(Mixing().sub(z, x), x) == z
    {
      AddBack(z, x);
    }
    forall z, w
      ensures Mixing().xor(Mixing().xor(z, w), w) == z
    {
      XorTwice(z, w);
    }
  }

  /** Mixing can be undone, so it loses no bit of what was hashed so far. */
  lemma MixUndone(o: MixOps<bv32>, s: Lanes<bv32>)
    requires o == Mixing()
    ensures Unstir(o, Stir(o, s)) == s
  {
    MixingUndoes();
    StirUndone(o, s);
  }

  /** The first mixing of an empty name. */
  lemma MixExample()
    ensures Mix(Lanes(0x9e3779b9, 0x9e3779b9, 0)).c == 0xbd49d10d
  {
  }

  function OrBytes(b0: bv8, b1: bv8, b2: bv8, b3: bv8): bv32 {
    (b0 as bv32) | ((b1 as bv32) << 8) | ((b2 as bv32) << 16) | ((b3 as bv32) << 24)
  }

  function PlusBytes(b0: bv8, b1: bv8, b2: bv8, b3: bv8): bv32 {
    (b0 as bv32) + ((b1 as bv32) << 8) + ((b2 as bv32) << 16) + ((b3 as bv32) << 24)
  }

  /** Shifted bytes do not overlap, so OR and plus assemble the same word. */
  lemma OrIsPlus(b0: bv8, b1: bv8, b2: bv8, b3: bv8)
    ensures OrBytes(b0, b1, b2, b3) == PlusBytes(b0, b1, b2, b3)
  {
  }

  function Plus(x: bv32, y: bv32): bv32 {
    x + y
  }

  function ShiftedByte(b: bv8, shift: nat): bv32 {
    if shift == 24 then (b as bv32) << 24
    else if shift == 16 then (b as bv32) << 16
    else if shift == 8 then (b as bv32) << 8
    else b as bv32
  }

  function LengthWord(n: nat): bv32 {
    (n % 0x1_0000_0000) as bv32
  }

  function KernelOps(): WordOps<bv32, bv8> {
    WordOps(Lanes(0x9e3779b9, 0x9e3779b9, 0), Mix, Plus, OrBytes, ShiftedByte, LengthWord)
  }

  function UserOps(): WordOps<bv32, bv8> {
    WordOps(Lanes(0x9e3779b9, 0x9e3779b9, 0), Mix, Plus, PlusBytes, ShiftedByte, LengthWord)
  }

  lemma TwinOps()
    ensures SameWords(KernelOps(), UserOps())
  {
    forall b0, b1, b2, b3
      ensures KernelOps().word(b0, b1, b2, b3) == UserOps().word(b0, b1, b2, b3)
    {
      OrIsPlus(b0, b1, b2, b3);
    }
  }

  /** The hash of the empty name. */
  lemma HashOfNothing()
    ensures Jenkins(KernelOps(), []) == 0xbd49d10d
  {
    MixExample();
  }

  /** "7__blk_data___vol12" */
  function ExampleName(): Name {
    [55, 95, 95, 98, 108, 107, 95, 100, 97, 116, 97, 95, 95, 95, 118, 111, 108, 49, 50]
  }

  lemma FirstBlock()
    ensures AddBlock(KernelOps(), KernelOps().seed, ExampleName(), 0) == Lanes(0x96d8f0, 0x296e525, 0x5f617461)
  {
  }

  lemma FirstMix()
    ensures Mix(Lanes(0x96d8f0, 0x296e525, 0x5f617461)) == Lanes(0x8ba77634, 0x576a867c, 0x1665edee)
  {
  }

  lemma LastLaneA()
    ensures Tail(KernelOps(), Lanes(0x8ba77634, 0x576a867c, 0x1665edee), ExampleName(), 12).a == 0xfb1dd593
  {
  }

  lemma LastLaneB()
    ensures Tail(KernelOps(), Lanes(0x8ba77634, 0x576a867c, 0x1665edee), ExampleName(), 12).b == 0x579cb7e8
  {
  }

  lemma LengthOfName()
    ensures LengthWord(19) == 19
  {
  }

  lemma LastLaneC()
    ensures Tail(KernelOps(), Lanes(0x8ba77634, 0x576a867c, 0x1665edee), ExampleName(), 12).c == 0x1665ee01
  {
    LengthOfName();
  }

  lemma LastMix()
    ensures Mix(Lanes(0xfb1dd593, 0x579cb7e8, 0x1665ee01)).c == 0x3656a126
  {
  }

  /** The hash of a name of nineteen bytes, put together from its parts. */
  lemma OneBlock<W, B>(o: WordOps<W, B>, k: seq<B>, first: Lanes<W>, mixed: Lanes<W>, last: Lanes<W>)
    requires |k| == 19 && AddBlock(o, o.seed, k, 0) == first && o.mix(first) == mixed && Tail(o, mixed, k, 12) == last
    ensures Jenkins(o, k) == o.mix(last).c
  {
    assert Absorb(o, mixed, k, 12) == mixed;
  }

  /** The hash of that name: one whole block and a tail of seven bytes. */
  lemma HashOfName(o: WordOps<bv32, bv8>)
    requires o == KernelOps()
    ensures Jenkins(o, ExampleName()) == 0x3656a126
  {
    FirstBlock();
    FirstMix();
    LastLaneA();
    LastLaneB();
    LastLaneC();
    LastMix();
    OneBlock(o, ExampleName(), Lanes(0x96d8f0, 0x296e525, 0x5f617461),
             Lanes(0x8ba77634, 0x576a867c, 0x1665edee), Lanes(0xfb1dd593, 0x579cb7e8, 0x1665ee01));
  }

  function Residue(h: bv32, n: nat): (r: nat)
    requires n > 0
    ensures r < n
  {
    Mod(h as nat, n)
  }

  function Mod(x: nat, n: nat): (r: nat)
    requires n > 0
    ensures r < n
  {
    x % n
  }

  /** kfastblock_request_calc_pg: zero when there is no placement group. */
  function KernelPg(name: Name, pgCount: nat): (pg: nat)
    ensures pgCount > 0 ==> pg < pgCount
  {
    if pgCount == 0 then 0 else Residue(Jenkins(KernelOps(), name), pgCount)
  }

  /** calc_target, for a pool that has placement groups. */
  function UserPg(name: Name, pgCount: nat): (pg: nat)
    requires pgCount > 0
    ensures pg < pgCount
  {
    Residue(Jenkins(UserOps(), name), pgCount)
  }

  /** r is below n and differs from x by a multiple of n. */
  ghost predicate Remainder(x: nat, n: nat, r: nat) {
    r < n && exists q: nat :: x == q * n + r
  }

  lemma ModExact(x: nat, n: nat)
    requires n > 0
    ensures Remainder(x, n, Mod(x, n))
  {
    assert x == (x / n) * n + x % n;
  }

  /** The group is the remainder of the hash by the number of groups. */
  lemma {:induction false} PgIsRemainder(o: WordOps<bv32, bv8>, name: Name, pgCount: nat, h: bv32, x: nat)
    requires pgCount > 0 && o == KernelOps() && h == Jenkins(o, name) && x == h as nat
    ensures Remainder(x, pgCount, KernelPg(name, pgCount))
  {
    ModExact(x, pgCount);
    assert KernelPg(name, pgCount) == Residue(h, pgCount) == Mod(x, pgCount);
  }

  /** Both clients send every object to the same placement group. */
  lemma {:induction false} SamePg(name: Name, pgCount: nat)
    requires pgCount > 0
    ensures KernelPg(name, pgCount) == UserPg(name, pgCount)
  {
    TwinOps();
    SameHash(KernelOps(), UserOps(), name);
  }
}
