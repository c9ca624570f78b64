/** 64-bit words: wrap-around, the bitwise mask, and the signed difference the
    lock-free rings compute on their counters. */
module MachineWords {
  import opened Residues

  const WORD: nat := 0x1_0000_0000_0000_0000
  const HALF: int := 0x8000_0000_0000_0000

  /** The size_t that holds x. */
  function Wrap(x: int): (w: nat)
    ensures w < WORD
  {
    x % WORD
  }

  /** Bitwise and. */
  function And(x: nat, y: nat): nat {
    if x == 0 || y == 0 then 0
    else 2 * And(x / 2, y / 2) + (x % 2) * (y % 2)
  }

  lemma {:induction false} AndBelow(x: nat, y: nat)
    ensures And(x, y) <= y
  {
    if x != 0 && y != 0 {
      AndBelow(x / 2, y / 2);
      assert (x % 2) * (y % 2) <= y % 2;
    }
  }

  function Complement(w: nat): nat
    requires w < WORD
  {
    WORD - 1 - w
  }

  /** Conversion of a size_t to intptr_t, two's complement. */
  function Signed(w: nat): int {
    if w < HALF then w else w - WORD
  }

  function Pow2(k: nat): (r: nat)
    ensures r > 0
  {
    if k == 0 then 1 else 2 * Pow2(k - 1)
  }

  ghost predicate IsPow2(n: nat) {
    exists k :: n == Pow2(k)
  }

  lemma {:induction false} Pow2Add(j: nat, k: nat)
    ensures Pow2(j + k) == Pow2(j) * Pow2(k)
    decreases j
  {
    if j > 0 {
      Pow2Add(j - 1, k);
      assert Pow2(j + k) == 2 * Pow2(j - 1 + k);
      assert 2 * (Pow2(j - 1) * Pow2(k)) == (2 * Pow2(j - 1)) * Pow2(k);
    }
  }

  lemma WordIsPow2()
    ensures Pow2(64) == WORD && Pow2(63) == HALF
  {
    assert Pow2(2) == 4;
    Pow2Add(2, 2);
    Pow2Add(4, 4);
    Pow2Add(8, 8);
    Pow2Add(16, 16);
    Pow2Add(32, 32);
  }

  lemma {:induction false} HalfResidue(x: nat, m: nat)
    requires m > 0
    ensures x % (2 * m) == 2 * (x / 2 % m) + x % 2
  {
    var q, r := x / 2 / m, x / 2 % m;
    assert x / 2 == q * m + r;
    assert 2 * (q * m) == q * (2 * m);
    Unique(x, 2 * m, q, 2 * r + x % 2);
  }

  /** An odd mask keeps the low bit and masks the rest with its upper half. */
  lemma AndOdd(x: nat, z: nat)
    ensures And(x, 2 * z + 1) == 2 * And(x / 2, z) + x % 2
  {
    assert (2 * z + 1) / 2 == z && (2 * z + 1) % 2 == 1;
  }

  lemma {:induction false} AndOnes(x: nat, k: nat)
    ensures And(x, Pow2(k) - 1) == x % Pow2(k)
    decreases k
  {
    if k > 0 {
      var m := Pow2(k - 1);
      AndOnes(x / 2, k - 1);
      AndOdd(x, m - 1);
      HalfResidue(x, m);
    }
  }

  function LowBit(x: nat): (r: nat)
    requires x > 0
    ensures 0 < r <= x
  {
    if x % 2 == 1 then 1 else 2 * LowBit(x / 2)
  }

  lemma {:induction false} AndComplement(x: nat, k: nat)
    requires x < Pow2(k)
    ensures And(x, Pow2(k) - 1 - x) == 0
    decreases k
  {
    if k > 0 {
      AndComplement(x / 2, k - 1);
      var y := Pow2(k) - 1 - x;
      assert y / 2 == Pow2(k - 1) - 1 - x / 2;
      assert x % 2 + y % 2 == 1;
    }
  }

  lemma {:induction false} AndNegation(x: nat, k: nat)
    requires 0 < x < Pow2(k)
    ensures And(x, Pow2(k) - x) == LowBit(x)
    decreases k
  {
    var y := Pow2(k) - x;
    if x % 2 == 0 {
      assert y / 2 == Pow2(k - 1) - x / 2 && y % 2 == 0;
      AndNegation(x / 2, k - 1);
    } else {
      assert y / 2 == Pow2(k - 1) - 1 - x / 2 && y % 2 == 1;
      AndComplement(x / 2, k - 1);
    }
  }

  lemma {:induction false} LowBitIsPow2(x: nat)
    requires x > 0
    ensures IsPow2(LowBit(x))
  {
    if x % 2 == 1 {
      assert LowBit(x) == Pow2(0);
    } else {
      LowBitIsPow2(x / 2);
      var k: nat :| LowBit(x / 2) == Pow2(k);
      assert LowBit(x) == Pow2(k + 1);
    }
  }

  lemma {:induction false} LowBitOfPow2(k: nat)
    ensures LowBit(Pow2(k)) == Pow2(k)
  {
    if k > 0 { LowBitOfPow2(k - 1); }
  }

  lemma LowestBitTest(size: nat, k: nat)
    requires 0 < size < Pow2(k)
    ensures And(size, Pow2(k) - size) == size <==> IsPow2(size)
  {
    AndNegation(size, k);
    LowBitIsPow2(size);
    if IsPow2(size) {
      var j: nat :| size == Pow2(j);
      LowBitOfPow2(j);
    }
  }

  /** The constructors' assertion accepts exactly the powers of two. */
  lemma AssertionMeansPow2(size: nat)
    requires size < WORD
    ensures (size != 0 && And(size, Wrap(Complement(size) + 1)) == size) <==> IsPow2(size)
  {
    WordIsPow2();
    if size != 0 {
      assert Wrap(Complement(size) + 1) == WORD - size;
      LowestBitTest(size, 64);
    }
  }

  lemma {:induction false} Pow2Divides(j: nat, k: nat)
    requires j <= k
    ensures exists c: nat :: Pow2(k) == c * Pow2(j) && c > 0
    decreases k
  {
    if j == k {
      assert Pow2(k) == 1 * Pow2(j);
    } else {
      Pow2Divides(j, k - 1);
      var c: nat :| Pow2(k - 1) == c * Pow2(j) && c > 0;
      assert Pow2(k) == (2 * c) * Pow2(j);
    }
  }

  lemma {:induction false} Pow2Grows(j: nat, k: nat)
    requires Pow2(j) <= Pow2(k)
    ensures j <= k
    decreases j
  {
    if j > 0 && k > 0 { Pow2Grows(j - 1, k - 1); }
  }

  /** Taking away multiples of a multiple of size keeps the remainder. */
  lemma SameRemainder(x: int, w: int, q: int, c: int, size: nat)
    requires size > 0 && x == q * (c * size) + w
    ensures w % size == x % size
  {
    var d := w / size;
    assert q * (c * size) == (q * c) * size;
    assert w == d * size + w % size;
    assert (q * c) * size + d * size == (q * c + d) * size;
    Unique(x, size, q * c + d, w % size);
  }

  /** Reducing modulo a power of two below 2^64 ignores the wrap. */
  lemma WrapKeepsResidue(x: int, size: nat)
    requires IsPow2(size) && size < WORD
    ensures size > 0 && Wrap(x) % size == x % size
  {
    var k: nat :| size == Pow2(k);
    WordIsPow2();
    Pow2Grows(k, 64);
    Pow2Divides(k, 64);
    var c: nat :| Pow2(64) == c * size && c > 0;
    SameRemainder(x, Wrap(x), x / WORD, c, size);
  }

  /** Masking a wrapped counter is the counter modulo the size, across any
      number of wraps. */
  lemma {:induction false} MaskIsResidue(x: int, size: nat)
    requires IsPow2(size) && size < WORD
    ensures size > 0 && And(Wrap(x), size - 1) == x % size
  {
    var k: nat :| size == Pow2(k);
    AndOnes(Wrap(x), k);
    WrapKeepsResidue(x, size);
  }

  /** `(intptr_t) a - (intptr_t) b` on the words of two counters. */
  function Dif(a: nat, b: nat): int {
    Signed(Wrap(Signed(a) - Signed(b)))
  }

  /** The signed difference is the real one exactly within half a wrap. */
  lemma DifIsReal(x: nat, y: nat)
    ensures Dif(Wrap(x), Wrap(y)) == x - y <==> -HALF <= x - y < HALF
  {
    var a, b := Wrap(x), Wrap(y);
    var d := Signed(a) - Signed(b);
    assert exists k :: x - y == d + k * WORD by {
      assert x == x / WORD * WORD + a && y == y / WORD * WORD + b;
      var k := x / WORD - y / WORD + (if a < HALF then 0 else 1) - (if b < HALF then 0 else 1);
      assert x - y == d + k * WORD;
    }
    var k :| x - y == d + k * WORD;
    assert Wrap(d) == Wrap(x - y) by {
      var q, r := d / WORD, d % WORD;
      assert x - y == (q + k) * WORD + r;
      Unique(x - y, WORD, q + k, r);
    }
    if -HALF <= x - y < HALF {
      if x - y >= 0 { Unique(x - y, WORD, 0, x - y); } else { Unique(x - y, WORD, -1, x - y + WORD); }
    }
  }

  /** A word that is counted on wraps like the counter it stands for. */
  lemma {:induction false} WrapAdd(x: nat, k: nat)
    ensures Wrap(Wrap(x) + k) == Wrap(x + k)
  {
    var r, q := Wrap(Wrap(x) + k), (Wrap(x) + k) / WORD;
    assert x + k == (x / WORD + q) * WORD + r;
    Unique(x + k, WORD, x / WORD + q, r);
  }

  /** An exchange compares words; words of counters less than a full wrap apart
      are equal only when the counters are. */
  lemma SameWord(x: nat, y: nat)
    requires y <= x < y + WORD
    ensures Wrap(x) == Wrap(y) <==> x == y
  {
    if Wrap(x) == Wrap(y) && x != y {
      SameResidue(y, x, WORD);
    }
  }
}
