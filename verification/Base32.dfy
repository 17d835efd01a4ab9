/** The base32 encoder and decoder of TOTP secrets, with their 32-bit accumulators. */
module Base32 {
  import opened Text

  type Bits = seq<bool>

  // ------------------------------------------- JavaScript's 32-bit operators

  /** A 32-bit word, read as `>>> 0` reads it; `<<` and `|` give the same bits for the signed reading. */
  type word = w: int | 0 <= w < 0x1_0000_0000

  /** w << n drops the bits pushed beyond the 32nd. */
  function Shl(w: word, n: nat): word
  {
    (w * Pow2(n)) % 0x1_0000_0000
  }

  /** w >>> n */
  function Shr(w: nat, n: nat): nat
  {
    if n == 0 then w else Shr(w / 2, n - 1)
  }

  function Or(a: nat, b: nat): nat
    decreases a + b
  {
    if a == 0 && b == 0 then 0
    else 2 * Or(a / 2, b / 2) + if a % 2 == 1 || b % 2 == 1 then 1 else 0
  }

  function And(a: nat, b: nat): nat
    decreases a + b
  {
    if a == 0 || b == 0 then 0
    else 2 * And(a / 2, b / 2) + if a % 2 == 1 && b % 2 == 1 then 1 else 0
  }

  // --------------------------------------------------------------- bit strings

  /** The low n bits of x, most significant first. */
  function Low(x: nat, n: nat): (r: Bits)
    ensures |r| == n
  {
    if n == 0 then [] else Low(x / 2, n - 1) + [x % 2 == 1]
  }

  function Value(r: Bits): nat
  {
    if r == [] then 0 else 2 * Value(r[..|r| - 1]) + if r[|r| - 1] then 1 else 0
  }

  function Pow2(n: nat): (p: nat)
    ensures p > 0
  {
    if n == 0 then 1 else 2 * Pow2(n - 1)
  }

  lemma {:induction false} ValueLow(x: nat, n: nat)
    ensures x < Pow2(n) ==> Value(Low(x, n)) == x
    ensures Value(Low(x, n)) < Pow2(n)
  {
    if n > 0 {
      ValueLow(x / 2, n - 1);
      assert Low(x, n)[..n - 1] == Low(x / 2, n - 1);
    }
  }

  lemma {:induction false} LowValue(r: Bits)
    ensures Low(Value(r), |r|) == r && Value(r) < Pow2(|r|)
  {
    if r != [] {
      LowValue(r[..|r| - 1]);
    }
  }

  /** Shifting right drops the last bits. */
  lemma {:induction false} LowShr(x: nat, n: nat, k: nat)
    requires k <= n
    ensures Low(Shr(x, k), n - k) == Low(x, n)[..n - k]
    decreases k
  {
    if k > 0 {
      LowShr(x / 2, n - 1, k - 1);
      assert Low(x, n)[..n - k] == Low(x / 2, n - 1)[..n - k];
    }
  }

  /** Fewer low bits are the last of more low bits. */
  lemma {:induction false} LowTail(x: nat, n: nat, m: nat)
    requires m <= n
    ensures Low(x, m) == Low(x, n)[n - m..]
  {
    if m > 0 {
      LowTail(x / 2, n - 1, m - 1);
    }
  }

  /** Wrapping at 32 bits keeps the low 32 bits. */
  lemma {:induction false} LowWrap(x: nat, n: nat, m: nat)
    requires n <= m
    ensures Low(x % Pow2(m), n) == Low(x, n)
  {
    if n > 0 {
      var p := Pow2(m - 1);
      HalfOfRemainder(x, p);
      LowWrap(x / 2, n - 1, m - 1);
    }
  }

  lemma HalfOfRemainder(x: nat, p: nat)
    requires p > 0
    ensures (x % (2 * p)) / 2 == (x / 2) % p && (x % (2 * p)) % 2 == x % 2
  {
    var q, r := x / (2 * p), x % (2 * p);
    assert x == 2 * p * q + r;
    assert x == 2 * (p * q) + r;
    assert x / 2 == p * q + r / 2;
    assert 0 <= r / 2 < p;
    Unique(x / 2, p, q, r / 2);
  }

  lemma Unique(x: nat, p: nat, q: nat, r: nat)
    requires p > 0 && x == p * q + r && r < p
    ensures x % p == r
  {
    var d := x / p - q;
    assert x == p * (x / p) + x % p;
    assert p * d == r - x % p;
    MulSign(p, d);
  }

  lemma MulSign(p: nat, d: int)
    ensures d >= 1 ==> p * d >= p
    ensures d <= -1 ==> p * d <= -(p as int)
  {
  }

  lemma {:induction false} LowTimes(x: nat, n: nat, m: nat)
    ensures Low(x * Pow2(n), m + n) == Low(x, m) + seq(n, _ => false)
  {
    if n == 0 {
      assert x * Pow2(0) == x;
      assert Low(x, m) + seq(0, _ => false) == Low(x, m);
    } else {
      var y := x * Pow2(n - 1);
      assert x * Pow2(n) == 2 * y;
      LowTimes(x, n - 1, m);
      assert seq(n - 1, _ => false) + [false] == seq(n, _ => false);
      assert Low(x, m) + seq(n - 1, _ => false) + [false] == Low(x, m) + seq(n, _ => false);
    }
  }

  /** w << n appends n zeros, as far as 32 bits reach. */
  lemma LowShl(w: word, n: nat, m: nat)
    requires m + n <= 32
    ensures Low(Shl(w, n), m + n) == Low(w, m) + seq(n, _ => false)
  {
    Pow2Of32();
    LowWrap(w * Pow2(n), m + n, 32);
    LowTimes(w, n, m);
  }

  lemma Pow2Of32()
    ensures Pow2(32) == 0x1_0000_0000
  {
    assert Pow2(8) == 256;
    assert Pow2(16) == 65536;
    assert Pow2(24) == 0x100_0000;
  }

  /** Or works bit by bit. */
  lemma {:induction false} LowOr(a: nat, b: nat, n: nat)
    ensures Low(Or(a, b), n) == seq(n, i requires 0 <= i < n => Low(a, n)[i] || Low(b, n)[i])
  {
    if n > 0 {
      LowOr(a / 2, b / 2, n - 1);
      assert Or(a, b) / 2 == Or(a / 2, b / 2);
    }
  }

  lemma {:induction false} SmallLow(x: nat, k: nat, n: nat)
    requires x < Pow2(k) && k <= n
    ensures Low(x, n) == seq(n - k, _ => false) + Low(x, k)
  {
    if n > 0 {
      if k == 0 {
        SmallLow(0, 0, n - 1);
      } else {
        SmallLow(x / 2, k - 1, n - 1);
      }
    }
  }

  lemma {:induction false} OrBound(a: nat, b: nat, n: nat)
    requires a < Pow2(n) && b < Pow2(n)
    ensures Or(a, b) < Pow2(n)
  {
    if n > 0 {
      OrBound(a / 2, b / 2, n - 1);
    }
  }

  lemma {:induction false} AndMask(a: nat, n: nat)
    ensures And(a, Pow2(n) - 1) < Pow2(n) && Low(And(a, Pow2(n) - 1), n) == Low(a, n)
  {
    if n > 0 {
      var m := Pow2(n) - 1;
      assert m % 2 == 1 && m / 2 == Pow2(n - 1) - 1;
      AndMask(a / 2, n - 1);
      if a != 0 {
        assert And(a, m) == 2 * And(a / 2, m / 2) + a % 2;
      } else {
        assert And(a, m) == 0 && And(0, Pow2(n - 1) - 1) == 0;
      }
    }
  }

  lemma ZipBits(a: nat, b: nat, n: nat, k: nat, left: Bits, right: Bits)
    requires |left| + k == n && |right| == k
    requires Low(a, n) == left + seq(k, _ => false) && Low(b, n) == seq(n - k, _ => false) + right
    ensures Low(Or(a, b), n) == left + right
  {
    LowOr(a, b, n);
  }

  /** (w << k) | x appends the k bits of x to the pending bits: the accumulator never loses a pending bit. */
  lemma Append(w: word, x: nat, k: nat, pending: nat)
    requires x < Pow2(k) && pending + k <= 32
    ensures Or(Shl(w, k), x) < 0x1_0000_0000
    ensures Low(Or(Shl(w, k), x), pending + k) == Low(w, pending) + Low(x, k)
  {
    LowShl(w, k, pending);
    SmallLow(x, k, pending + k);
    ZipBits(Shl(w, k), x, pending + k, k, Low(w, pending), Low(x, k));
    AppendFits(Shl(w, k), x, k);
  }

  lemma AppendFits(s: word, x: nat, k: nat)
    requires x < Pow2(k) && k <= 32
    ensures Or(s, x) < 0x1_0000_0000
  {
    Pow2Of32();
    Pow2Mono(k, 32);
    OrBound(s, x, 32);
  }

  lemma {:induction false} Pow2Mono(a: nat, b: nat)
    requires a <= b
    ensures Pow2(a) <= Pow2(b)
    decreases b
  {
    if a < b {
      Pow2Mono(a, b - 1);
    }
  }

  /** (w >>> (pending - k)) & (2^k - 1) reads the first k pending bits. */
  lemma Take(w: nat, pending: nat, k: nat)
    requires k <= pending
    ensures And(Shr(w, pending - k), Pow2(k) - 1) == Value(Low(w, pending)[..k])
    ensures And(Shr(w, pending - k), Pow2(k) - 1) < Pow2(k)
  {
    var shifted := Shr(w, pending - k);
    LowShr(w, pending, pending - k);
    Masked(shifted, k);
  }

  lemma Masked(shifted: nat, k: nat)
    ensures And(shifted, Pow2(k) - 1) == Value(Low(shifted, k)) < Pow2(k)
  {
    AndMask(shifted, k);
    ValueLow(And(shifted, Pow2(k) - 1), k);
  }

  // ------------------------------------------------- the operators, bit by bit

  lemma HalfOfQuotient(x: nat, p: nat)
    requires p > 0
    ensures (x / 2) / p == x / (2 * p)
  {
    var q, r := x / (2 * p), x % (2 * p);
    assert x == 2 * (p * q) + r by { assert x == 2 * p * q + r; }
    assert x / 2 == p * q + r / 2 && r / 2 < p;
    Unique(x / 2, p, q, r / 2);
    QuotientIs(x / 2, p, q, r / 2);
  }

  lemma QuotientIs(x: nat, p: nat, q: nat, r: nat)
    requires p > 0 && x == p * q + r && r < p
    ensures x / p == q
  {
    var d := x / p - q;
    assert x == p * (x / p) + x % p;
    assert p * d == r - x % p;
    MulSign(p, d);
  }

  /** The low bits of a number, most significant first. */
  lemma {:induction false} LowBit(x: nat, n: nat, i: nat)
    requires i < n
    ensures Low(x, n)[i] <==> (x / Pow2(n - 1 - i)) % 2 == 1
    decreases n
  {
    if i < n - 1 {
      LowBit(x / 2, n - 1, i);
      HalfOfQuotient(x, Pow2(n - 2 - i));
    }
  }

  lemma AndHalves(a: nat, b: nat)
    ensures And(a, b) / 2 == And(a / 2, b / 2)
    ensures And(a, b) % 2 == 1 <==> a % 2 == 1 && b % 2 == 1
  {
    if a == 0 { assert And(0, b / 2) == 0; }
    if b == 0 { assert And(a / 2, 0) == 0; }
  }

  /** And works bit by bit. */
  lemma {:induction false} LowAnd(a: nat, b: nat, n: nat)
    ensures Low(And(a, b), n) == seq(n, i requires 0 <= i < n => Low(a, n)[i] && Low(b, n)[i])
  {
    if n > 0 {
      LowAnd(a / 2, b / 2, n - 1);
      AndHalves(a, b);
    }
  }

  /** Shifting right divides, shifting left multiplies and wraps at 32 bits. */
  lemma {:induction false} ShiftsExactly(w: word, n: nat)
    ensures Shr(w, n) == w / Pow2(n) && Shl(w, n) == (w * Pow2(n)) % 4294967296
    ensures Pow2(0) == 1 && Pow2(n + 1) == 2 * Pow2(n)
    decreases n
  {
    if n > 0 {
      ShiftsExactly(w / 2, n - 1);
      HalfOfQuotient(w, Pow2(n - 1));
    }
  }
}
