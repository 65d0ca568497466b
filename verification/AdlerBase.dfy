/**
 Why the sums of Adler-32 are taken modulo 65521 (zlib/adler32.c:12, section 8.2 of RFC 1950): it is
 the largest prime below 65536.
 */
module AdlerBase {
  import opened BitOps
  import opened Adler32

  ghost predicate Prime(n: nat) {
    n >= 2 && forall d :: 2 <= d < n ==> n % d != 0
  }

  /** None of a, a + 2, a + 4 and so on up to b divides n. */
  predicate NoDivisor(n: nat, a: nat, b: nat)
    requires a >= 1
    decreases b - a
  {
    a > b || (n % a != 0 && NoDivisor(n, a + 2, b))
  }

  lemma {:induction false} NoDivisorMeans(n: nat, a: nat, b: nat, d: nat)
    requires 1 <= a <= d <= b && (d - a) % 2 == 0 && NoDivisor(n, a, b)
    ensures n % d != 0
    decreases b - a
  {
    if a < d { NoDivisorMeans(n, a + 2, b, d); }
  }

  lemma MultipleDivides(n: nat, d: nat, e: nat)
    requires d >= 1 && n == d * e
    ensures n % d == 0
  {
    var q := n / d;
    assert n == d * q + n % d;
    assert d * (e - q) == n % d;
    Multiples(d, e - q);
  }

  lemma Multiples(d: nat, k: int)
    ensures k >= 1 ==> d * k >= d
    ensures k <= -1 ==> d * k + d <= 0
    ensures k == 0 || k == 1 ==> d * k <= d
  {
  }

  lemma LargerSquare(d: nat, e: nat, k: nat)
    requires d >= k && e >= k
    ensures d * e >= k * k
  {
    assert d * e >= d * k >= k * k;
  }

  /** A number with a divisor has one up to its square root. */
  lemma SmallDivisor(n: nat, k: nat, d: nat) returns (e: nat)
    requires n < (k + 1) * (k + 1) && 2 <= d < n && n % d == 0
    ensures 2 <= e <= k && n % e == 0
  {
    e := n / d;
    Quotient(n, d);
    if d <= k {
      e := d;
    } else {
      if e > k {
        LargerSquare(d, e, k + 1);
        assert false;
      }
      MultipleDivides(n, e, d);
    }
  }

  lemma Quotient(n: nat, d: nat)
    requires 1 <= d < n && n % d == 0
    ensures n == n / d * d && n / d >= 2
  {
    Multiples(d, n / d);
  }

  lemma EvenDivides(n: nat, d: nat)
    requires d >= 1 && n % d == 0 && d % 2 == 0
    ensures n % 2 == 0
  {
    assert n == d * (n / d) == 2 * (d / 2 * (n / d));
    MultipleDivides(n, 2, d / 2 * (n / d));
  }

  // ------------------------------------------------------------ eight odd numbers at a time

  lemma Trials()
    ensures NoDivisor(BASE, 3, 17) && NoDivisor(BASE, 19, 33)
    ensures NoDivisor(BASE, 35, 49) && NoDivisor(BASE, 51, 65)
  {
  }

  lemma MoreTrials()
    ensures NoDivisor(BASE, 67, 81) && NoDivisor(BASE, 83, 97)
    ensures NoDivisor(BASE, 99, 113) && NoDivisor(BASE, 115, 129)
  {
  }

  lemma TrialsAbove130()
    ensures NoDivisor(BASE, 131, 145) && NoDivisor(BASE, 147, 161)
    ensures NoDivisor(BASE, 163, 177) && NoDivisor(BASE, 179, 193)
  {
  }

  lemma LastTrials()
    ensures NoDivisor(BASE, 195, 209) && NoDivisor(BASE, 211, 225)
    ensures NoDivisor(BASE, 227, 241) && NoDivisor(BASE, 243, 257)
  {
  }

  lemma NoneBelow130(d: nat)
    requires 3 <= d <= 129 && d % 2 == 1
    ensures BASE % d != 0
  {
    hide NoDivisor;
    Trials();
    MoreTrials();
    if d <= 17 { NoDivisorMeans(BASE, 3, 17, d); }
    else if d <= 33 { NoDivisorMeans(BASE, 19, 33, d); }
    else if d <= 49 { NoDivisorMeans(BASE, 35, 49, d); }
    else if d <= 65 { NoDivisorMeans(BASE, 51, 65, d); }
    else if d <= 81 { NoDivisorMeans(BASE, 67, 81, d); }
    else if d <= 97 { NoDivisorMeans(BASE, 83, 97, d); }
    else if d <= 113 { NoDivisorMeans(BASE, 99, 113, d); }
    else { NoDivisorMeans(BASE, 115, 129, d); }
  }

  lemma NoneAbove130(d: nat)
    requires 131 <= d <= 257 && d % 2 == 1
    ensures BASE % d != 0
  {
    hide NoDivisor;
    TrialsAbove130();
    LastTrials();
    if d <= 145 { NoDivisorMeans(BASE, 131, 145, d); }
    else if d <= 161 { NoDivisorMeans(BASE, 147, 161, d); }
    else if d <= 177 { NoDivisorMeans(BASE, 163, 177, d); }
    else if d <= 193 { NoDivisorMeans(BASE, 179, 193, d); }
    else if d <= 209 { NoDivisorMeans(BASE, 195, 209, d); }
    else if d <= 225 { NoDivisorMeans(BASE, 211, 225, d); }
    else if d <= 241 { NoDivisorMeans(BASE, 227, 241, d); }
    else { NoDivisorMeans(BASE, 243, 257, d); }
  }

  lemma BasePrime()
    ensures Prime(BASE)
  {
    forall d | 2 <= d < BASE ensures BASE % d != 0 {
      if BASE % d == 0 {
        var e := SmallDivisor(BASE, 255, d);
        if e % 2 == 0 { EvenDivides(BASE, e); } else if e < 130 { NoneBelow130(e); } else { NoneAbove130(e); }
        assert false;
      }
    }
  }

  /** A divisor of each of the numbers that follow. */
  const FACTORS: seq<nat> := [2, 3, 2, 5, 2, 7, 2, 3, 2, 19, 2, 13, 2, 3]

  lemma Composite(i: nat)
    requires 1 <= i <= 14
    ensures 2 <= FACTORS[i - 1] < BASE && BASE + i == FACTORS[i - 1] * ((BASE + i) / FACTORS[i - 1])
  {
    if i <= 4 {
    } else if i <= 8 {
    } else if i <= 11 {
    } else {
    }
  }

  /** The largest prime that fits in sixteen bits. */
  lemma BaseIsLargest()
    ensures Prime(BASE) && forall n :: BASE < n < 0x10000 ==> !Prime(n)
  {
    BasePrime();
    forall n | BASE < n < 0x10000 ensures !Prime(n) {
      var d := FACTORS[n - BASE - 1];
      Composite(n - BASE);
      MultipleDivides(n, d, n / d);
    }
  }

  // --------------------------------------------------------------------- a fixed text

  function Same(b: byte, n: nat): (data: seq<byte>)
    ensures |data| == n
  {
    seq(n, _ => b)
  }

  lemma {:induction false} SameSums(b: byte, n: nat)
    ensures Total(Same(b, n)) == b * n && 2 * Weighted(Same(b, n)) == b * (n * (n + 1))
  {
    if n != 0 {
      SameSums(b, n - 1);
      assert Same(b, n)[..n - 1] == Same(b, n - 1);
      NextTriangle(b, n);
    }
  }

  lemma NextTriangle(b: nat, n: nat)
    requires n >= 1
    ensures b * ((n - 1) * n) + 2 * (b * n) == b * (n * (n + 1)) && b * (n - 1) + b == b * n
  {
    assert (n - 1) * n + 2 * n == n * (n + 1);
  }

  /** 257 bytes of all ones: the first sum goes past the modulus once, the second 129 times. */
  lemma AllOnesCheck()
    ensures Check(1, Same(255, 257)) == 0x080f_000f
  {
    hide Total, Weighted, Feed, Unpack, Same, Low, Shr, Shl, Or, Pow2;
    SameSums(255, 257);
    FeedIsPlain(Sums(1, 0), Same(255, 257));
    UnpackOne();
    assert 2 * Weighted(Same(255, 257)) == 255 * (257 * 258);
    PackIs(15, 2063);
  }

  lemma PackIs(a: nat, b: nat)
    requires a < 0x10000
    ensures Pack(Sums(a, b)) == a + 0x10000 * b
  {
    hide Shl, Or, Pow2;
    Pow2Short();
    OrDisjoint(a, b, 16);
    ShlTimes(b, 16);
  }
}
