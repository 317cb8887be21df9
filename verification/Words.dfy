/** Machine words as bounded integers, and the bit operations the program applies to them.

    Every wrap-around is written out as `%`. The bitwise operators are defined bit by bit on
    naturals, so that "mask with 2^k - 1 is remainder by 2^k" and "`|` of disjoint bits is `+`"
    are theorems here, not assumptions. */
module Words {

  type u8 = x: int | 0 <= x < 0x100
  type u16 = x: int | 0 <= x < 0x1_0000
  type u32 = x: int | 0 <= x < 0x1_0000_0000
  type u64 = x: int | 0 <= x < 0x1_0000_0000_0000_0000

  const TWO32: nat := 0x1_0000_0000
  const TWO64: nat := 0x1_0000_0000_0000_0000

  datatype Option<+T> = None | Some(value: T)

  function Pow2(k: nat): (p: nat)
    ensures p >= 1
  {
    if k == 0 then 1 else 2 * Pow2(k - 1)
  }

  lemma {:induction false} Pow2Add(j: nat, k: nat)
    ensures Pow2(j + k) == Pow2(j) * Pow2(k)
  {
    if j > 0 {
      Pow2Add(j - 1, k);
      assert 2 * (Pow2(j - 1) * Pow2(k)) == Pow2(j) * Pow2(k);
    }
  }

  // ---- Remainders ----

  lemma ModUnique(x: int, m: nat, q: int, r: int)
    requires 0 <= r < m && x == q * m + r
    ensures x % m == r && x / m == q
  {
    var d := x / m - q;
    assert (d >= 1 ==> d * m >= m) && (d <= -1 ==> d * m <= 0 - m);
    assert d * m == r - x % m;
  }

  /** Congruent numbers have equal remainders. */
  lemma ModShift(x: int, m: nat, q: int)
    requires m > 0
    ensures (x + q * m) % m == x % m
  {
    assert x + q * m == (x / m + q) * m + x % m;
    ModUnique(x + q * m, m, x / m + q, x % m);
  }

  lemma ModSub(x: int, y: int, m: nat)
    requires m > 0
    ensures (x % m - y % m) % m == (x - y) % m
  {
    assert x - y == (x % m - y % m) + (x / m - y / m) * m by {
      assert (x / m - y / m) * m == (x / m) * m - (y / m) * m;
    }
    ModShift(x % m - y % m, m, x / m - y / m);
  }

  lemma ModMul(x: int, y: int, m: nat)
    requires m > 0
    ensures (x % m * y) % m == (x * y) % m
  {
    assert x * y == (x % m) * y + (x / m * y) * m by {
      assert x == (x / m) * m + x % m;
      assert ((x / m) * m + x % m) * y == (x / m) * m * y + (x % m) * y;
      assert (x / m) * m * y == (x / m * y) * m;
    }
    ModShift((x % m) * y, m, x / m * y);
  }

  lemma ModDouble(x: nat, p: nat)
    requires p > 0
    ensures x % (2 * p) == 2 * (x / 2 % p) + x % 2
  {
    var q, r := x / 2 / p, x / 2 % p;
    assert q * (2 * p) == 2 * (q * p);
    ModUnique(x, 2 * p, q, 2 * r + x % 2);
  }

  // ---- Products, quotients and remainders as recursions ----
  //
  // The same operations as `*`, `/` and `%`, unfolded only where a lemma asks for it; the methods
  // below compute them with the machine's operators.

  function Times(n: nat, c: nat): nat
  {
    if n == 0 then 0 else Times(n - 1, c) + c
  }

  function Wrap(x: nat, m: nat): (r: nat)
    requires m > 0
    ensures r < m && r <= x
  {
    if x < m then x else Wrap(x - m, m)
  }

  function Quotient(x: nat, d: nat): (q: nat)
    requires d > 0
  {
    if x < d then 0 else 1 + Quotient(x - d, d)
  }

  lemma {:induction false} TimesIsProduct(n: nat, c: nat)
    ensures Times(n, c) == n * c
  {
    if n > 0 { TimesIsProduct(n - 1, c); }
  }

  lemma {:induction false} WrapIsRemainder(x: nat, m: nat)
    requires m > 0
    ensures Wrap(x, m) == x % m
  {
    if x < m {
      ModUnique(x, m, 0, x);
    } else {
      WrapIsRemainder(x - m, m);
      ModShift(x - m, m, 1);
    }
  }

  lemma {:induction false} QuotientIsDivision(x: nat, d: nat)
    requires d > 0
    ensures Quotient(x, d) == x / d
    ensures x == Times(Quotient(x, d), d) + Wrap(x, d)
  {
    if x >= d {
      QuotientIsDivision(x - d, d);
      ModUnique(x, d, (x - d) / d + 1, (x - d) % d);
    } else {
      ModUnique(x, d, 0, x);
    }
  }

  lemma {:induction false} TimesAdd(a: nat, b: nat, c: nat)
    ensures Times(a + b, c) == Times(a, c) + Times(b, c)
  {
    if b > 0 { TimesAdd(a, b - 1, c); }
  }

  lemma {:induction false} TimesTwice(n: nat, c: nat)
    ensures Times(n, 2 * c) == 2 * Times(n, c)
  {
    if n > 0 { TimesTwice(n - 1, c); }
  }

  lemma TimesOrder(a: nat, b: nat, c: nat)
    requires c > 0
    ensures a <= b <==> Times(a, c) <= Times(b, c)
    ensures a <= b ==> Times(b - a, c) == Times(b, c) - Times(a, c)
    ensures a <= b ==> b - a <= Times(b - a, c)
  {
    if a <= b {
      TimesAdd(a, b - a, c);
      TimesAtLeast(b - a, c);
    } else {
      TimesAdd(b, a - b, c);
      TimesAtLeast(a - b, c);
    }
  }

  lemma {:induction false} TimesAtLeast(n: nat, c: nat)
    requires c > 0
    ensures n <= Times(n, c)
  {
    if n > 0 { TimesAtLeast(n - 1, c); }
  }

  lemma {:induction false} WrapAdd(x: nat, y: nat, m: nat)
    requires m > 0
    ensures Wrap(Wrap(x, m) + y, m) == Wrap(x + y, m)
  {
    if x >= m { WrapAdd(x - m, y, m); }
  }

  lemma WrapSmall(x: nat, m: nat)
    requires x < m
    ensures Wrap(x, m) == x
  {
  }

  lemma {:induction false} WrapLaps(x: nat, m: nat, laps: nat)
    requires m > 0
    ensures Wrap(x + Times(laps, m), m) == Wrap(x, m)
  {
    if laps > 0 { WrapLaps(x, m, laps - 1); }
  }

  lemma {:induction false} WrapSub(x: nat, y: nat, m: nat)
    requires m > 0 && y <= x
    ensures Wrap(x - y, m) == if Wrap(x, m) >= Wrap(y, m) then Wrap(x, m) - Wrap(y, m)
                              else Wrap(x, m) + m - Wrap(y, m)
  {
    if y >= m {
      WrapSub(x - m, y - m, m);
    } else if x >= m && x - y >= m {
      WrapSub(x - m, y, m);
    }
  }

  lemma WrapTimes(x: nat, c: nat, m: nat)
    requires m > 0
    ensures Wrap(Times(Wrap(x, m), c), m) == Wrap(Times(x, c), m)
  {
    WrapIsRemainder(x, m);
    TimesIsProduct(x, c);
    TimesIsProduct(Wrap(x, m), c);
    WrapIsRemainder(Times(x, c), m);
    WrapIsRemainder(Times(Wrap(x, m), c), m);
    ModMul(x, c, m);
  }

  lemma {:induction false} WrapOfMultiple(x: nat, n: nat, q: nat)
    requires n > 0 && q > 0
    ensures Times(q, n) > 0 && Wrap(Wrap(x, Times(q, n)), n) == Wrap(x, n)
  {
    TimesAtLeast(q, n);
    if x >= Times(q, n) {
      WrapOfMultiple(x - Times(q, n), n, q);
      WrapLaps(x - Times(q, n), n, q);
    }
  }

  method WrappingAdd(x: nat, y: nat, m: nat) returns (r: nat)
    requires m > 0
    ensures r == Wrap(x + y, m)
  {
    WrapIsRemainder(x + y, m);
    r := (x + y) % m;
  }

  method WrappingSub(x: nat, y: nat, m: nat) returns (r: nat)
    requires x < m && y < m
    ensures r == if x >= y then x - y else x + m - y
  {
    if x >= y { ModUnique(x - y, m, 0, x - y); } else { ModUnique(x - y, m, -1, x + m - y); }
    r := (x - y) % m;
  }

  method WrappingMul(x: nat, y: nat, m: nat) returns (r: nat)
    requires m > 0
    ensures r == Wrap(Times(x, y), m)
  {
    TimesIsProduct(x, y);
    WrapIsRemainder(Times(x, y), m);
    assert x * y >= 0;
    r := (x * y) % m;
  }

  method Multiply(x: nat, y: nat) returns (r: nat)
    ensures r == Times(x, y)
  {
    TimesIsProduct(x, y);
    r := x * y;
  }

  method Divide(x: nat, d: nat) returns (q: nat)
    requires d > 0
    ensures q == Quotient(x, d)
  {
    QuotientIsDivision(x, d);
    q := x / d;
  }

  // ---- Bitwise operators on naturals ----

  function And(x: nat, y: nat): nat
  {
    if x == 0 || y == 0 then 0
    else 2 * And(x / 2, y / 2) + if x % 2 == 1 && y % 2 == 1 then 1 else 0
  }

  function Or(x: nat, y: nat): nat
    decreases x + y
  {
    if x == 0 then y else if y == 0 then x
    else 2 * Or(x / 2, y / 2) + if x % 2 == 1 || y % 2 == 1 then 1 else 0
  }

  function Xor(x: nat, y: nat): nat
    decreases x + y
  {
    if x == 0 then y else if y == 0 then x
    else 2 * Xor(x / 2, y / 2) + if x % 2 != y % 2 then 1 else 0
  }

  /** `x & (2^k - 1)` is the remainder by `2^k`: the ring's slot mask and the varint's 7-bit mask. */
  lemma {:induction false} AndMask(x: nat, k: nat)
    ensures And(x, Pow2(k) - 1) == x % Pow2(k)
  {
    hide And;
    if k == 0 {
      AndZero(x);
    } else {
      AndMask(x / 2, k - 1);
      AndTwice(x, Pow2(k - 1));
      ModDouble(x, Pow2(k - 1));
    }
  }

  lemma AndZero(x: nat)
    ensures And(x, 0) == 0
  {
  }

  lemma AndTwice(x: nat, p: nat)
    requires p > 0
    ensures And(x, 2 * p - 1) == 2 * And(x / 2, p - 1) + x % 2
  {
    assert (2 * p - 1) / 2 == p - 1;
  }

  /** `t << k`, without a bound on the width. */
  function ShiftLeft(t: nat, k: nat): nat
  {
    if k == 0 then t else 2 * ShiftLeft(t, k - 1)
  }

  lemma {:induction false} ShiftIsProduct(t: nat, k: nat)
    ensures ShiftLeft(t, k) == t * Pow2(k)
  {
    if k > 0 {
      ShiftIsProduct(t, k - 1);
      ProductOfTwice(t, Pow2(k - 1));
    }
  }

  lemma ProductOfTwice(t: nat, p: nat)
    ensures t * (2 * p) == 2 * (t * p)
  {
  }

  /** `|` of a number below `2^k` with a multiple of `2^k` is addition. */
  lemma {:induction false} OrDisjoint(x: nat, t: nat, k: nat)
    requires x < Pow2(k)
    ensures Or(x, ShiftLeft(t, k)) == x + ShiftLeft(t, k)
  {
    if k > 0 { OrDisjoint(x / 2, t, k - 1); }
  }

  lemma {:induction false} XorSelfInverse(x: nat, m: nat)
    ensures Xor(Xor(x, m), m) == x
    decreases x + m
  {
    if x == 0 {
      XorSame(m);
    } else if m > 0 {
      XorSelfInverse(x / 2, m / 2);
      var z := Xor(x, m);
      assert z / 2 == Xor(x / 2, m / 2);
      assert z % 2 == if x % 2 != m % 2 then 1 else 0;
      if z == 0 { assert Xor(0, m / 2) == m / 2; }
    }
  }

  lemma {:induction false} XorCommutes(x: nat, y: nat)
    ensures Xor(x, y) == Xor(y, x)
    decreases x + y
  {
    if x > 0 && y > 0 { XorCommutes(x / 2, y / 2); }
  }

  lemma {:induction false} XorSame(m: nat)
    ensures Xor(m, m) == 0
  {
    if m > 0 { XorSame(m / 2); }
  }

  lemma {:induction false} XorBound(x: nat, y: nat, k: nat)
    requires x < Pow2(k) && y < Pow2(k)
    ensures Xor(x, y) < Pow2(k)
  {
    if k > 0 && x > 0 && y > 0 {
      XorBound(x / 2, y / 2, k - 1);
    }
  }

  /** Exclusive or of two bytes, again a byte. */
  function XorByte(x: u8, y: u8): u8
  {
    assert Pow2(8) == 256;
    XorBound(x, y, 8);
    Xor(x, y)
  }

  // ---- The operators bit by bit ----

  function Bit(x: nat, i: nat): bool { x / Pow2(i) % 2 == 1 }

  /** What `&`, `|` and `^` do to the bit at any place. */
  lemma {:induction false} BitsOf(x: nat, y: nat, i: nat)
    ensures Bit(And(x, y), i) <==> Bit(x, i) && Bit(y, i)
    ensures Bit(Or(x, y), i) <==> Bit(x, i) || Bit(y, i)
    ensures Bit(Xor(x, y), i) <==> Bit(x, i) != Bit(y, i)
  {
    if i == 0 {
      LowestBits(x, y);
    } else {
      hide And, Or, Xor;
      BitsOf(x / 2, y / 2, i - 1);
      Halves(x, y);
      BitOfHalf(x, i);
      BitOfHalf(y, i);
      BitOfHalf(And(x, y), i);
      BitOfHalf(Or(x, y), i);
      BitOfHalf(Xor(x, y), i);
    }
  }

  lemma LowestBits(x: nat, y: nat)
    ensures Bit(And(x, y), 0) <==> Bit(x, 0) && Bit(y, 0)
    ensures Bit(Or(x, y), 0) <==> Bit(x, 0) || Bit(y, 0)
    ensures Bit(Xor(x, y), 0) <==> Bit(x, 0) != Bit(y, 0)
  {
    hide Bit, And, Or, Xor;
    AndUnfolds(x, y);
    OrUnfolds(x, y);
    XorUnfolds(x, y);
    LowestBit(x);
    LowestBit(y);
    LowestBit(And(x, y));
    LowestBit(Or(x, y));
    LowestBit(Xor(x, y));
  }

  lemma LowestBit(x: nat)
    ensures Bit(x, 0) <==> x % 2 == 1
  {
    assert Pow2(0) == 1;
  }

  lemma Halves(x: nat, y: nat)
    ensures And(x, y) / 2 == And(x / 2, y / 2)
    ensures Or(x, y) / 2 == Or(x / 2, y / 2)
    ensures Xor(x, y) / 2 == Xor(x / 2, y / 2)
  {
    hide And, Or, Xor;
    AndUnfolds(x, y);
    OrUnfolds(x, y);
    XorUnfolds(x, y);
  }

  /** Numbers that are put together from a high and a low part are combined part by part. */
  lemma {:induction false} XorOfParts(a: nat, b: nat, x: nat, y: nat, k: nat)
    requires x < Pow2(k) && y < Pow2(k)
    ensures Xor(a * Pow2(k) + x, b * Pow2(k) + y) == Xor(a, b) * Pow2(k) + Xor(x, y)
  {
    hide Xor;
    if k == 0 {
      assert x == 0 && y == 0 && a * Pow2(0) == a && b * Pow2(0) == b;
      assert Xor(0, 0) == 0 by { XorSame(0); }
    } else {
      var p := Pow2(k - 1);
      assert Pow2(k) == 2 * p;
      XorOfParts(a, b, x / 2, y / 2, k - 1);
      hide Pow2;
      HalfOfParts(a, x, p);
      HalfOfParts(b, y, p);
      XorUnfolds(a * (2 * p) + x, b * (2 * p) + y);
      XorUnfolds(x, y);
      ProductOfTwice(Xor(a, b), p);
    }
  }

  lemma HalfOfParts(a: nat, x: nat, p: nat)
    ensures (a * (2 * p) + x) / 2 == a * p + x / 2 && (a * (2 * p) + x) % 2 == x % 2
  {
    ProductOfTwice(a, p);
  }

  lemma AndUnfolds(x: nat, y: nat)
    ensures And(x, y) == 2 * And(x / 2, y / 2) + if x % 2 == 1 && y % 2 == 1 then 1 else 0
  {
  }

  lemma OrUnfolds(x: nat, y: nat)
    ensures Or(x, y) == 2 * Or(x / 2, y / 2) + if x % 2 == 1 || y % 2 == 1 then 1 else 0
  {
  }

  lemma XorUnfolds(x: nat, y: nat)
    ensures Xor(x, y) == 2 * Xor(x / 2, y / 2) + if x % 2 != y % 2 then 1 else 0
  {
  }

  lemma BitOfHalf(x: nat, i: nat)
    requires i > 0
    ensures Bit(x, i) <==> Bit(x / 2, i - 1)
  {
    DivTwice(x, Pow2(i - 1));
  }

  lemma DivTwice(x: nat, p: nat)
    requires p > 0
    ensures x / (2 * p) == x / 2 / p
  {
    var q, r := x / 2 / p, x / 2 % p;
    assert q * (2 * p) == 2 * (q * p);
    ModUnique(x, 2 * p, q, 2 * r + x % 2);
  }

  // ---- Big-endian words ----

  /** Big-endian value of a byte string. */
  function BigEndian(b: seq<u8>): nat
  {
    if b == [] then 0 else BigEndian(b[..|b| - 1]) * 256 + b[|b| - 1]
  }

  /** The first byte is the most significant: the byte at any place is that digit of the value. */
  lemma {:induction false} Digits(b: seq<u8>, i: nat)
    requires i < |b|
    ensures BigEndian(b) / Pow2(8 * (|b| - 1 - i)) % 256 == b[i]
  {
    var n := |b| - 1;
    LastDigit(b);
    hide BigEndian;
    assert Pow2(0) == 1;
    hide Pow2;
    if i < n {
      Digits(b[..n], i);
      OneByteUp(BigEndian(b), n - 1 - i);
    }
  }

  lemma LastDigit(b: seq<u8>)
    requires b != []
    ensures BigEndian(b) / 256 == BigEndian(b[..|b| - 1]) && BigEndian(b) % 256 == b[|b| - 1]
  {
  }

  lemma OneByteUp(x: nat, k: nat)
    ensures x / Pow2(8 * (k + 1)) == x / 256 / Pow2(8 * k)
  {
    Pow2Add(8, 8 * k);
    assert Pow2(8) == 256;
    hide Pow2;
    DivInTwo(x, 256, Pow2(8 * k));
  }

  lemma DivInTwo(x: nat, a: nat, b: nat)
    requires a > 0 && b > 0
    ensures a * b > 0 && x / (a * b) == x / a / b
  {
    var q, r := x / a / b, x / a % b;
    assert x == (q * b + r) * a + x % a;
    assert q * (a * b) == (q * b) * a && (r + 1) * a <= b * a;
    ModUnique(x, a * b, q, r * a + x % a);
  }

  lemma {:induction false} BigEndianInjective(a: seq<u8>, b: seq<u8>)
    requires |a| == |b| && BigEndian(a) == BigEndian(b)
    ensures a == b
  {
    if a != [] {
      BigEndianInjective(a[..|a| - 1], b[..|b| - 1]);
      assert a == a[..|a| - 1] + [a[|a| - 1]];
      assert b == b[..|b| - 1] + [b[|b| - 1]];
    }
  }

  /** The fixed-width conversions are that value, both ways. */
  lemma WordsAreBigEndian(b: seq<u8>, v: u32)
    requires |b| == 4
    ensures BE32(b) == BigEndian(b) && BigEndian(ToBE32(v)) == v && (BigEndian(b) == v <==> b == ToBE32(v))
  {
    hide ToBE32, BigEndian;
    WordIsBigEndian(b);
    WordIsBigEndian(ToBE32(v));
    if BigEndian(b) == v { BigEndianInjective(b, ToBE32(v)); }
  }

  lemma HalfwordsAreBigEndian(b: seq<u8>, v: u16)
    requires |b| == 2
    ensures BE16(b[0], b[1]) == BigEndian(b) && BigEndian(ToBE16(v)) == v && (BigEndian(b) == v <==> b == ToBE16(v))
  {
    HalfwordIsBigEndian(b);
    HalfwordIsBigEndian(ToBE16(v));
    hide BigEndian;
    if BigEndian(b) == v { BigEndianInjective(b, ToBE16(v)); }
  }

  lemma HalfwordIsBigEndian(b: seq<u8>)
    requires |b| == 2
    ensures BigEndian(b) == BE16(b[0], b[1])
  {
    hide BigEndian;
    BigEndianOfByte(b[0]);
    BigEndianSnoc([b[0]], b[1]);
    assert [b[0]] + [b[1]] == b;
  }

  lemma WordIsBigEndian(b: seq<u8>)
    requires |b| == 4
    ensures BigEndian(b) == BE32(b)
  {
    hide BigEndian;
    HalfwordIsBigEndian(b[..2]);
    BigEndianSnoc(b[..2], b[2]);
    BigEndianSnoc(b[..3], b[3]);
    assert b[..2] + [b[2]] == b[..3] && b[..3] + [b[3]] == b;
  }

  lemma BigEndianOfByte(x: u8)
    ensures BigEndian([x]) == x
  {
    assert [x][..0] == [];
  }

  lemma BigEndianSnoc(a: seq<u8>, x: u8)
    ensures BigEndian(a + [x]) == BigEndian(a) * 256 + x
  {
    assert (a + [x])[..|a|] == a;
  }

  function BE16(hi: u8, lo: u8): u16 { hi as int * 256 + lo }

  function BE32(b: seq<u8>): u32
    requires |b| == 4
  {
    var b0: int, b1: int, b2: int := b[0], b[1], b[2];
    ((b0 * 256 + b1) * 256 + b2) * 256 + b[3]
  }

  function ToBE16(v: u16): (b: seq<u8>)
    ensures |b| == 2
  {
    [v / 256, v % 256]
  }

  function ToBE32(v: u32): (b: seq<u8>)
    ensures |b| == 4 && BE32(b) == v
  {
    var a := v / 256;
    var b := a / 256;
    [b / 256, b % 256, a % 256, v % 256]
  }
}
