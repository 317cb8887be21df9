/** Base-128 varints as the hand-written protobuf code prints and reads them. */
module Varints {
  import opened Words

  /** The least significant seven bits first; every byte but the last has its top bit set. */
  function Varint(v: nat): (bytes: seq<u8>)
    ensures |bytes| > 0
  {
    if v < 0x80 then [v] else [v % 128 + 128] + Varint(v / 128)
  }

  /** Value of the low seven bits of each byte, least significant first. */
  function Sum(bytes: seq<u8>): nat
  {
    if bytes == [] then 0 else bytes[0] % 128 + 128 * Sum(bytes[1..])
  }

  /** Index of the first byte without its top bit, from `k` on and among the first ten. */
  function Terminator(data: seq<u8>, k: nat): (t: Option<nat>)
    ensures t.Some? ==> k <= t.value < |data| && t.value < 10 && data[t.value] < 128
    ensures t.Some? ==> forall i :: k <= i < t.value ==> data[i] >= 128
    ensures t.None? ==> forall i :: k <= i < |data| && i < 10 ==> data[i] >= 128
    decreases 10 - k
  {
    if k >= 10 || k >= |data| then None
    else if data[k] < 128 then Some(k)
    else Terminator(data, k + 1)
  }

  /** Reading succeeds exactly when a terminating byte is among the first ten there are. The value
      is what the bytes spell, modulo 2^64: excess bits of a tenth byte are dropped. */
  function ReadVarint(data: seq<u8>): (r: Option<(u64, nat)>)
    ensures r.Some? ==> 0 < r.value.1 <= |data| && r.value.1 <= 10
  {
    match Terminator(data, 0)
    case None => None
    case Some(t) => Some((Sum(data[..t + 1]) % TWO64, t + 1))
  }

  // ---- The loops ----

  lemma LowBits(v: nat)
    ensures And(v, 0x7F) == v % 128
  {
    Pow2Of7();
    AndMask(v, 7);
  }

  lemma Pow2Of7()
    ensures Pow2(7) == 128
  {
    assert Pow2(3) == 8;
    assert Pow2(5) == 32;
  }

  lemma TopBit(b: nat)
    requires b < 128
    ensures Or(b, 0x80) == b + 128
  {
    Pow2Of7();
    OrDisjoint(b, 1, 7);
    ShiftIsProduct(1, 7);
  }

  method WriteVarint(buf: seq<u8>, value: u64) returns (out: seq<u8>)
    ensures out == buf + Varint(value)
  {
    out := buf;
    var v: nat := value;
    while v >= 0x80
      invariant out + Varint(v) == buf + Varint(value)
    {
      LowBits(v);
      TopBit(v % 128);
      assert out + Varint(v) == (out + [v % 128 + 128]) + Varint(v / 128);
      out := out + [Or(And(v, 0x7F), 0x80)];
      v := v / 128;
    }
    out := out + [v];
  }

  lemma {:induction false} SumSnoc(bytes: seq<u8>, b: u8)
    ensures Sum(bytes + [b]) == Sum(bytes) + (b % 128) * Pow2(7 * |bytes|)
  {
    if bytes == [] {
      assert [b][1..] == [];
    } else {
      SumSnoc(bytes[1..], b);
      assert (bytes + [b])[1..] == bytes[1..] + [b];
      Pow2Of7();
      Pow2Add(7, 7 * (|bytes| - 1));
      var p := Pow2(7 * (|bytes| - 1));
      assert 128 * ((b % 128) * p) == (b % 128) * (128 * p);
    }
  }

  lemma {:induction false} SumBound(bytes: seq<u8>)
    ensures Sum(bytes) < Pow2(7 * |bytes|)
  {
    if bytes != [] {
      SumBound(bytes[1..]);
      Pow2Of7();
      Pow2Add(7, 7 * (|bytes| - 1));
    }
  }

  /** `result |= (b & 0x7F) << shift` on 64 bits: addition modulo 2^64, since `result` is below
      `2^shift`. Only at the tenth byte can bits be lost. */
  lemma OrShifted(result: nat, b: u8, shift: nat)
    requires shift <= 63 && result < Pow2(shift)
    requires shift % 7 == 0
    ensures Or(result, (b % 128) * Pow2(shift) % TWO64) == (result + (b % 128) * Pow2(shift)) % TWO64
  {
    var x, p := b % 128, Pow2(shift);
    Pow2Add(shift, 64 - shift);
    Pow2Of64();
    if shift < 63 {
      Pow2AtMost(7, 64 - shift);
      Pow2Of7();
      FitsBelow(result, x, p, Pow2(64 - shift));
      OrDisjoint(result, x, shift);
      ShiftIsProduct(x, shift);
      SmallMod(x * p);
      SmallMod(result + x * p);
    } else {
      assert Pow2(1) == 2;
      KeepsLowBit(result, x, p);
      OrDisjoint(result, x % 2, shift);
      ShiftIsProduct(x % 2, shift);
    }
  }

  lemma FitsBelow(result: nat, x: nat, p: nat, q: nat)
    requires result < p && x <= 127 && q >= 128
    ensures 0 <= x * p && result + x * p < p * q
  {
    Monotone(x + 1, 128, p);
    Monotone(128, q, p);
    OneMoreTime(x, p);
  }

  lemma OneMoreTime(x: nat, p: nat)
    ensures (x + 1) * p == x * p + p && 0 <= x * p
  {
  }

  lemma Monotone(a: nat, b: nat, c: nat)
    requires a <= b
    ensures 0 <= a * c <= b * c
  {
  }

  lemma SmallMod(x: nat)
    requires x < TWO64
    ensures x % TWO64 == x
  {
  }

  lemma KeepsLowBit(result: nat, x: nat, p: nat)
    requires result < p && p * 2 == TWO64
    ensures (x * p) % TWO64 == (x % 2) * p
    ensures (result + x * p) % TWO64 == result + (x % 2) * p
  {
  }

  lemma Pow2Of64()
    ensures Pow2(64) == TWO64
  {
    assert Pow2(4) == 0x10;
    hide Pow2;
    Pow2Add(4, 4);
    Pow2Add(8, 8);
    Pow2Add(16, 16);
    Pow2Add(32, 32);
  }

  lemma {:induction false} Pow2AtMost(j: nat, k: nat)
    requires j <= k
    ensures Pow2(j) <= Pow2(k)
  {
    if j < k { Pow2AtMost(j, k - 1); }
  }

  lemma {:induction false} TerminatorSkips(data: seq<u8>, k: nat)
    requires k <= |data| && k <= 10 && forall i :: 0 <= i < k ==> data[i] >= 128
    ensures Terminator(data, 0) == Terminator(data, k)
  {
    if k > 0 { TerminatorSkips(data, k - 1); }
  }

  /** Reading stops at the first byte without its top bit, and fails at the end or after ten. */
  lemma ReadOutcome(data: seq<u8>, k: nat)
    requires k <= 10 && k <= |data| && forall i :: 0 <= i < k ==> data[i] >= 128
    ensures k < 10 && k < |data| && data[k] < 128 ==>
      ReadVarint(data) == Some((Sum(data[..k + 1]) % TWO64, k + 1))
    ensures k == 10 || k == |data| ==> ReadVarint(data) == None
  {
    TerminatorSkips(data, k);
  }

  method Read(data: seq<u8>, start: nat) returns (r: Option<u64>, pos: nat)
    requires start <= |data|
    ensures match ReadVarint(data[start..])
      case None => r == None
      case Some((v, n)) => r == Some(v) && pos == start + n
  {
    hide Or, And, Pow2, Sum, ReadVarint;
    NoBytes();
    var result: u64 := 0;
    var shift := 0;
    pos := start;
    ghost var rest := data[start..];
    ghost var k := 0;
    while true
      invariant k < 10 && shift == 7 * k && pos == start + k <= |data|
      invariant forall i :: 0 <= i < k ==> rest[i] >= 128
      invariant result == Sum(rest[..k])
      decreases 10 - k
    {
      ReadOutcome(rest, k);
      if pos >= |data| {
        return None, pos;
      }
      var b := data[pos];
      assert b == rest[k] && rest[..k + 1] == rest[..k] + [b];
      pos := pos + 1;
      LowBits(b);
      OneMoreByte(rest[..k], b);
      result := Or(result, And(b, 0x7F) * Pow2(shift) % TWO64);
      if b < 128 {
        return Some(result), pos;
      }
      shift := shift + 7;
      k := k + 1;
      if shift >= 64 {
        ReadOutcome(rest, k);
        return None, pos;
      }
    }
  }

  lemma NoBytes()
    ensures Sum([]) == 0
  {
  }

  /** Folding in the next byte: what `|=` and `<<` compute is the value so far, modulo 2^64. */
  lemma OneMoreByte(bytes: seq<u8>, b: u8)
    requires |bytes| < 10
    ensures Or(Sum(bytes), (b % 128) * Pow2(7 * |bytes|) % TWO64) == Sum(bytes + [b]) % TWO64
    ensures |bytes| < 9 ==> Sum(bytes + [b]) < TWO64
  {
    hide Or, Sum;
    hide Pow2;
    SumSnoc(bytes, b);
    SumBound(bytes);
    OrShifted(Sum(bytes), b, 7 * |bytes|);
    SumBound(bytes + [b]);
    if |bytes| < 9 {
      Pow2AtMost(7 * |bytes + [b]|, 63);
      Pow2Of64();
      Pow2Of63();
    }
  }

  lemma Pow2Of63()
    ensures Pow2(64) == 2 * Pow2(63)
  {
  }

  // ---- Round trip and minimality ----

  lemma {:induction false} VarintShape(v: nat)
    ensures Sum(Varint(v)) == v
    ensures Varint(v)[|Varint(v)| - 1] < 128
    ensures forall i :: 0 <= i < |Varint(v)| - 1 ==> Varint(v)[i] >= 128
  {
    if v >= 0x80 {
      VarintShape(v / 128);
      assert Varint(v)[1..] == Varint(v / 128);
    } else {
      assert Varint(v)[1..] == [];
    }
  }

  lemma {:induction false} VarintLength(v: nat, n: nat)
    requires n > 0 && v < Pow2(7 * n)
    ensures |Varint(v)| <= n
  {
    if v >= 0x80 {
      Pow2Of7();
      assert n > 1;
      Pow2Add(7, 7 * (n - 1));
      assert v / 128 < Pow2(7 * (n - 1));
      VarintLength(v / 128, n - 1);
    }
  }

  /** A written varint reads back as the same value and position, whatever follows it. */
  lemma VarintRoundTrip(v: u64, rest: seq<u8>)
    ensures ReadVarint(Varint(v) + rest) == Some((v, |Varint(v)|))
  {
    hide Varint, Sum, Pow2;
    var bytes := Varint(v);
    var data := bytes + rest;
    VarintShape(v);
    Pow2Of64();
    Pow2AtMost(64, 70);
    VarintLength(v, 10);
    var t := |bytes| - 1;
    forall i | 0 <= i < t ensures data[i] >= 128 { assert data[i] == bytes[i]; }
    TerminatorSkips(data, t);
    assert data[t] == bytes[t];
    assert data[..t + 1] == bytes;
  }

  /** The written form is minimal: no byte string that reads as `v` is shorter. */
  lemma VarintMinimal(data: seq<u8>, v: u64, n: nat)
    requires ReadVarint(data) == Some((v, n))
    ensures 1 <= |Varint(v)| <= n <= 10
  {
    hide Varint, Sum, Pow2;
    Pow2Of64();
    SumBound(data[..n]);
    if n < 10 {
      Pow2AtMost(7 * n, 64);
      VarintLength(v, n);
    } else {
      Pow2AtMost(64, 70);
      VarintLength(v, 10);
    }
  }

  /** Bytes after a varint do not matter to reading it. */
  lemma ReadPrefix(a: seq<u8>, b: seq<u8>)
    requires ReadVarint(a).Some?
    ensures ReadVarint(a + b) == ReadVarint(a)
  {
    var t := Terminator(a, 0).value;
    forall i | 0 <= i < t ensures (a + b)[i] >= 128 { assert (a + b)[i] == a[i]; }
    TerminatorSkips(a + b, t);
    assert (a + b)[..t + 1] == a[..t + 1];
  }

  /** When reading returns what the bytes spell: always, unless ten bytes are read and the tenth
      has a bit beyond its lowest, which is beyond the 64th of the value and dropped. */
  lemma ReadIsExactIff(data: seq<u8>)
    requires ReadVarint(data).Some?
    ensures var (v, n) := ReadVarint(data).value;
      v == Sum(data[..n]) <==> n < 10 || data[9] < 2
  {
    hide Sum, Pow2;
    var (v, n) := ReadVarint(data).value;
    SumBound(data[..n]);
    Pow2Of64();
    Pow2Of63();
    if n < 10 {
      Pow2AtMost(7 * n, 63);
    } else {
      assert data[..10] == data[..9] + [data[9]];
      SumSnoc(data[..9], data[9]);
      SumBound(data[..9]);
      TenthBit(Sum(data[..9]), data[9], Pow2(63));
    }
  }

  lemma TenthBit(low: nat, b: u8, half: nat)
    requires low < half && 2 * half == TWO64
    ensures low + b * half < TWO64 <==> b < 2
  {
    assert b >= 2 ==> b * half >= 2 * half;
  }

  /** So two encodings of ten bytes that differ in a dropped bit read the same. */
  lemma TenthByteTruncates()
    ensures ReadVarint(NineEmpty() + [2]) == ReadVarint(NineEmpty() + [0]) == Some((0, 10))
  {
    hide ReadVarint, Pow2;
    TenthByte(0);
    TenthByte(2);
    Pow2Of64();
    Pow2Of63();
  }

  function NineEmpty(): seq<u8> { [128, 128, 128, 128, 128, 128, 128, 128, 128] }

  lemma TenthByte(b: u8)
    requires b < 128
    ensures ReadVarint(NineEmpty() + [b]) == Some((b * Pow2(63) % TWO64, 10))
  {
    hide Pow2, Sum, ReadVarint;
    var data := NineEmpty() + [b];
    ReadOutcome(data, 9);
    assert data[..10] == data && b % 128 == b;
    SumSnoc(NineEmpty(), b);
    ZeroSum(NineEmpty());
  }

  lemma {:induction false} ZeroSum(zeros: seq<u8>)
    requires forall i :: 0 <= i < |zeros| ==> zeros[i] == 128
    ensures Sum(zeros) == 0
  {
    if zeros != [] { ZeroSum(zeros[1..]); }
  }
}
