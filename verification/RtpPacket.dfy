/** Encryption and packet layout of one audio frame. AES itself stays abstract: `block(n, i)` is
    byte `i` of the encryption of the 128-bit counter block `n` under the session key. */
module RtpPacket {
  import opened Words
  import opened Rtcp

  const TWO128: nat := TWO64 * TWO64
  const SAMPLES_PER_FRAME: nat := 480

  datatype Config = Config(ssrc: u32, payloadType: u8, ivMask: seq<u8>, block: (nat, nat) -> u8)
  {
    predicate Valid() { |ivMask| == 16 }
  }

  function Masked(b: seq<u8>, mask: seq<u8>): (r: seq<u8>)
    requires |b| == |mask|
    ensures |r| == |b|
  {
    seq(|b|, i requires 0 <= i < |b| => XorByte(b[i], mask[i]))
  }

  function Zeros(n: nat): (z: seq<u8>)
    ensures |z| == n
  {
    seq(n, i => 0)
  }

  function Nonce(cfg: Config, frameId: u32): seq<u8>
    requires cfg.Valid()
  {
    Masked(Zeros(8) + ToBE32(frameId) + Zeros(4), cfg.ivMask)
  }

  /** The loop that xors the mask into the nonce. */
  method ComputeNonce(cfg: Config, frameId: u32) returns (nonce: seq<u8>)
    requires cfg.Valid()
    ensures nonce == Nonce(cfg, frameId)
  {
    var plain := Zeros(8) + ToBE32(frameId) + Zeros(4);
    nonce := plain;
    var i := 0;
    while i < 16
      invariant 0 <= i <= 16 && |nonce| == 16
      invariant nonce[..i] == Masked(plain, cfg.ivMask)[..i] && nonce[i..] == plain[i..]
    {
      nonce := nonce[i := XorByte(nonce[i], cfg.ivMask[i])];
      i := i + 1;
    }
  }

  /** The counter block of the `k`-th 16-byte block of a frame: 128 bits, big-endian, wrapping. */
  function Counter(cfg: Config, frameId: u32, k: nat): nat
    requires cfg.Valid()
  {
    (BigEndian(Nonce(cfg, frameId)) + k) % TWO128
  }

  function KeyStream(cfg: Config, frameId: u32, i: nat): u8
    requires cfg.Valid()
  {
    cfg.block(Counter(cfg, frameId, i / 16), i % 16)
  }

  function Encrypt(cfg: Config, data: seq<u8>, frameId: u32): (r: seq<u8>)
    requires cfg.Valid()
    ensures |r| == |data|
  {
    seq(|data|, i requires 0 <= i < |data| => XorByte(data[i], KeyStream(cfg, frameId, i)))
  }

  function BuildPacket(cfg: Config, encrypted: seq<u8>, frameId: u32): seq<u8>
  {
    [0x80, 0x80 + cfg.payloadType % 128]
    + ToBE16(frameId % 0x1_0000)
    + ToBE32(frameId * SAMPLES_PER_FRAME % TWO32)
    + ToBE32(cfg.ssrc)
    + [0xC0, frameId % 256] + ToBE16(0) + ToBE16(0) + [frameId % 256]
    + encrypted
  }

  /** The packet of frame `frameId` with the given Opus payload. */
  function PacketOf(cfg: Config, opus: seq<u8>, frameId: u32): seq<u8>
    requires cfg.Valid()
  {
    BuildPacket(cfg, Encrypt(cfg, opus, frameId), frameId)
  }

  // ---- The receiver ----

  /** The receiver's expansion of a low byte: the ID within 128 of its newest, at most 128 behind and
      at most 127 ahead, counting modulo 2^32. */
  function Nearest(newest: u32, low: u8): u32
  {
    var ahead := (low - newest % 256) % 256;
    (newest + if ahead < 128 then ahead else ahead - 256) % TWO32
  }

  predicate Near(newest: u32, id: u32)
  {
    Minus32(newest, id) <= 128 || Minus32(id, newest) <= 127
  }

  /** What a receiver whose newest frame is `newest` makes of a packet. */
  function Recover(cfg: Config, packet: seq<u8>, newest: u32): (u32, seq<u8>)
    requires cfg.Valid() && |packet| >= 19
  {
    var frameId := Nearest(newest, packet[13]);
    (frameId, Encrypt(cfg, packet[19..], frameId))
  }

  /** Which IDs the receiver reads right from their low byte, and from what distance on it takes them
      for another frame. */
  lemma NearestIff(newest: u32, id: u32)
    ensures Nearest(newest, id % 256) == id <==> Near(newest, id)
  {
    var ahead := (id % 256 - newest % 256) % 256;
    LowByteAhead(newest, id);
    if ahead < 128 { NearestAhead(newest, id, ahead); } else { NearestBehind(newest, id, 256 - ahead); }
  }

  lemma LowByteAhead(newest: u32, id: u32)
    ensures Minus32(id, newest) % 256 == (id % 256 - newest % 256) % 256
    ensures id == newest || Minus32(id, newest) + Minus32(newest, id) == TWO32
  {
    ModSub(id, newest, 256);
    ModShift(id - newest, 256, TWO32 / 256);
  }

  lemma NearestAhead(newest: u32, id: u32, ahead: nat)
    requires ahead < 128 && Minus32(id, newest) % 256 == ahead
    requires id == newest || Minus32(id, newest) + Minus32(newest, id) == TWO32
    ensures (newest + ahead) % TWO32 == id <==> Near(newest, id)
  {
  }

  lemma NearestBehind(newest: u32, id: u32, behind: nat)
    requires 0 < behind <= 128 && Minus32(id, newest) % 256 == 256 - behind
    requires id == newest || Minus32(id, newest) + Minus32(newest, id) == TWO32
    ensures (newest - behind) % TWO32 == id <==> Near(newest, id)
  {
  }

  // ---- Counters never repeat ----

  lemma {:induction false} BigEndianBound(b: seq<u8>)
    requires |b| <= 8
    ensures |b| == 4 ==> BigEndian(b) < TWO32
    ensures |b| == 8 ==> BigEndian(b) < TWO64
    ensures BigEndian(b) < Pow2(8 * |b|)
  {
    if b != [] {
      BigEndianBound(b[..|b| - 1]);
      Pow2Add(8 * (|b| - 1), 8);
      assert Pow2(8) == 256;
    }
    if |b| == 4 { Pow2Values(); }
    if |b| == 8 { Pow2Values(); }
  }

  lemma Pow2Values()
    ensures Pow2(32) == TWO32 && Pow2(64) == TWO64
  {
    assert Pow2(8) == 0x100;
    Pow2Add(8, 8);
    assert Pow2(16) == 0x1_0000;
    Pow2Add(16, 16);
    assert Pow2(32) == TWO32;
    Pow2Add(32, 32);
  }

  /** Appending four bytes shifts the number by 32 bits. */
  lemma BigEndianAppend4(a: seq<u8>, b: seq<u8>)
    requires |b| == 4
    ensures BigEndian(a + b) == BigEndian(a) * TWO32 + BigEndian(b)
  {
    BigEndianSnoc(a, b[0]);
    BigEndianSnoc(a + [b[0]], b[1]);
    BigEndianSnoc(a + [b[0]] + [b[1]], b[2]);
    BigEndianSnoc(a + [b[0]] + [b[1]] + [b[2]], b[3]);
    assert a + b == a + [b[0]] + [b[1]] + [b[2]] + [b[3]];
    BigEndianSnoc([], b[0]);
    BigEndianSnoc([] + [b[0]], b[1]);
    BigEndianSnoc([] + [b[0]] + [b[1]], b[2]);
    BigEndianSnoc([] + [b[0]] + [b[1]] + [b[2]], b[3]);
    assert b == [] + [b[0]] + [b[1]] + [b[2]] + [b[3]];
  }

  lemma MaskedInjective(a: seq<u8>, b: seq<u8>, mask: seq<u8>)
    requires |a| == |b| == |mask| && Masked(a, mask) == Masked(b, mask)
    ensures a == b
  {
    forall i | 0 <= i < |a| ensures a[i] == b[i] {
      assert Masked(a, mask)[i] == Masked(b, mask)[i];
      XorSelfInverse(a[i], mask[i]);
      XorSelfInverse(b[i], mask[i]);
    }
  }

  /** A nonce is the mask everywhere but in the four bytes that hold the masked frame ID. */
  lemma NonceNumber(cfg: Config, frameId: u32)
    requires cfg.Valid()
    ensures BigEndian(Nonce(cfg, frameId))
      == (BigEndian(cfg.ivMask[..8]) * TWO32 + BigEndian(Masked(ToBE32(frameId), cfg.ivMask[8..12]))) * TWO32
         + BigEndian(cfg.ivMask[12..])
  {
    var high, middle, low := cfg.ivMask[..8], Masked(ToBE32(frameId), cfg.ivMask[8..12]), cfg.ivMask[12..];
    forall i | 0 <= i < 16 ensures Nonce(cfg, frameId)[i] == (high + middle + low)[i] {
      if i < 8 || i >= 12 { assert Xor(0, cfg.ivMask[i]) == cfg.ivMask[i]; }
    }
    assert Nonce(cfg, frameId) == high + middle + low;
    BigEndianAppend4(high + middle, low);
    BigEndianAppend4(high, middle);
  }

  lemma {:induction false} MaskedIsXor(b: seq<u8>, mask: seq<u8>)
    requires |b| == |mask|
    ensures BigEndian(Masked(b, mask)) == Xor(BigEndian(b), BigEndian(mask))
  {
    if b != [] {
      var n := |b| - 1;
      MaskedIsXor(b[..n], mask[..n]);
      assert Masked(b, mask) == Masked(b[..n], mask[..n]) + [XorByte(b[n], mask[n])];
      BigEndianSnoc(Masked(b[..n], mask[..n]), XorByte(b[n], mask[n]));
      assert Pow2(8) == 256;
      hide Xor, Masked;
      XorOfParts(BigEndian(b[..n]), BigEndian(mask[..n]), b[n], mask[n], 8);
    } else {
      assert Masked(b, mask) == [];
    }
  }

  lemma {:induction false} BigEndianOfZeros(n: nat)
    ensures BigEndian(Zeros(n)) == 0
  {
    if n > 0 {
      BigEndianOfZeros(n - 1);
      assert Zeros(n)[..n - 1] == Zeros(n - 1);
    }
  }

  /** The nonce as a 128-bit number: the IV mask xor the frame ID shifted past the low 32 bits. */
  lemma NonceIsXor(cfg: Config, frameId: u32)
    requires cfg.Valid()
    ensures BigEndian(Nonce(cfg, frameId)) == Xor(frameId * TWO32, BigEndian(cfg.ivMask))
  {
    hide Xor, Masked;
    MaskedIsXor(Zeros(8) + ToBE32(frameId) + Zeros(4), cfg.ivMask);
    BigEndianAppend4(Zeros(8) + ToBE32(frameId), Zeros(4));
    BigEndianAppend4(Zeros(8), ToBE32(frameId));
    BigEndianOfZeros(8);
    BigEndianOfZeros(4);
    WordsAreBigEndian(ToBE32(frameId), frameId);
  }

  /** Every payload byte on the wire: byte `i` is encrypted under byte `i % 16` of the block whose
      counter is the nonce of this very frame plus `i / 16`, modulo 2^128. */
  lemma PayloadOnWire(cfg: Config, opus: seq<u8>, frameId: u32, i: nat)
    requires cfg.Valid() && i < |opus|
    ensures var p := PacketOf(cfg, opus, frameId);
      && |p| == 19 + |opus|
      && p[19 + i] == XorByte(opus[i],
           cfg.block((Xor(frameId * TWO32, BigEndian(cfg.ivMask)) + i / 16) % TWO128, i % 16))
  {
    hide Xor;
    NonceIsXor(cfg, frameId);
    assert PacketOf(cfg, opus, frameId)[19..] == Encrypt(cfg, opus, frameId);
  }

  /** What a byte on the wire gives away of the keystream to one who knows the payload. */
  function Exposed(cfg: Config, opus: seq<u8>, frameId: u32, i: nat): u8
    requires cfg.Valid() && i < |opus|
  {
    PayloadOnWire(cfg, opus, frameId, i);
    XorByte(PacketOf(cfg, opus, frameId)[19 + i], opus[i])
  }

  lemma ExposedIs(cfg: Config, opus: seq<u8>, frameId: u32, i: nat)
    requires cfg.Valid() && i < |opus|
    ensures Exposed(cfg, opus, frameId, i) == cfg.block(Counter(cfg, frameId, i / 16), i % 16)
  {
    PayloadOnWire(cfg, opus, frameId, i);
    NonceIsXor(cfg, frameId);
    var k := cfg.block(Counter(cfg, frameId, i / 16), i % 16);
    XorCancels(opus[i], k);
  }

  lemma XorCancels(x: u8, k: u8)
    ensures XorByte(XorByte(x, k), x) == k
  {
    XorCommutes(x, k);
    XorSelfInverse(k, x);
  }

  /** Two payload bytes are under the same keystream byte, whatever the key, if and only if they are
      at the same place of frames with the same ID. */
  lemma StreamsMeetIff(cfg: Config, p: seq<u8>, f: u32, i: nat, q: seq<u8>, g: u32, j: nat)
    requires cfg.Valid() && i < |p| && j < |q| && i < 16 * TWO32 && j < 16 * TWO32
    ensures (forall block :: Exposed(cfg.(block := block), p, f, i) == Exposed(cfg.(block := block), q, g, j))
      <==> f == g && i == j
  {
    hide Exposed, Nonce;
    if f == g && i == j {
      forall block ensures Exposed(cfg.(block := block), p, f, i) == Exposed(cfg.(block := block), q, g, j) {
        ExposedIs(cfg.(block := block), p, f, i);
        ExposedIs(cfg.(block := block), q, g, j);
      }
    } else if forall block :: Exposed(cfg.(block := block), p, f, i) == Exposed(cfg.(block := block), q, g, j) {
      var marked := (n: nat, k: nat) => if n == Counter(cfg, f, i / 16) && k == i % 16 then 1 as u8 else 0;
      ExposedIs(cfg.(block := marked), p, f, i);
      ExposedIs(cfg.(block := marked), q, g, j);
      SameCounters(cfg, marked, f, i / 16);
      SameCounters(cfg, marked, g, j / 16);
      CountersDistinct(cfg, f, i / 16, g, j / 16);
      assert false;
    }
  }

  lemma SameCounters(cfg: Config, block: (nat, nat) -> u8, f: u32, k: nat)
    requires cfg.Valid()
    ensures Counter(cfg.(block := block), f, k) == Counter(cfg, f, k)
  {
  }

  /** Distinct (frame, block) pairs use distinct counters under any mask, also where the 128-bit
      counter wraps, as long as no frame exceeds 2^32 blocks. */
  lemma CountersDistinct(cfg: Config, f: u32, j: nat, g: u32, k: nat)
    requires cfg.Valid() && j < TWO32 && k < TWO32
    requires Counter(cfg, f, j) == Counter(cfg, g, k)
    ensures f == g && j == k
  {
    var mask := cfg.ivMask[8..12];
    var x, y := BigEndian(Masked(ToBE32(f), mask)), BigEndian(Masked(ToBE32(g), mask));
    NonceNumber(cfg, f);
    NonceNumber(cfg, g);
    BigEndianBound(Masked(ToBE32(f), mask));
    BigEndianBound(Masked(ToBE32(g), mask));
    BigEndianBound(cfg.ivMask[..8]);
    BigEndianBound(cfg.ivMask[12..]);
    SameCounter(BigEndian(cfg.ivMask[..8]), x, y, BigEndian(cfg.ivMask[12..]), j, k);
    BigEndianInjective(Masked(ToBE32(f), mask), Masked(ToBE32(g), mask));
    MaskedInjective(ToBE32(f), ToBE32(g), mask);
    assert BE32(ToBE32(f)) == BE32(ToBE32(g));
  }

  lemma SameCounter(high: nat, x: nat, y: nat, low: nat, j: nat, k: nat)
    requires high < TWO64 && x < TWO32 && y < TWO32 && low < TWO32 && j < TWO32 && k < TWO32
    requires ((high * TWO32 + x) * TWO32 + low + j) % TWO128 == ((high * TWO32 + y) * TWO32 + low + k) % TWO128
    ensures x == y && j == k
  {
  }

  // ---- The receiver gets the frame back ----

  lemma EncryptTwice(cfg: Config, data: seq<u8>, frameId: u32)
    requires cfg.Valid()
    ensures Encrypt(cfg, Encrypt(cfg, data, frameId), frameId) == data
  {
    forall i | 0 <= i < |data| ensures Encrypt(cfg, Encrypt(cfg, data, frameId), frameId)[i] == data[i] {
      XorSelfInverse(data[i], KeyStream(cfg, frameId, i));
    }
  }

  /** A packet names its stream, its frame and its place in time; and a receiver recovers frame ID
      and payload from it if and only if the frame is within 128 of its newest. */
  lemma PacketRecovers(cfg: Config, opus: seq<u8>, frameId: u32, newest: u32)
    requires cfg.Valid()
    ensures var p := PacketOf(cfg, opus, frameId);
      && |p| == 19 + |opus|
      && (Recover(cfg, p, newest) == (frameId, opus) <==> Near(newest, frameId))
      && (Recover(cfg, p, newest).0 == frameId <==> Near(newest, frameId))
      && BE16(p[2], p[3]) == frameId % 0x1_0000
      && BE32(p[4..8]) == frameId * 480 % TWO32
      && BE32(p[8..12]) == cfg.ssrc
      && p[13] == p[18]
      && p[0] == 0x80 && p[1] == 0x80 + cfg.payloadType % 128 && p[12] == 0xC0
      && p[14..18] == [0, 0, 0, 0]
  {
    hide Near, Nearest, Encrypt;
    var p := PacketOf(cfg, opus, frameId);
    assert p[4..8] == ToBE32(frameId * SAMPLES_PER_FRAME % TWO32);
    assert p[8..12] == ToBE32(cfg.ssrc);
    assert p[14..18] == ToBE16(0) + ToBE16(0);
    assert p[19..] == Encrypt(cfg, opus, frameId);
    NearestIff(newest, frameId);
    EncryptTwice(cfg, opus, frameId);
  }
}
