/** Receiver feedback: expansion of 8-bit frame IDs, and the compound-RTCP parser that turns a
    datagram of an unauthenticated peer into the list of frames to resend. */
module Rtcp {
  import opened Words

  const PAYLOAD_SPECIFIC: u8 := 206
  const CAST_FEEDBACK: u8 := 15
  const CAST_MAGIC: u32 := 0x4341_5354
  const ALL_PACKETS_LOST: u16 := 0xFFFF

  // ---- Expansion of truncated frame IDs ----

  function ExpandLe(max: u32, truncated: u8): u32
  {
    (max - (max % 256 - truncated) % 256) % TWO32
  }

  /** `a - b` counting modulo 2^32. */
  function Minus32(a: u32, b: u32): (d: u32)
    ensures d == (a - b) % TWO32
  {
    if a >= b then a - b else a - b + TWO32
  }

  /** `ExpandLe` finds the one ID with the given low byte among the 256 ending at `max`, counting
      modulo 2^32. */
  lemma ExpandLeUnique(max: u32, truncated: u8, id: u32)
    ensures id == ExpandLe(max, truncated) <==> Minus32(max, id) < 256 && id % 256 == truncated
  {
    hide ExpandLe, Minus32;
    var d := (max % 256 - truncated) % 256;
    ExpandLeIs(max, truncated);
    MinusBack(max, id);
    LowByte(max, d);
    if Minus32(max, id) < 256 { LowByte(max, Minus32(max, id)); }
    SameByte(max % 256, truncated, Minus32(max, id));
  }

  lemma ExpandLeIs(max: u32, truncated: u8)
    ensures ExpandLe(max, truncated) == Minus32(max, (max % 256 - truncated) % 256)
  {
  }

  lemma SameByte(top: u8, low: u8, d: nat)
    ensures (top - (top - low) % 256) % 256 == low
    ensures d < 256 && (top - d) % 256 == low ==> d == (top - low) % 256
  {
  }

  lemma MinusBack(a: u32, b: u32)
    ensures Minus32(a, Minus32(a, b)) == b
  {
  }

  lemma LowByte(max: u32, d: nat)
    requires d < 256
    ensures Minus32(max, d) % 256 == (max % 256 - d) % 256
    ensures Minus32(max, Minus32(max, d)) == d
  {
    if max < d { assert (max - d + TWO32) % 256 == (max - d) % 256; }
  }

  /** A checkpoint at most 255 behind the newest frame and a loss at most 256 past the checkpoint
      survive truncation to 8 bits, also across the 32-bit wrap. */
  lemma ExpansionRoundTrip(lastSent: u32, checkpoint: u32, lost: u32)
    requires Minus32(lastSent, checkpoint) < 256
    requires 1 <= Minus32(lost, checkpoint) <= 256
    ensures ExpandLe(lastSent, checkpoint % 256) == checkpoint
    ensures ExpandLe((checkpoint + 256) % TWO32, lost % 256) == lost
  {
    ExpandLeUnique(lastSent, checkpoint % 256, checkpoint);
    PastCheckpoint(checkpoint, lost);
    ExpandLeUnique((checkpoint + 256) % TWO32, lost % 256, lost);
  }

  lemma PastCheckpoint(checkpoint: u32, lost: u32)
    ensures 1 <= Minus32(lost, checkpoint) <= 256
      <==> Minus32((checkpoint + 256) % TWO32, lost) < 256
  {
    var top: u32 := if checkpoint + 256 < TWO32 then checkpoint + 256 else checkpoint + 256 - TWO32;
    assert top == (checkpoint + 256) % TWO32;
  }

  // ---- The compound packet ----

  datatype Block = Block(fmt: nat, pt: u8, payload: seq<u8>)

  /** The first block of a compound packet and the bytes after it. */
  function FirstBlock(buf: seq<u8>): (r: Option<(Block, seq<u8>)>)
    ensures r.Some? ==> |r.value.1| < |buf|
  {
    if |buf| < 4 || buf[0] / 32 != 4 then None else
      var length := BE16(buf[2], buf[3]) * 4;
      if 4 + length > |buf| then None
      else Some((Block(buf[0] % 32, buf[1], buf[4..4 + length]), buf[4 + length..]))
  }

  function Blocks(buf: seq<u8>): Option<seq<Block>>
    decreases |buf|
  {
    if buf == [] then Some([]) else
      match FirstBlock(buf)
      case None => None
      case Some((b, rest)) =>
        match Blocks(rest)
        case None => None
        case Some(bs) => Some([b] + bs)
  }

  // ---- The compound packet as it is printed ----

  /** What the header of a block has room for. */
  predicate Printable(b: Block)
  {
    b.fmt < 32 && |b.payload| % 4 == 0 && |b.payload| / 4 < 0x1_0000
  }

  function PrintBlock(b: Block): seq<u8>
  {
    [0x80 + b.fmt % 32, b.pt] + ToBE16(|b.payload| / 4 % 0x1_0000) + b.payload
  }

  function Print(bs: seq<Block>): seq<u8>
  {
    if bs == [] then [] else PrintBlock(bs[0]) + Print(bs[1..])
  }

  ghost predicate AllPrintable(bs: seq<Block>)
  {
    forall b :: b in bs ==> Printable(b)
  }

  /** The compound packets that split are exactly the printed lists of blocks, of any types and
      lengths, and they split into just those blocks. */
  lemma {:induction false} BlocksIff(buf: seq<u8>, bs: seq<Block>)
    ensures Blocks(buf) == Some(bs) <==> AllPrintable(bs) && buf == Print(bs)
    decreases |buf|
  {
    hide FirstBlock, PrintBlock, Printable;
    if buf == [] {
      if bs != [] { PrintedFirst(bs[0], Print(bs[1..])); }
    } else if bs == [] {
      BlocksFirst(buf);
    } else {
      BlocksFirst(buf);
      var (b, rest) := (bs[0], Print(bs[1..]));
      FirstBlockIff(buf, b, rest);
      if FirstBlock(buf).Some? {
        var (c, after) := FirstBlock(buf).value;
        FirstBlockIff(buf, c, after);
        BlocksIff(after, bs[1..]);
        assert bs == [b] + bs[1..];
        AllPrintableCons(b, bs[1..]);
        if Blocks(after).Some? { BlocksIff(after, Blocks(after).value); }
      }
    }
  }

  lemma AllPrintableCons(b: Block, bs: seq<Block>)
    ensures AllPrintable([b] + bs) <==> Printable(b) && AllPrintable(bs)
  {
    hide Printable;
    var all := [b] + bs;
    assert b in all && forall c :: c in bs ==> c in all;
  }

  lemma PrintedFirst(b: Block, rest: seq<u8>)
    ensures |PrintBlock(b) + rest| >= 4
  {
  }

  lemma FirstBlockIff(buf: seq<u8>, b: Block, rest: seq<u8>)
    ensures FirstBlock(buf) == Some((b, rest)) <==> Printable(b) && buf == PrintBlock(b) + rest
  {
    if Printable(b) && buf == PrintBlock(b) + rest {
      FirstOfPrinted(b, rest);
    } else if FirstBlock(buf) == Some((b, rest)) {
      PrintOfFirst(buf);
    }
  }

  lemma FirstOfPrinted(b: Block, rest: seq<u8>)
    requires Printable(b)
    ensures FirstBlock(PrintBlock(b) + rest) == Some((b, rest))
  {
    hide BE16, ToBE16;
    var n: u16 := |b.payload| / 4;
    HalfwordsAreBigEndian(ToBE16(n), n);
    Pieces(0x80 + b.fmt, b.pt, ToBE16(n), b.payload, rest);
    FirstByte(b.fmt);
  }

  lemma Pieces(first: u8, second: u8, length: seq<u8>, payload: seq<u8>, rest: seq<u8>)
    requires |length| == 2
    ensures var buf := [first, second] + length + payload + rest;
      && |buf| == 4 + |payload| + |rest| && buf[0] == first && buf[1] == second && buf[2..4] == length
      && buf[2] == length[0] && buf[3] == length[1]
      && buf[4..4 + |payload|] == payload && buf[4 + |payload|..] == rest
  {
  }

  lemma FirstByte(fmt: nat)
    requires fmt < 32
    ensures (0x80 + fmt) / 32 == 4 && (0x80 + fmt) % 32 == fmt == fmt % 32
  {
  }

  lemma PrintOfFirst(buf: seq<u8>)
    requires FirstBlock(buf).Some?
    ensures var (b, rest) := FirstBlock(buf).value;
      Printable(b) && buf == PrintBlock(b) + rest
  {
    hide BE16, ToBE16, PrintBlock;
    var n: nat := BE16(buf[2], buf[3]);
    Cut(buf, 4 * n);
    HeaderPrints(buf[0], buf[1], [buf[2], buf[3]], n, buf[4..4 + 4 * n]);
  }

  lemma HeaderPrints(first: u8, pt: u8, length: seq<u8>, n: u16, payload: seq<u8>)
    requires first / 32 == 4 && |length| == 2 && BE16(length[0], length[1]) == n && |payload| == 4 * (n as int)
    ensures PrintBlock(Block(first % 32, pt, payload)) == [first, pt] + length + payload
  {
    hide BE16, ToBE16;
    HalfwordsAreBigEndian(length, n);
  }

  lemma Cut(buf: seq<u8>, n: nat)
    requires 4 + n <= |buf|
    ensures buf == [buf[0], buf[1]] + [buf[2], buf[3]] + buf[4..4 + n] + buf[4 + n..]
  {
  }

  // ---- Which feedback acts ----

  predicate IsFeedback(b: Block) { b.pt == PAYLOAD_SPECIFIC && b.fmt == CAST_FEEDBACK }

  predicate ForUs(b: Block, ssrc: u32)
  {
    IsFeedback(b) && |b.payload| >= 16 && BE32(b.payload[4..8]) == ssrc
  }

  /** Too short for a feedback header, or ours without the CAST magic. */
  predicate BadHeader(b: Block, ssrc: u32)
  {
    IsFeedback(b) && (|b.payload| < 16 || (ForUs(b, ssrc) && BE32(b.payload[8..12]) != CAST_MAGIC))
  }

  predicate Overstated(b: Block)
  {
    |b.payload| < 16 || 16 + b.payload[13] as int * 4 > |b.payload|
  }

  /** How far the checkpoint lies behind the newest frame sent. */
  function Age(b: Block, lastSent: u32): nat
  {
    if |b.payload| < 16 then 0 else (lastSent % 256 - b.payload[12]) % 256
  }

  function Checkpoint(b: Block, lastSent: u32): u32
    requires |b.payload| >= 16
  {
    ExpandLe(lastSent, b.payload[12])
  }

  /** The frames that the first `n` loss fields report as wholly lost: packet 0, or all. */
  function Losses(b: Block, lastSent: u32, n: nat): seq<u32>
    requires |b.payload| >= 16 + 4 * n
  {
    if n == 0 then [] else
      var at := 16 + 4 * (n - 1);
      var frame := ExpandLe((Checkpoint(b, lastSent) + 256) % TWO32, b.payload[at]);
      var packet := BE16(b.payload[at + 1], b.payload[at + 2]);
      Losses(b, lastSent, n - 1)
      + if packet == 0 || packet == ALL_PACKETS_LOST then [frame] else []
  }

  /** Among the first `n` blocks, the feedback for us that acts: the youngest checkpoint, and the
      last of those. */
  function Acting(bs: seq<Block>, ssrc: u32, lastSent: u32, n: nat): (r: Option<nat>)
    requires n <= |bs|
    ensures r.Some? ==> r.value < n && ForUs(bs[r.value], ssrc)
  {
    if n == 0 then None else
      var before := Acting(bs, ssrc, lastSent, n - 1);
      if ForUs(bs[n - 1], ssrc)
         && (before.None? || Age(bs[n - 1], lastSent) <= Age(bs[before.value], lastSent))
      then Some(n - 1) else before
  }

  /** Block `i` makes the whole compound void. The loss fields of a feedback are only looked at
      if no earlier feedback is younger. */
  predicate Voids(bs: seq<Block>, ssrc: u32, lastSent: u32, i: nat)
    requires i < |bs|
  {
    || BadHeader(bs[i], ssrc)
    || (Acting(bs, ssrc, lastSent, i + 1) == Some(i) && Overstated(bs[i]))
  }

  predicate Void(bs: seq<Block>, ssrc: u32, lastSent: u32, n: nat)
    requires n <= |bs|
  {
    exists i :: 0 <= i < n && Voids(bs, ssrc, lastSent, i)
  }

  function NackedFrames(buf: seq<u8>, ssrc: u32, lastSent: u32): seq<u32>
  {
    match Blocks(buf)
    case None => []
    case Some(bs) =>
      var acting := Acting(bs, ssrc, lastSent, |bs|);
      if Void(bs, ssrc, lastSent, |bs|) || acting.None? || Overstated(bs[acting.value]) then []
      else
        var b := bs[acting.value];
        Losses(b, lastSent, b.payload[13])
  }

  // ---- What these definitions mean ----

  lemma {:induction false} ActingIsYoungestLast(bs: seq<Block>, ssrc: u32, lastSent: u32, n: nat, i: nat)
    requires n <= |bs|
    ensures Acting(bs, ssrc, lastSent, n) == Some(i) <==>
      && i < n && ForUs(bs[i], ssrc)
      && (forall j :: 0 <= j < n && ForUs(bs[j], ssrc) ==> Age(bs[i], lastSent) <= Age(bs[j], lastSent))
      && (forall j :: i < j < n && ForUs(bs[j], ssrc) ==> Age(bs[i], lastSent) < Age(bs[j], lastSent))
    ensures Acting(bs, ssrc, lastSent, n) == None <==> forall j :: 0 <= j < n ==> !ForUs(bs[j], ssrc)
  {
    hide Age, ForUs;
    if n > 0 {
      ActingIsYoungestLast(bs, ssrc, lastSent, n - 1, i);
      var before := Acting(bs, ssrc, lastSent, n - 1);
      if before.Some? { ActingIsYoungestLast(bs, ssrc, lastSent, n - 1, before.value); }
    }
  }

  /** The parse result read off the blocks: nothing for a compound that does not split or holds a
      voiding block, and otherwise the losses of the feedback for us whose checkpoint is nearest
      below `lastSent`, the last of those if several are. Which blocks void the compound depends on
      those before them; which feedback acts does not. */
  lemma NackedFramesMeaning(buf: seq<u8>, ssrc: u32, lastSent: u32)
    ensures Blocks(buf) == None ==> NackedFrames(buf, ssrc, lastSent) == []
    ensures Blocks(buf).Some? ==>
      var bs := Blocks(buf).value;
      if Void(bs, ssrc, lastSent, |bs|) || forall i :: 0 <= i < |bs| ==> !ForUs(bs[i], ssrc)
      then NackedFrames(buf, ssrc, lastSent) == []
      else exists i ::
        && 0 <= i < |bs| && YoungestLast(bs, ssrc, lastSent, i) && !Overstated(bs[i])
        && NackedFrames(buf, ssrc, lastSent) == Losses(bs[i], lastSent, bs[i].payload[13])
  {
    if Blocks(buf).Some? {
      var bs := Blocks(buf).value;
      var acting := Acting(bs, ssrc, lastSent, |bs|);
      ActingIsYoungestLast(bs, ssrc, lastSent, |bs|, 0);
      if acting.Some? {
        var i := acting.value;
        ActingIsYoungestLast(bs, ssrc, lastSent, |bs|, i);
        ActingIsYoungestLast(bs, ssrc, lastSent, i + 1, i);
        assert Overstated(bs[i]) ==> Voids(bs, ssrc, lastSent, i);
        assert YoungestLast(bs, ssrc, lastSent, i);
      }
    }
  }

  ghost predicate YoungestLast(bs: seq<Block>, ssrc: u32, lastSent: u32, i: nat)
    requires i < |bs|
  {
    && ForUs(bs[i], ssrc)
    && (forall j :: 0 <= j < |bs| && ForUs(bs[j], ssrc) ==> Age(bs[i], lastSent) <= Age(bs[j], lastSent))
    && (forall j :: i < j < |bs| && ForUs(bs[j], ssrc) ==> Age(bs[i], lastSent) < Age(bs[j], lastSent))
  }

  /** Each reported loss is a frame within 256 past the acting checkpoint, which itself is within
      255 behind `lastSent`. */
  lemma {:induction false} LossesNearCheckpoint(b: Block, lastSent: u32, n: nat, k: nat)
    requires |b.payload| >= 16 + 4 * n && k < |Losses(b, lastSent, n)|
    ensures Minus32(lastSent, Checkpoint(b, lastSent)) == Age(b, lastSent) < 256
    ensures 1 <= Minus32(Losses(b, lastSent, n)[k], Checkpoint(b, lastSent)) <= 256
  {
    var ck := Checkpoint(b, lastSent);
    if k < |Losses(b, lastSent, n - 1)| {
      LossesNearCheckpoint(b, lastSent, n - 1, k);
    } else {
      var at := 16 + 4 * (n - 1);
      LowByte(lastSent, Age(b, lastSent));
      ExpandNear(ck, b.payload[at]);
    }
  }

  lemma ExpandNear(ck: u32, low: u8)
    ensures 1 <= Minus32(ExpandLe((ck + 256) % TWO32, low), ck) <= 256
  {
    var frame := ExpandLe((ck + 256) % TWO32, low);
    ExpandLeUnique((ck + 256) % TWO32, low, frame);
    PastCheckpoint(ck, frame);
  }

  // ---- The source's loop ----

  function Signed32(x: u32): int { if x >= 0x8000_0000 then x - TWO32 else x }

  /** The 32-bit pattern of a number, read as two's complement, is the number. */
  lemma SignedReads(y: int)
    requires -0x8000_0000 <= y < 0x8000_0000
    ensures Signed32(y % TWO32) == y
  {
  }

  /** The wrapping signed comparison of two checkpoints is the order of their ages: both lie
      within 255 behind the same frame. */
  lemma SignedOrder(lastSent: u32, new_: u8, prev: u8)
    ensures Signed32((ExpandLe(lastSent, new_) - ExpandLe(lastSent, prev)) % TWO32) < 0
      <==> (lastSent % 256 - new_) % 256 > (lastSent % 256 - prev) % 256
  {
    var a, b := (lastSent % 256 - new_) % 256, (lastSent % 256 - prev) % 256;
    assert ExpandLe(lastSent, new_) == Minus32(lastSent, a);
    assert ExpandLe(lastSent, prev) == Minus32(lastSent, b);
    hide ExpandLe;
    SignedMinus(lastSent, a, b);
    assert Minus32(Minus32(lastSent, a), Minus32(lastSent, b))
      == (Minus32(lastSent, a) - Minus32(lastSent, b)) % TWO32;
  }

  lemma SignedMinus(lastSent: u32, a: nat, b: nat)
    requires a < 256 && b < 256
    ensures Signed32(Minus32(Minus32(lastSent, a), Minus32(lastSent, b))) < 0 <==> a > b
  {
  }

  lemma {:induction false} ActingOfPrefix(bs: seq<Block>, more: seq<Block>, ssrc: u32, lastSent: u32, n: nat)
    requires n <= |bs|
    ensures Acting(bs + more, ssrc, lastSent, n) == Acting(bs, ssrc, lastSent, n)
  {
    if n > 0 { ActingOfPrefix(bs, more, ssrc, lastSent, n - 1); }
  }

  lemma VoidOfPrefix(bs: seq<Block>, more: seq<Block>, ssrc: u32, lastSent: u32, i: nat)
    requires i < |bs|
    ensures Voids(bs + more, ssrc, lastSent, i) == Voids(bs, ssrc, lastSent, i)
  {
    ActingOfPrefix(bs, more, ssrc, lastSent, i + 1);
  }

  /** The blocks of `datagram` are those already read and those still in `buf`. */
  ghost predicate Split(datagram: seq<u8>, done: seq<Block>, buf: seq<u8>)
  {
    && (Blocks(datagram).None? <==> Blocks(buf).None?)
    && (Blocks(buf).Some? ==> Blocks(datagram).value == done + Blocks(buf).value)
  }

  /** `checkpoint` and `nacked` describe the feedback acting among the blocks read so far, none
      of which voids the compound. */
  ghost predicate ParserState(done: seq<Block>, ssrc: u32, lastSent: u32, checkpoint: Option<u32>, nacked: seq<u32>)
  {
    && !Void(done, ssrc, lastSent, |done|)
    && match Acting(done, ssrc, lastSent, |done|)
       case None => checkpoint == None && nacked == []
       case Some(i) =>
         && checkpoint == Some(Checkpoint(done[i], lastSent))
         && !Overstated(done[i])
         && nacked == Losses(done[i], lastSent, done[i].payload[13])
  }

  lemma SplitFirst(datagram: seq<u8>, done: seq<Block>, buf: seq<u8>)
    requires Split(datagram, done, buf)
    ensures buf == [] ==> Blocks(datagram) == Some(done)
    ensures buf != [] && FirstBlock(buf).None? ==> Blocks(datagram).None?
    ensures buf != [] && FirstBlock(buf).Some? ==>
      Split(datagram, done + [FirstBlock(buf).value.0], FirstBlock(buf).value.1)
  {
    hide FirstBlock, Blocks;
    BlocksFirst(buf);
    if buf == [] {
      assert done + [] == done;
    } else if Blocks(buf).Some? {
      var (b, rest) := FirstBlock(buf).value;
      assert done + ([b] + Blocks(rest).value) == (done + [b]) + Blocks(rest).value;
    }
  }

  lemma BlocksFirst(buf: seq<u8>)
    ensures buf == [] ==> Blocks(buf) == Some([])
    ensures buf != [] && FirstBlock(buf).None? ==> Blocks(buf).None?
    ensures buf != [] && FirstBlock(buf).Some? ==>
      var (b, rest) := FirstBlock(buf).value;
      && (Blocks(buf).None? <==> Blocks(rest).None?)
      && (Blocks(rest).Some? ==> Blocks(buf).value == [b] + Blocks(rest).value)
  {
    hide FirstBlock;
  }

  /** A block that voids the compound makes the result empty, whatever follows it. */
  lemma VoidResult(datagram: seq<u8>, before: seq<Block>, b: Block, buf: seq<u8>, ssrc: u32, lastSent: u32)
    requires Split(datagram, before + [b], buf)
    requires Voids(before + [b], ssrc, lastSent, |before|)
    ensures NackedFrames(datagram, ssrc, lastSent) == []
  {
    if Blocks(buf).Some? {
      VoidOfPrefix(before + [b], Blocks(buf).value, ssrc, lastSent, |before|);
    }
  }

  lemma OneMore(before: seq<Block>, b: Block, ssrc: u32, lastSent: u32, checkpoint: Option<u32>, nacked: seq<u32>)
    requires ParserState(before, ssrc, lastSent, checkpoint, nacked)
    ensures Acting(before + [b], ssrc, lastSent, |before|) == Acting(before, ssrc, lastSent, |before|)
    ensures Void(before + [b], ssrc, lastSent, |before| + 1) <==> Voids(before + [b], ssrc, lastSent, |before|)
  {
    ActingOfPrefix(before, [b], ssrc, lastSent, |before|);
    forall i | 0 <= i < |before|
      ensures Voids(before + [b], ssrc, lastSent, i) == Voids(before, ssrc, lastSent, i)
    {
      VoidOfPrefix(before, [b], ssrc, lastSent, i);
    }
  }

  /** The acting feedback stays the same past a block for someone else or with an older checkpoint. */
  lemma Passed(before: seq<Block>, b: Block, ssrc: u32, lastSent: u32, checkpoint: Option<u32>, nacked: seq<u32>)
    requires ParserState(before, ssrc, lastSent, checkpoint, nacked) && !BadHeader(b, ssrc)
    requires ForUs(b, ssrc) ==>
      checkpoint.Some? && Signed32((Checkpoint(b, lastSent) - checkpoint.value) % TWO32) < 0
    ensures ParserState(before + [b], ssrc, lastSent, checkpoint, nacked)
  {
    hide ExpandLe, Losses, BE32;
    OneMore(before, b, ssrc, lastSent, checkpoint, nacked);
    if ForUs(b, ssrc) {
      var i := Acting(before, ssrc, lastSent, |before|).value;
      SignedOrder(lastSent, b.payload[12], before[i].payload[12]);
    }
  }

  /** A feedback for us whose checkpoint is not older takes over. */
  lemma TakesOver(before: seq<Block>, b: Block, ssrc: u32, lastSent: u32, checkpoint: Option<u32>, nacked: seq<u32>)
    requires ParserState(before, ssrc, lastSent, checkpoint, nacked)
    requires ForUs(b, ssrc) && !BadHeader(b, ssrc)
    requires checkpoint.Some? ==> Signed32((Checkpoint(b, lastSent) - checkpoint.value) % TWO32) >= 0
    ensures Overstated(b) ==> Voids(before + [b], ssrc, lastSent, |before|)
    ensures !Overstated(b) ==>
      ParserState(before + [b], ssrc, lastSent, Some(Checkpoint(b, lastSent)), Losses(b, lastSent, b.payload[13]))
  {
    hide ExpandLe, Losses, BE32;
    OneMore(before, b, ssrc, lastSent, checkpoint, nacked);
    if checkpoint.Some? {
      var i := Acting(before, ssrc, lastSent, |before|).value;
      SignedOrder(lastSent, b.payload[12], before[i].payload[12]);
    }
  }

  method ParseNackedFrames(datagram: seq<u8>, ssrc: u32, lastSent: u32) returns (nacked: seq<u32>)
    ensures nacked == NackedFrames(datagram, ssrc, lastSent)
  {
    var buf := datagram;
    var checkpoint: Option<u32> := None;
    nacked := [];
    ghost var done: seq<Block> := [];
    while buf != []
      invariant Split(datagram, done, buf)
      invariant ParserState(done, ssrc, lastSent, checkpoint, nacked)
      decreases |buf|
    {
      hide Split, ParserState, Blocks, NackedFrames, Acting, Losses, Signed32, ExpandLe, BE16, BE32;
      SplitFirst(datagram, done, buf);
      if |buf| < 4 || buf[0] / 32 != 4 {
        NoBlocks(datagram, ssrc, lastSent);
        return [];
      }
      var fmt := buf[0] % 32;
      var pt := buf[1];
      var length := BE16(buf[2], buf[3]) * 4;
      if 4 + length > |buf| {
        NoBlocks(datagram, ssrc, lastSent);
        return [];
      }
      var payload := buf[4..4 + length];
      buf := buf[4 + length..];
      var b := Block(fmt, pt, payload);
      ghost var before := done;
      done := before + [b];
      if pt != PAYLOAD_SPECIFIC || fmt != CAST_FEEDBACK {
        Passed(before, b, ssrc, lastSent, checkpoint, nacked);
        continue;
      }
      if |payload| < 16 {
        VoidResult(datagram, before, b, buf, ssrc, lastSent);
        return [];
      }
      if BE32(payload[4..8]) != ssrc {
        Passed(before, b, ssrc, lastSent, checkpoint, nacked);
        continue;
      }
      if BE32(payload[8..12]) != CAST_MAGIC {
        VoidResult(datagram, before, b, buf, ssrc, lastSent);
        return [];
      }
      var ck := ExpandLe(lastSent, payload[12]);
      var lossFields := payload[13];
      if checkpoint.Some? && Signed32((ck - checkpoint.value) % TWO32) < 0 {
        Passed(before, b, ssrc, lastSent, checkpoint, nacked);
        continue;
      }
      TakesOver(before, b, ssrc, lastSent, checkpoint, nacked);
      checkpoint := Some(ck);
      nacked := [];
      if 16 + lossFields as int * 4 > |payload| {
        VoidResult(datagram, before, b, buf, ssrc, lastSent);
        return [];
      }
      nacked := CollectLosses(b, lastSent, ck);
    }
    SplitFirst(datagram, done, buf);
  }

  lemma NoBlocks(datagram: seq<u8>, ssrc: u32, lastSent: u32)
    requires Blocks(datagram).None?
    ensures NackedFrames(datagram, ssrc, lastSent) == []
  {
  }

  /** The loop over the loss fields of one feedback. */
  method CollectLosses(b: Block, lastSent: u32, ck: u32) returns (nacked: seq<u32>)
    requires !Overstated(b) && ck == Checkpoint(b, lastSent)
    ensures nacked == Losses(b, lastSent, b.payload[13])
  {
    nacked := [];
    var i := 0;
    while i < b.payload[13] as int
      invariant 0 <= i <= b.payload[13] as int
      invariant nacked == Losses(b, lastSent, i)
    {
      var at := 16 + 4 * i;
      var frameId := ExpandLe((ck + 256) % TWO32, b.payload[at]);
      var packetId := BE16(b.payload[at + 1], b.payload[at + 2]);
      if packetId == 0 || packetId == ALL_PACKETS_LOST {
        nacked := nacked + [frameId];
      }
      i := i + 1;
    }
  }

  // ---- The receiver's side ----

  /** A loss field: a frame, the packet of it that is missing (0xFFFF for all), and a bit mask of
      further packets. */
  datatype Loss = Loss(frame: u32, packet: u16, mask: u8)

  function LossFields(losses: seq<Loss>): (fields: seq<u8>)
    ensures |fields| == 4 * |losses|
  {
    if losses == [] then [] else
      var last := losses[|losses| - 1];
      LossFields(losses[..|losses| - 1]) + ([last.frame % 256] + ToBE16(last.packet) + [last.mask])
  }

  /** The frames to be sent again: each has one packet, number 0. */
  function Wanted(losses: seq<Loss>): seq<u32>
  {
    if losses == [] then [] else
      var last := losses[|losses| - 1];
      Wanted(losses[..|losses| - 1]) + if last.packet == 0 || last.packet == 0xFFFF then [last.frame] else []
  }

  /** What a compound packet may hold: Cast feedback on our stream, whose tail may hold more than
      losses; such feedback that announces more loss fields than it has room for; or a block for
      someone else. */
  datatype Item =
    | Ours(receiver: u32, checkpoint: u32, delay: u16, losses: seq<Loss>, tail: seq<u8>)
    | Torn(block: Block)
    | Foreign(block: Block)

  function Payload(item: Item, ssrc: u32): (p: seq<u8>)
    requires item.Ours? && |item.losses| < 256
    ensures |p| == 16 + 4 * |item.losses| + |item.tail|
  {
    ToBE32(item.receiver) + ToBE32(ssrc) + CAST
    + CheckpointField(item.checkpoint % 256, |item.losses|, item.delay) + (LossFields(item.losses) + item.tail)
  }

  function CheckpointField(low: u8, lossFields: u8, delay: u16): (field: seq<u8>)
    ensures |field| == 4 && field[0] == low && field[1] == lossFields
  {
    [low, lossFields] + ToBE16(delay)
  }

  /** The four letters that mark Cast feedback. */
  const CAST: seq<u8> := [0x43, 0x41, 0x53, 0x54]

  function BlockOf(item: Item, ssrc: u32): Block
  {
    match item
    case Ours(_, _, _, losses, _) => if |losses| < 256 then Block(15, 206, Payload(item, ssrc)) else Block(15, 206, [])
    case Torn(block) => block
    case Foreign(block) => block
  }

  predicate Overstates(b: Block, ssrc: u32)
  {
    IsOurs(b, ssrc) && 16 + 4 * (b.payload[13] as int) > |b.payload|
  }

  /** Cast feedback long enough for its header, and on our stream. */
  predicate IsOurs(b: Block, ssrc: u32)
  {
    b.pt == 206 && b.fmt == 15 && |b.payload| >= 16 && b.payload[4..8] == ToBE32(ssrc)
  }

  /** A block of another type, or the feedback on another stream. */
  predicate IsForeign(b: Block, ssrc: u32)
  {
    b.pt != 206 || b.fmt != 15 || (|b.payload| >= 16 && b.payload[4..8] != ToBE32(ssrc))
  }

  /** What a receiver can report while `lastSent` is the newest frame: the checkpoint is at most 255
      behind it, and each loss at most 256 past the checkpoint. */
  ghost predicate Proper(item: Item, ssrc: u32, lastSent: u32)
  {
    match item
    case Ours(_, checkpoint, _, losses, tail) =>
      && |losses| < 256 && Printable(BlockOf(item, ssrc))
      && Minus32(lastSent, checkpoint) < 256
      && forall x :: x in losses ==> 1 <= Minus32(x.frame, checkpoint) <= 256
    case Torn(block) => Printable(block) && Overstates(block, ssrc) && block.payload[8..12] == CAST
    case Foreign(block) => Printable(block) && IsForeign(block, ssrc)
  }

  /** There is newer feedback on our stream before this item. */
  ghost predicate Superseded(items: seq<Item>, lastSent: u32, k: nat)
    requires k < |items| && items[k].Torn? && |items[k].block.payload| >= 16
  {
    exists j :: 0 <= j < k && items[j].Ours?
      && Minus32(lastSent, items[j].checkpoint) < (lastSent - items[k].block.payload[12]) % 256
  }

  function BlocksOf(items: seq<Item>, ssrc: u32): (bs: seq<Block>)
    ensures |bs| == |items|
  {
    seq(|items|, i requires 0 <= i < |items| => BlockOf(items[i], ssrc))
  }

  ghost predicate AllProper(items: seq<Item>, ssrc: u32, lastSent: u32)
  {
    && (forall i :: 0 <= i < |items| ==> Proper(items[i], ssrc, lastSent))
    && forall i :: 0 <= i < |items| && items[i].Torn? ==> Superseded(items, lastSent, i)
  }

  /** The feedback on our stream with the nearest checkpoint, the last of those. */
  ghost predicate Newest(items: seq<Item>, lastSent: u32, i: nat)
    requires i < |items|
  {
    && items[i].Ours?
    && forall j :: 0 <= j < |items| && items[j].Ours? ==>
         var (a, b) := (Minus32(lastSent, items[i].checkpoint), Minus32(lastSent, items[j].checkpoint));
         if j <= i then a <= b else a < b
  }

  /** What receivers report is what the sender understands. In a compound packet of any blocks in any
      order the newest feedback on our stream is acted on: its frames of which packet 0 or everything
      is missing, in order, recovered from their low bytes across the 32-bit wrap. Older feedback,
      also if it overstates its losses, changes nothing; and without feedback on our stream nothing
      is resent. */
  lemma CompoundRoundTrip(items: seq<Item>, ssrc: u32, lastSent: u32, i: nat)
    requires AllProper(items, ssrc, lastSent)
    ensures (forall k :: 0 <= k < |items| ==> items[k].Foreign?) ==>
      NackedFrames(Print(BlocksOf(items, ssrc)), ssrc, lastSent) == []
    ensures i < |items| && Newest(items, lastSent, i) ==>
      NackedFrames(Print(BlocksOf(items, ssrc)), ssrc, lastSent) == Wanted(items[i].losses)
  {
    hide Proper, ForUs, Voids, BadHeader, Overstated, Losses, Minus32, Age, Blocks, Print, NackedFrames, BlockOf;
    var bs := BlocksOf(items, ssrc);
    ItemsPrint(items, ssrc, lastSent);
    BlocksIff(Print(bs), bs);
    forall k | 0 <= k < |bs| ensures ItemReads(items[k], bs[k], ssrc, lastSent) {
      Reads(items[k], ssrc, lastSent);
    }
    NackedFramesMeaning(Print(bs), ssrc, lastSent);
    forall k | 0 <= k < |items| && items[k].Torn?
      ensures |items[k].block.payload| >= 16 && Superseded(items, lastSent, k)
    {
      assert ItemReads(items[k], bs[k], ssrc, lastSent);
    }
    NothingVoid(items, bs, ssrc, lastSent);
    if i < |items| && Newest(items, lastSent, i) {
      NewestActs(items, bs, ssrc, lastSent, i);
    } else if forall k :: 0 <= k < |items| ==> items[k].Foreign? {
      forall k | 0 <= k < |bs| ensures !ForUs(bs[k], ssrc) {
        assert ItemReads(items[k], bs[k], ssrc, lastSent);
      }
    }
  }

  lemma ItemsPrint(items: seq<Item>, ssrc: u32, lastSent: u32)
    requires AllProper(items, ssrc, lastSent)
    ensures AllPrintable(BlocksOf(items, ssrc))
  {
    hide Printable, Payload, Minus32, IsForeign;
    var bs := BlocksOf(items, ssrc);
    forall b | b in bs ensures Printable(b) {
      var k :| 0 <= k < |bs| && bs[k] == b;
      assert Proper(items[k], ssrc, lastSent);
    }
  }

  /** How the parser sees an item. */
  ghost predicate ItemReads(item: Item, b: Block, ssrc: u32, lastSent: u32)
  {
    && (ForUs(b, ssrc) <==> !item.Foreign?)
    && !BadHeader(b, ssrc)
    && (item.Torn? ==> b == item.block && |b.payload| >= 16 && Age(b, lastSent) == (lastSent - b.payload[12]) % 256)
    && (item.Ours? ==>
          && !Overstated(b)
          && Age(b, lastSent) == Minus32(lastSent, item.checkpoint)
          && Losses(b, lastSent, b.payload[13]) == Wanted(item.losses))
  }

  lemma Reads(item: Item, ssrc: u32, lastSent: u32)
    requires Proper(item, ssrc, lastSent)
    ensures ItemReads(item, BlockOf(item, ssrc), ssrc, lastSent)
  {
    var b := BlockOf(item, ssrc);
    if item.Ours? {
      hide Losses, Minus32, ForUs, BadHeader, Overstated, Age, Payload, LossFields;
      PayloadIs(item, ssrc, b);
      CheckpointIs(lastSent, item.checkpoint, b);
      LossesReported(b, lastSent, item, |item.losses|);
      assert item.losses[..|item.losses|] == item.losses;
    } else if item.Torn? {
      hide Losses, Minus32, Overstated, BE32;
      OnStream(b, ssrc);
      MagicIsCast(b.payload[8..12]);
    } else {
      hide Losses, Minus32, Age, Overstated;
      ForeignReads(b, ssrc);
    }
  }

  lemma ForeignReads(b: Block, ssrc: u32)
    requires IsForeign(b, ssrc)
    ensures !ForUs(b, ssrc) && !BadHeader(b, ssrc)
  {
    if |b.payload| >= 16 { WordsAreBigEndian(b.payload[4..8], ssrc); }
  }

  ghost predicate AllRead(items: seq<Item>, bs: seq<Block>, ssrc: u32, lastSent: u32)
  {
    && |bs| == |items|
    && (forall k :: 0 <= k < |bs| ==> ItemReads(items[k], bs[k], ssrc, lastSent))
    && forall k :: 0 <= k < |bs| && items[k].Torn? ==>
         |items[k].block.payload| >= 16 && Superseded(items, lastSent, k)
  }

  lemma NothingVoid(items: seq<Item>, bs: seq<Block>, ssrc: u32, lastSent: u32)
    requires AllRead(items, bs, ssrc, lastSent)
    ensures !Void(bs, ssrc, lastSent, |bs|)
  {
    hide ForUs, BadHeader, Overstated, Losses, Minus32, Age, Acting;
    forall k | 0 <= k < |bs| ensures !Voids(bs, ssrc, lastSent, k) {
      assert ItemReads(items[k], bs[k], ssrc, lastSent);
      if items[k].Torn? { var j := TornIsPassed(items, bs, ssrc, lastSent, k); }
      ActingIsYoungestLast(bs, ssrc, lastSent, k + 1, k);
    }
  }

  /** Before a block that overstates its losses there is newer feedback, which is none such. */
  lemma TornIsPassed(items: seq<Item>, bs: seq<Block>, ssrc: u32, lastSent: u32, k: nat) returns (j: nat)
    requires AllRead(items, bs, ssrc, lastSent) && k < |items| && items[k].Torn?
    ensures j < k && items[j].Ours? && ForUs(bs[j], ssrc) && Age(bs[j], lastSent) < Age(bs[k], lastSent)
  {
    hide ForUs, BadHeader, Overstated, Losses, Minus32, Age;
    assert ItemReads(items[k], bs[k], ssrc, lastSent);
    j :| 0 <= j < k && items[j].Ours?
      && Minus32(lastSent, items[j].checkpoint) < (lastSent - items[k].block.payload[12]) % 256;
    assert ItemReads(items[j], bs[j], ssrc, lastSent);
  }

  lemma NewestActs(items: seq<Item>, bs: seq<Block>, ssrc: u32, lastSent: u32, i: nat)
    requires AllRead(items, bs, ssrc, lastSent) && i < |items| && Newest(items, lastSent, i)
    requires Blocks(Print(bs)) == Some(bs) && !Void(bs, ssrc, lastSent, |bs|)
    ensures NackedFrames(Print(bs), ssrc, lastSent) == Wanted(items[i].losses)
  {
    hide ForUs, BadHeader, Overstated, Losses, Minus32, Age, Blocks, Print, Void;
    assert ItemReads(items[i], bs[i], ssrc, lastSent);
    forall j | 0 <= j < |bs| && ForUs(bs[j], ssrc)
      ensures if j <= i then Age(bs[i], lastSent) <= Age(bs[j], lastSent)
        else Age(bs[i], lastSent) < Age(bs[j], lastSent)
    {
      assert ItemReads(items[j], bs[j], ssrc, lastSent);
      if items[j].Torn? {
        var k := TornIsPassed(items, bs, ssrc, lastSent, j);
        assert ItemReads(items[k], bs[k], ssrc, lastSent);
      }
    }
    ActingIsYoungestLast(bs, ssrc, lastSent, |bs|, i);
  }

  /** One block that is too short for Cast feedback, or on our stream without the four letters, makes
      the whole compound packet void, wherever it stands. */
  lemma BadBlockVoids(bs: seq<Block>, i: nat, ssrc: u32, lastSent: u32)
    requires AllPrintable(bs) && i < |bs| && bs[i].pt == 206 && bs[i].fmt == 15
    requires |bs[i].payload| < 16 || (IsOurs(bs[i], ssrc) && bs[i].payload[8..12] != CAST)
    ensures NackedFrames(Print(bs), ssrc, lastSent) == []
  {
    hide Blocks, Print, Acting, NackedFrames;
    BlocksIff(Print(bs), bs);
    if |bs[i].payload| >= 16 {
      MagicIsCast(bs[i].payload[8..12]);
    }
    VoidMeans(Print(bs), bs, ssrc, lastSent, i);
  }

  lemma MagicIsCast(b: seq<u8>)
    requires |b| == 4
    ensures BE32(b) == CAST_MAGIC <==> b == CAST
  {
  }

  /** And so does feedback on our stream that announces more loss fields than it has room for, unless
      there is newer feedback before it. */
  lemma OverstatedVoids(bs: seq<Block>, i: nat, ssrc: u32, lastSent: u32)
    requires AllPrintable(bs) && i < |bs| && Overstates(bs[i], ssrc)
    requires forall j :: 0 <= j < i && IsOurs(bs[j], ssrc) ==>
      (lastSent - bs[i].payload[12]) % 256 <= (lastSent - bs[j].payload[12]) % 256
    ensures NackedFrames(Print(bs), ssrc, lastSent) == []
  {
    hide Blocks, Print, Acting, BE32, ToBE32, ForUs, NackedFrames, Overstated, BadHeader, IsOurs, Printable;
    BlocksIff(Print(bs), bs);
    forall j | 0 <= j <= i && ForUs(bs[j], ssrc) ensures Age(bs[i], lastSent) <= Age(bs[j], lastSent) {
      OnStream(bs[j], ssrc);
      OursIs(bs[i], ssrc, lastSent);
      OursIs(bs[j], ssrc, lastSent);
    }
    OnStream(bs[i], ssrc);
    OursIs(bs[i], ssrc, lastSent);
    ActingIsYoungestLast(bs, ssrc, lastSent, i + 1, i);
    VoidMeans(Print(bs), bs, ssrc, lastSent, i);
  }

  lemma OursIs(b: Block, ssrc: u32, lastSent: u32)
    requires IsOurs(b, ssrc)
    ensures |b.payload| >= 16 && Age(b, lastSent) == (lastSent - b.payload[12]) % 256
    ensures Overstated(b) <==> Overstates(b, ssrc)
  {
  }

  lemma VoidMeans(buf: seq<u8>, bs: seq<Block>, ssrc: u32, lastSent: u32, i: nat)
    requires Blocks(buf) == Some(bs) && i < |bs| && Voids(bs, ssrc, lastSent, i)
    ensures NackedFrames(buf, ssrc, lastSent) == []
  {
    hide Voids;
  }

  lemma OnStream(b: Block, ssrc: u32)
    ensures ForUs(b, ssrc) <==> IsOurs(b, ssrc)
  {
    if |b.payload| >= 16 { WordsAreBigEndian(b.payload[4..8], ssrc); }
  }

  lemma {:induction false} LossesReported(b: Block, lastSent: u32, item: Item, n: nat)
    requires item.Ours? && n <= |item.losses| < 256 && |b.payload| == 16 + 4 * |item.losses| + |item.tail|
    requires b.payload[16..] == LossFields(item.losses) + item.tail && Checkpoint(b, lastSent) == item.checkpoint
    requires forall x :: x in item.losses ==> 1 <= Minus32(x.frame, item.checkpoint) <= 256
    requires Minus32(lastSent, item.checkpoint) < 256
    ensures Losses(b, lastSent, n) == Wanted(item.losses[..n])
  {
    if n > 0 {
      hide ExpandLe, Minus32, LossFields, Checkpoint, Losses, BE16;
      var losses := item.losses;
      LossesReported(b, lastSent, item, n - 1);
      LossReported(b, lastSent, item, n - 1);
      LossesSnoc(b, lastSent, n, losses[n - 1]);
      assert losses[..n][..n - 1] == losses[..n - 1];
    }
  }

  lemma LossReported(b: Block, lastSent: u32, item: Item, i: nat)
    requires item.Ours? && i < |item.losses| < 256 && |b.payload| == 16 + 4 * |item.losses| + |item.tail|
    requires b.payload[16..] == LossFields(item.losses) + item.tail
    requires 1 <= Minus32(item.losses[i].frame, item.checkpoint) <= 256 && Minus32(lastSent, item.checkpoint) < 256
    ensures BE16(b.payload[17 + 4 * i], b.payload[18 + 4 * i]) == item.losses[i].packet
    ensures ExpandLe((item.checkpoint + 256) % TWO32, b.payload[16 + 4 * i]) == item.losses[i].frame
  {
    var fields := LossFields(item.losses);
    LossFieldAt(item.losses, i);
    assert forall k :: 0 <= k < |fields| ==> b.payload[16 + k] == (fields + item.tail)[k] == fields[k];
    ExpansionRoundTrip(lastSent, item.checkpoint, item.losses[i].frame);
  }

  lemma LossesSnoc(b: Block, lastSent: u32, n: nat, x: Loss)
    requires 0 < n && |b.payload| >= 16 + 4 * n
    requires BE16(b.payload[13 + 4 * n], b.payload[14 + 4 * n]) == x.packet
    requires ExpandLe((Checkpoint(b, lastSent) + 256) % TWO32, b.payload[12 + 4 * n]) == x.frame
    ensures Losses(b, lastSent, n) == Losses(b, lastSent, n - 1)
      + if x.packet == 0 || x.packet == 0xFFFF then [x.frame] else []
  {
    hide ExpandLe, Checkpoint, BE16;
  }

  lemma {:induction false} LossFieldAt(losses: seq<Loss>, k: nat)
    requires k < |losses|
    ensures var (fields, x) := (LossFields(losses), losses[k]);
      fields[4 * k] == x.frame % 256 && BE16(fields[4 * k + 1], fields[4 * k + 2]) == x.packet
  {
    if k < |losses| - 1 { LossFieldAt(losses[..|losses| - 1], k); }
  }

  lemma PayloadIs(item: Item, ssrc: u32, b: Block)
    requires item.Ours? && |item.losses| < 256 && b == Block(15, 206, Payload(item, ssrc))
    ensures b.payload[16..] == LossFields(item.losses) + item.tail
    ensures b.payload[12] == item.checkpoint % 256 && b.payload[13] == |item.losses|
    ensures ForUs(b, ssrc) && !BadHeader(b, ssrc) && !Overstated(b)
  {
    hide LossFields, ToBE32, BE32, CheckpointField, ForUs, BadHeader, Overstated;
    var field := CheckpointField(item.checkpoint % 256, |item.losses|, item.delay);
    Fields(ToBE32(item.receiver), ToBE32(ssrc), CAST, field, LossFields(item.losses) + item.tail);
    HeaderIsOurs(b, ssrc);
  }

  lemma HeaderIsOurs(b: Block, ssrc: u32)
    requires b.pt == 206 && b.fmt == 15 && |b.payload| >= 16
    requires b.payload[4..8] == ToBE32(ssrc) && b.payload[8..12] == CAST
    requires |b.payload| >= 16 + 4 * b.payload[13] as int
    ensures ForUs(b, ssrc) && !BadHeader(b, ssrc) && !Overstated(b)
  {
    MagicIsCast(b.payload[8..12]);
    hide ToBE32, BE32;
  }

  lemma Fields(a: seq<u8>, b: seq<u8>, c: seq<u8>, d: seq<u8>, rest: seq<u8>)
    requires |a| == |b| == |c| == |d| == 4
    ensures var p := a + b + c + d + rest;
      |p| == 16 + |rest| && p[4..8] == b && p[8..12] == c && p[12] == d[0] && p[13] == d[1] && p[16..] == rest
  {
  }

  lemma CheckpointIs(lastSent: u32, checkpoint: u32, b: Block)
    requires |b.payload| >= 16 && b.payload[12] == checkpoint % 256 && Minus32(lastSent, checkpoint) < 256
    ensures Checkpoint(b, lastSent) == checkpoint && Age(b, lastSent) == Minus32(lastSent, checkpoint)
  {
    hide ExpandLe, Minus32;
    ExpandLeUnique(lastSent, b.payload[12], checkpoint);
    ExpandLeIs(lastSent, b.payload[12]);
    MinusBack(lastSent, Age(b, lastSent));
  }

  // ---- One feedback alone ----

  /** Frames reported lost as a whole. */
  function AllLost(lost: seq<u32>): (losses: seq<Loss>)
    ensures |losses| == |lost|
  {
    seq(|lost|, i requires 0 <= i < |lost| => Loss(lost[i], 0xFFFF, 0))
  }

  /** The Cast feedback of a receiver that has every frame up to `checkpoint` and misses `lost`. */
  function FeedbackPacket(receiver: u32, ssrc: u32, checkpoint: u32, lost: seq<u32>): seq<u8>
    requires |lost| < 256
  {
    Print(BlocksOf([Ours(receiver, checkpoint, 0, AllLost(lost), [])], ssrc))
  }

  lemma NackRoundTrip(receiver: u32, ssrc: u32, lastSent: u32, checkpoint: u32, lost: seq<u32>)
    requires |lost| < 256
    requires Minus32(lastSent, checkpoint) < 256
    requires forall f :: f in lost ==> 1 <= Minus32(f, checkpoint) <= 256
    ensures NackedFrames(FeedbackPacket(receiver, ssrc, checkpoint, lost), ssrc, lastSent) == lost
  {
    hide NackedFrames, Print, LossFields, Minus32, ToBE32, CheckpointField;
    var item := Ours(receiver, checkpoint, 0, AllLost(lost), []);
    assert forall x :: x in item.losses ==> x.frame in lost;
    assert Proper(item, ssrc, lastSent);
    CompoundRoundTrip([item], ssrc, lastSent, 0);
    AllWanted(lost);
  }

  lemma {:induction false} AllWanted(lost: seq<u32>)
    ensures Wanted(AllLost(lost)) == lost
  {
    if lost != [] {
      var n := |lost| - 1;
      AllWanted(lost[..n]);
      assert AllLost(lost)[..n] == AllLost(lost[..n]);
    }
  }
}
