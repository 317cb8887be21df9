/** The sender's state over a whole session: transmissions, failures, and retransmissions out of a
    120-slot history that a feedback datagram can ask for at any time, also between the moment a
    packet is on the wire and the moment it is recorded. */
module RtpSender {
  import opened Words
  import opened Rtcp
  import opened RtpPacket

  const HISTORY_FRAMES: nat := 120
  /** 20 ms, in nanoseconds. */
  const MIN_RESEND_INTERVAL: nat := 20_000_000

  datatype SentPacket = SentPacket(frameId: u32, packet: seq<u8>, sentAt: nat)

  /** One datagram handed to the socket. `at` is the time recorded for a resend, and for a first
      transmission its own; `sent` counts the frames sent when it left, itself included, and
      `recorded` those in the history by then. */
  datatype Tx = Tx(frameId: u32, packet: seq<u8>, at: nat, sent: nat, recorded: nat)

  /** A frame that is on the wire and not yet recorded. */
  datatype Pending = Pending(opus: seq<u8>, packet: seq<u8>, at: nat)

  /** `plain` lists the payloads of the frames sent so far; it is history, not program state. */
  datatype Sender = Sender(
    frameId: u32,
    octets: u64,
    slots: seq<Option<SentPacket>>,
    lastSent: Option<u32>,
    pending: Option<Pending>,
    wire: seq<Tx>,
    plain: seq<seq<u8>>)
  {
    /** Frames in the history. */
    function Recorded(): nat
    {
      if pending.Some? && plain != [] then |plain| - 1 else |plain|
    }
  }

  /** A datagram that the NACK thread serves, with the outcomes of its resends. */
  datatype Nack = Nack(fromPeer: bool, bytes: seq<u8>, resent: seq<bool>, now: nat)

  /** `send_frame` is two steps: the socket call, and under the lock the record of it, some time
      later. */
  datatype Event =
    | Transmit(opus: seq<u8>, delivered: bool, now: nat)
    | Record(elapsed: nat)
    | Datagram(nack: Nack)

  function NewSender(): Sender
  {
    Sender(0, 0, seq(HISTORY_FRAMES, i => None), None, None, [], [])
  }

  predicate Usable(cfg: Config, s: Sender) { cfg.Valid() && |s.slots| == HISTORY_FRAMES }

  function Transmitted(cfg: Config, s: Sender, opus: seq<u8>, delivered: bool, now: nat): Sender
    requires Usable(cfg, s)
  {
    if !delivered || s.pending.Some? then s else
      var packet := PacketOf(cfg, opus, s.frameId);
      s.(pending := Some(Pending(opus, packet, now)),
         wire := s.wire + [Tx(s.frameId, packet, now, |s.plain| + 1, |s.plain|)],
         plain := s.plain + [opus])
  }

  function RecordPending(s: Sender, elapsed: nat): Sender
    requires |s.slots| == HISTORY_FRAMES
  {
    if s.pending.None? then s else
      var p, id := s.pending.value, s.frameId;
      s.(frameId := (id + 1) % TWO32,
         octets := (s.octets + |p.opus|) % TWO64,
         slots := s.slots[id % HISTORY_FRAMES := Some(SentPacket(id, p.packet, p.at + elapsed))],
         lastSent := Some(id),
         pending := None)
  }

  /** `History::get_mut`: the entry of the frame's slot if it is for that frame. */
  function Lookup(slots: seq<Option<SentPacket>>, frameId: u32): Option<SentPacket>
    requires |slots| == HISTORY_FRAMES
  {
    match slots[frameId % HISTORY_FRAMES]
    case None => None
    case Some(sent) => if sent.frameId == frameId then Some(sent) else None
  }

  /** The slot holds the frame and its last transmission is at least 20 ms back. */
  predicate Due(s: Sender, frameId: u32, now: nat)
    requires |s.slots| == HISTORY_FRAMES
  {
    match Lookup(s.slots, frameId)
    case None => false
    case Some(sent) => now >= sent.sentAt + MIN_RESEND_INTERVAL
  }

  function Resend(s: Sender, frameId: u32, delivered: bool, now: nat): Sender
    requires |s.slots| == HISTORY_FRAMES && s.lastSent.Some?
  {
    if !Due(s, frameId, now) || !delivered then s else
      var slot := frameId % HISTORY_FRAMES;
      var sent := s.slots[slot].value;
      s.(slots := s.slots[slot := Some(sent.(sentAt := now))],
         wire := s.wire + [Tx(frameId, sent.packet, now, |s.plain|, s.Recorded())])
  }

  predicate Delivered(delivered: seq<bool>, i: nat) { i < |delivered| && delivered[i] }

  function ResendFirst(s: Sender, frames: seq<u32>, delivered: seq<bool>, now: nat, n: nat): (t: Sender)
    requires |s.slots| == HISTORY_FRAMES && s.lastSent.Some? && n <= |frames|
    ensures |t.slots| == HISTORY_FRAMES && t == s.(slots := t.slots, wire := t.wire)
  {
    if n == 0 then s
    else Resend(ResendFirst(s, frames, delivered, now, n - 1), frames[n - 1], Delivered(delivered, n - 1), now)
  }

  function Feedback(cfg: Config, s: Sender, nack: Nack): Sender
    requires Usable(cfg, s)
  {
    if !nack.fromPeer || s.lastSent.None? then s else
      var frames := NackedFrames(nack.bytes, cfg.ssrc, s.lastSent.value);
      ResendFirst(s, frames, nack.resent, nack.now, |frames|)
  }

  function Step(cfg: Config, s: Sender, e: Event): (t: Sender)
    requires Usable(cfg, s)
    ensures Usable(cfg, t) && |s.plain| <= |t.plain|
  {
    match e
    case Transmit(opus, delivered, now) => Transmitted(cfg, s, opus, delivered, now)
    case Record(elapsed) => RecordPending(s, elapsed)
    case Datagram(nack) => Feedback(cfg, s, nack)
  }

  function Run(cfg: Config, events: seq<Event>): (s: Sender)
    requires cfg.Valid()
    ensures Usable(cfg, s)
  {
    if events == [] then NewSender() else Step(cfg, Run(cfg, events[..|events| - 1]), events[|events| - 1])
  }

  /** The events without the sends that failed. */
  function Succeeded(events: seq<Event>): seq<Event>
  {
    if events == [] then []
    else Succeeded(events[..|events| - 1])
         + if events[|events| - 1].Transmit? && !events[|events| - 1].delivered then [] else [events[|events| - 1]]
  }

  /** Failed sends are invisible: whatever was sent, resent and recorded over a run is what it would
      have been had they not been tried. */
  lemma {:induction false} FailuresAreInvisible(cfg: Config, events: seq<Event>)
    requires cfg.Valid()
    ensures Run(cfg, events) == Run(cfg, Succeeded(events))
  {
    hide PacketOf, Feedback;
    if events != [] {
      var before, e := events[..|events| - 1], events[|events| - 1];
      FailuresAreInvisible(cfg, before);
      var kept := Succeeded(before);
      assert (kept + [e])[..|kept|] == kept && kept + [] == kept;
    }
  }

  // ---- The history window ----

  function Id(i: nat): u32 { i % TWO32 }

  /** Which frame ID a slot holds after `n` consecutive sends. */
  function SlotAfter(n: nat, slot: nat): Option<u32>
  {
    if n == 0 then None
    else if Id(n - 1) % HISTORY_FRAMES == slot then Some(Id(n - 1))
    else SlotAfter(n - 1, slot)
  }

  /** `History::get_mut` after `n` sends finds an entry for `frameId`. */
  predicate Found(n: nat, frameId: u32)
  {
    SlotAfter(n, frameId % HISTORY_FRAMES) == Some(frameId)
  }

  /** The number, counted from zero, of the last of `n` frames with this ID. */
  function SendNumber(n: nat, frameId: u32): int
    requires n > 0
  {
    n - 1 - Minus32(Id(n - 1), frameId)
  }

  lemma NumberHasId(n: nat, frameId: u32)
    requires n > 0 && SendNumber(n, frameId) >= 0
    ensures Id(SendNumber(n, frameId)) == frameId && SendNumber(n, frameId) < n
  {
  }

  /** Another frame with another ID leaves the number as it is. */
  lemma NumberStays(n: nat, frameId: u32)
    requires n > 0 && frameId != Id(n)
    ensures SendNumber(n + 1, frameId) == SendNumber(n, frameId)
  {
  }

  /** The sender is not within 119 sends after the 32-bit frame ID has wrapped. */
  predicate ClearOfWrap(n: nat)
  {
    n <= TWO32 || (n - 1) % TWO32 >= HISTORY_FRAMES - 1
  }

  /** `frameId` is the ID of one of the last 120 of `n` frames. */
  predicate InWindow(n: nat, frameId: u32)
  {
    n > 0 && Minus32(Id(n - 1), frameId) < HISTORY_FRAMES && Minus32(Id(n - 1), frameId) < n
  }

  lemma {:induction false} SlotKeeps(n: nat, i: nat)
    requires i < n
    requires forall k :: i < k < n ==> Id(k) % HISTORY_FRAMES != Id(i) % HISTORY_FRAMES
    ensures SlotAfter(n, Id(i) % HISTORY_FRAMES) == Some(Id(i))
  {
    if i < n - 1 { SlotKeeps(n - 1, i); }
  }

  lemma {:induction false} SlotNeverUsed(n: nat, slot: nat)
    requires n <= slot < HISTORY_FRAMES
    ensures SlotAfter(n, slot) == None
  {
    if n > 0 { SlotNeverUsed(n - 1, slot); }
  }

  lemma NoSlots(slot: nat)
    ensures SlotAfter(0, slot) == None
  {
  }

  lemma IdInPass(pass: nat, k: nat)
    requires k < TWO32
    ensures Id(pass * TWO32 + k) == k
  {
  }

  /** Within one pass over the 32-bit IDs, the newest frame of a residue class keeps its slot. */
  lemma KeptInPass(pass: nat, m: nat, f: nat)
    requires f < m <= TWO32 && m - f <= HISTORY_FRAMES
    ensures SlotAfter(pass * TWO32 + m, f % HISTORY_FRAMES) == Some(f)
  {
    hide Id;
    var n, i := pass * TWO32 + m, pass * TWO32 + f;
    IdInPass(pass, f);
    forall k | i < k < n ensures Id(k) % HISTORY_FRAMES != f % HISTORY_FRAMES {
      IdInPass(pass, k - pass * TWO32);
      NearbySlotsDiffer(f, k - pass * TWO32);
    }
    SlotKeeps(n, i);
  }

  lemma NearbySlotsDiffer(f: nat, g: nat)
    requires f < g < f + HISTORY_FRAMES
    ensures f % HISTORY_FRAMES != g % HISTORY_FRAMES
  {
  }

  /** What a slot holds when it was written in the current pass, or never. */
  lemma SlotInPass(pass: nat, m: nat, slot: nat)
    requires 0 < m <= TWO32 && slot < HISTORY_FRAMES && (pass == 0 || slot < m)
    ensures match SlotAfter(pass * TWO32 + m, slot)
      case None => slot >= m
      case Some(f) => f < m <= f + HISTORY_FRAMES && f % HISTORY_FRAMES == slot
  {
    hide SlotAfter;
    if slot >= m {
      SlotNeverUsed(m, slot);
    } else {
      var f := NewestOfSlot(m, slot);
      KeptInPass(pass, m, f);
    }
  }

  lemma NewestOfSlot(m: nat, slot: nat) returns (f: nat)
    requires slot < HISTORY_FRAMES && slot < m
    ensures f < m <= f + HISTORY_FRAMES && f % HISTORY_FRAMES == slot
  {
    f := m - 1 - (m - 1 - slot) % HISTORY_FRAMES;
  }

  /** Exactness of the 120-frame window. It holds after every number of sends except the first
      119 after the 32-bit frame ID has wrapped: 120 does not divide 2^32. */
  lemma WindowExactIff(n: nat)
    requires n > 0
    ensures (forall f: u32 :: Found(n, f) <==> InWindow(n, f))
      <==> ClearOfWrap(n)
  {
    var pass, m := (n - 1) / TWO32, (n - 1) % TWO32 + 1;
    assert n == pass * TWO32 + m && (n <= TWO32 <==> pass == 0);
    if pass == 0 || m >= HISTORY_FRAMES {
      forall f: u32 ensures Found(n, f) <==> InWindow(n, f) {
        SlotInPass(pass, m, f % HISTORY_FRAMES);
        if InWindow(n, f) {
          InWindowInPass(pass, m, f);
          KeptInPass(pass, m, f);
        }
      }
    } else {
      var f: u32 := if m <= 104 then TWO32 - 16 else TWO32 - 1;
      KeptInPass(pass, m, f % HISTORY_FRAMES);
      assert InWindow(n, f) && !Found(n, f);
    }
  }

  lemma InWindowInPass(pass: nat, m: nat, f: u32)
    requires 0 < m <= TWO32 && (pass == 0 || m >= HISTORY_FRAMES)
    requires InWindow(pass * TWO32 + m, f)
    ensures f < m <= f + HISTORY_FRAMES
  {
    assert Id(pass * TWO32 + m - 1) == m - 1;
  }

  lemma {:induction false} SlotUntouched(n: nat, more: nat, slot: nat)
    requires forall k :: n <= k < n + more ==> Id(k) % HISTORY_FRAMES != slot
    ensures SlotAfter(n + more, slot) == SlotAfter(n, slot)
  {
    if more > 0 { SlotUntouched(n, more - 1, slot); }
  }

  /** Whatever a slot holds is at most 135 frames behind the newest: between two uses of a slot lie
      120 frames, or 136 across the wrap, and 16 for the first slots. */
  lemma SlotAge(n: nat, slot: nat)
    requires n > 0 && slot < HISTORY_FRAMES && SlotAfter(n, slot).Some?
    ensures var f := SlotAfter(n, slot).value;
      var m := (n - 1) % TWO32 + 1;
      && f % HISTORY_FRAMES == slot && SendNumber(n, f) >= 0
      && (if n <= TWO32 || slot < m then n - 1 - SendNumber(n, f) < HISTORY_FRAMES
          else n - 1 - SendNumber(n, f) == m + if slot < 16 then 15 - slot else 135 - slot)
  {
    hide SlotAfter;
    var pass, m := (n - 1) / TWO32, (n - 1) % TWO32 + 1;
    assert n == pass * TWO32 + m && (n <= TWO32 <==> pass == 0) && Id(n - 1) == m - 1;
    if pass == 0 || slot < m {
      SlotInPass(pass, m, slot);
      AgeInPass(n, m, SlotAfter(n, slot).value);
    } else {
      SlotFromBefore(n, pass, m, slot);
      AgeAcrossWrap(n, m, SlotAfter(n, slot).value, slot);
    }
  }

  /** A slot that the current pass has not come to holds what the pass before left there. */
  lemma SlotFromBefore(n: nat, pass: nat, m: nat, slot: nat)
    requires pass > 0 && n == pass * TWO32 + m && 0 < m <= slot < HISTORY_FRAMES
    ensures match SlotAfter(n, slot)
      case None => false
      case Some(f) => f < TWO32 <= f + HISTORY_FRAMES && f % HISTORY_FRAMES == slot
  {
    hide SlotAfter;
    forall k | pass * TWO32 <= k < n ensures Id(k) % HISTORY_FRAMES != slot {
      IdInPass(pass, k - pass * TWO32);
    }
    SlotUntouched(pass * TWO32, m, slot);
    assert (pass - 1) * TWO32 + TWO32 == pass * TWO32;
    SlotInPass(pass - 1, TWO32, slot);
  }

  lemma AgeInPass(n: nat, m: nat, f: u32)
    requires 0 < m <= n && Id(n - 1) == m - 1 && f < m <= f + HISTORY_FRAMES
    ensures SendNumber(n, f) >= 0 && n - 1 - SendNumber(n, f) < HISTORY_FRAMES
  {
  }

  lemma AgeAcrossWrap(n: nat, m: nat, f: u32, slot: nat)
    requires n > TWO32 && 0 < m <= slot < HISTORY_FRAMES && Id(n - 1) == m - 1
    requires TWO32 <= f + HISTORY_FRAMES && f % HISTORY_FRAMES == slot
    ensures SendNumber(n, f) >= 0
    ensures n - 1 - SendNumber(n, f) == m + if slot < 16 then 15 - slot else 135 - slot
  {
    var d := TWO32 - f;
    assert TWO32 % HISTORY_FRAMES == 16;
    assert (slot + d) % HISTORY_FRAMES == 16;
    assert d == if slot < 16 then 16 - slot else 136 - slot;
  }

  /** The slot holds a frame more than `age` behind the newest. */
  predicate OlderThan(n: nat, slot: nat, age: nat)
    requires n > 0
  {
    SlotAfter(n, slot).Some? && n - 1 - SendNumber(n, SlotAfter(n, slot).value) > age
  }

  /** After `n` sends a slot may be too old by so many frames of slack. */
  predicate NearWrap(n: nat, age: nat)
  {
    n > TWO32 && age - 118 <= (n - 1) % TWO32 + 1 < HISTORY_FRAMES
  }

  /** Exactly when some frame in the history is more than `age` frames old, for any age from 119 to
      134: only in a stretch of sends right after a wrap. */
  lemma SlotOlderIff(n: nat, age: nat)
    requires n > 0 && HISTORY_FRAMES - 1 <= age <= 134
    ensures (exists slot: nat :: slot < HISTORY_FRAMES && OlderThan(n, slot, age)) <==> NearWrap(n, age)
  {
    var pass, m := (n - 1) / TWO32, (n - 1) % TWO32 + 1;
    forall slot: nat | slot < HISTORY_FRAMES && OlderThan(n, slot, age) ensures NearWrap(n, age) {
      SlotAge(n, slot);
    }
    if NearWrap(n, age) {
      var slot := if m < 16 then 16 else m;
      SlotFromBefore(n, pass, m, slot);
      SlotAge(n, slot);
      assert OlderThan(n, slot, age);
    }
  }

  // ---- Runs ----

  /** The history of any run, however long, is that of consecutive sends: failures leave no gap
      and retransmissions leave the IDs alone. */
  ghost predicate Tracks(s: Sender)
  {
    var n := s.Recorded();
    && |s.slots| == HISTORY_FRAMES
    && (s.pending.Some? ==> s.plain != [])
    && s.frameId == Id(n)
    && s.lastSent == (if n == 0 then None else Some(Id(n - 1)))
    && forall p :: 0 <= p < HISTORY_FRAMES ==>
         match s.slots[p]
         case None => SlotAfter(n, p) == None
         case Some(sent) => SlotAfter(n, p) == Some(sent.frameId)
  }

  lemma {:induction false} ResendsTrack(s: Sender, frames: seq<u32>, delivered: seq<bool>, now: nat, n: nat)
    requires Tracks(s) && s.lastSent.Some? && n <= |frames|
    ensures Tracks(ResendFirst(s, frames, delivered, now, n))
  {
    if n > 0 {
      hide Tracks;
      ResendsTrack(s, frames, delivered, now, n - 1);
      ResendTracks(ResendFirst(s, frames, delivered, now, n - 1), frames[n - 1], Delivered(delivered, n - 1), now);
    }
  }

  lemma ResendTracks(s: Sender, frameId: u32, delivered: bool, now: nat)
    requires Tracks(s) && s.lastSent.Some?
    ensures |s.slots| == HISTORY_FRAMES && Tracks(Resend(s, frameId, delivered, now))
  {
  }

  lemma TransmitTracks(cfg: Config, s: Sender, opus: seq<u8>, delivered: bool, now: nat)
    requires Tracks(s) && cfg.Valid()
    ensures Usable(cfg, s) && Tracks(Transmitted(cfg, s, opus, delivered, now))
  {
    hide PacketOf;
  }

  lemma RecordTracks(s: Sender, elapsed: nat)
    requires Tracks(s)
    ensures |s.slots| == HISTORY_FRAMES && Tracks(RecordPending(s, elapsed))
  {
    assert (Id(s.Recorded()) + 1) % TWO32 == Id(s.Recorded() + 1);
  }

  lemma FeedbackTracks(cfg: Config, s: Sender, nack: Nack)
    requires Tracks(s) && cfg.Valid()
    ensures Usable(cfg, s) && Tracks(Feedback(cfg, s, nack))
  {
    hide NackedFrames, SlotAfter;
    if nack.fromPeer && s.lastSent.Some? {
      var frames := NackedFrames(nack.bytes, cfg.ssrc, s.lastSent.value);
      ResendsTrack(s, frames, nack.resent, nack.now, |frames|);
    }
  }

  lemma {:induction false} RunTracks(cfg: Config, events: seq<Event>)
    requires cfg.Valid()
    ensures Tracks(Run(cfg, events))
  {
    if events != [] {
      hide Tracks;
      RunTracks(cfg, events[..|events| - 1]);
      var s := Run(cfg, events[..|events| - 1]);
      match events[|events| - 1] {
        case Transmit(opus, delivered, now) => TransmitTracks(cfg, s, opus, delivered, now);
        case Record(elapsed) => RecordTracks(s, elapsed);
        case Datagram(nack) => FeedbackTracks(cfg, s, nack);
      }
    } else {
      NewTracks();
    }
  }

  lemma NewTracks()
    ensures Tracks(NewSender())
  {
  }

  function Bytes(plain: seq<seq<u8>>): nat
  {
    if plain == [] then 0 else Bytes(plain[..|plain| - 1]) + |plain[|plain| - 1]|
  }

  /** The octet counter counts the payload bytes of the frames recorded, resends not included. */
  lemma {:induction false} OctetsCounted(cfg: Config, events: seq<Event>)
    requires cfg.Valid()
    ensures var s := Run(cfg, events);
      s.octets == Bytes(s.plain[..s.Recorded()]) % TWO64
      && (s.pending.Some? ==> s.plain != [] && s.pending.value.opus == s.plain[|s.plain| - 1])
  {
    if events != [] {
      OctetsCounted(cfg, events[..|events| - 1]);
      StepOctets(cfg, Run(cfg, events[..|events| - 1]), events[|events| - 1]);
    }
  }

  lemma StepOctets(cfg: Config, s: Sender, e: Event)
    requires Usable(cfg, s) && s.octets == Bytes(s.plain[..s.Recorded()]) % TWO64
    requires s.pending.Some? ==> s.plain != [] && s.pending.value.opus == s.plain[|s.plain| - 1]
    ensures var t := Step(cfg, s, e);
      t.octets == Bytes(t.plain[..t.Recorded()]) % TWO64
      && (t.pending.Some? ==> t.plain != [] && t.pending.value.opus == t.plain[|t.plain| - 1])
  {
    hide PacketOf, ResendFirst, NackedFrames, Bytes;
    var t, n := Step(cfg, s, e), |s.plain|;
    match e {
      case Transmit(opus, delivered, now) =>
        if delivered && s.pending.None? { assert t.plain[..n] == s.plain[..n]; }
      case Record(elapsed) =>
        if s.pending.Some? {
          BytesSnoc(s.plain[..n - 1], s.plain[n - 1]);
          assert s.plain[..n] == s.plain[..n - 1] + [s.plain[n - 1]];
        }
      case Datagram(nack) =>
    }
  }

  lemma BytesSnoc(plain: seq<seq<u8>>, opus: seq<u8>)
    ensures Bytes(plain + [opus]) == Bytes(plain) + |opus|
    ensures (Bytes(plain) % TWO64 + |opus|) % TWO64 == (Bytes(plain) + |opus|) % TWO64
  {
    assert (plain + [opus])[..|plain|] == plain;
    hide Bytes;
  }

  /** The number of the frame that a datagram carries. */
  function Index(tx: Tx): int
  {
    if tx.sent == 0 then -1 else SendNumber(tx.sent, tx.frameId)
  }

  ghost predicate OnWire(s: Sender, k: nat)
  {
    exists i :: 0 <= i < |s.wire| && Index(s.wire[i]) == k
  }

  /** How many frames newer than its own were sent when a datagram left. */
  function Age(tx: Tx): int { tx.sent - 1 - Index(tx) }

  /** Frame `k` is in a history of `recorded` frames: at most 135 behind the newest of them, at most
      119 clear of the wrap, and at most 127 outside a stretch of 111 sends after it. */
  predicate InHistory(k: int, recorded: nat)
  {
    && 0 <= k < recorded <= k + 136
    && (ClearOfWrap(recorded) ==> recorded <= k + HISTORY_FRAMES)
    && (!NearWrap(recorded, 127) ==> recorded <= k + 128)
  }

  /** One wire datagram is a first transmission, or the packet of a frame in the history. */
  ghost predicate Genuine(cfg: Config, s: Sender, tx: Tx)
    requires cfg.Valid()
  {
    && 0 <= Index(tx) < tx.sent <= |s.plain| && tx.recorded <= tx.sent <= tx.recorded + 1
    && (Index(tx) == tx.recorded || InHistory(Index(tx), tx.recorded))
    && tx.packet == PacketOf(cfg, s.plain[Index(tx)], tx.frameId)
  }

  ghost predicate Spaced(s: Sender)
  {
    forall i, j :: 0 <= i < j < |s.wire| && Index(s.wire[i]) == Index(s.wire[j])
      ==> s.wire[j].at >= s.wire[i].at + MIN_RESEND_INTERVAL
  }

  /** No datagram with this frame left after `at`. */
  ghost predicate SentBy(s: Sender, k: int, at: nat)
  {
    forall i :: 0 <= i < |s.wire| && Index(s.wire[i]) == k ==> s.wire[i].at <= at
  }

  /** A slot's entry is the frame last recorded with its ID, and records its latest transmission. */
  ghost predicate SlotGenuine(cfg: Config, s: Sender, sent: SentPacket)
    requires cfg.Valid()
  {
    && s.Recorded() > 0 && var k := SendNumber(s.Recorded(), sent.frameId);
    && 0 <= k < s.Recorded()
    && sent.packet == PacketOf(cfg, s.plain[k], sent.frameId)
    && SentBy(s, k, sent.sentAt)
  }

  ghost predicate SlotsGenuine(cfg: Config, s: Sender)
    requires cfg.Valid() && |s.slots| == HISTORY_FRAMES
  {
    forall p :: 0 <= p < HISTORY_FRAMES && s.slots[p].Some? ==> SlotGenuine(cfg, s, s.slots[p].value)
  }

  ghost predicate PendingGenuine(cfg: Config, s: Sender)
    requires cfg.Valid()
  {
    s.pending.Some? ==>
      && s.plain != []
      && s.pending.value.packet == PacketOf(cfg, s.plain[|s.plain| - 1], s.frameId)
      && SentBy(s, |s.plain| - 1, s.pending.value.at)
  }

  ghost predicate SenderInv(cfg: Config, s: Sender)
    requires cfg.Valid()
  {
    && Tracks(s)
    && SlotsGenuine(cfg, s)
    && PendingGenuine(cfg, s)
    && (forall i :: 0 <= i < |s.wire| ==> Genuine(cfg, s, s.wire[i]))
    && (forall k :: 0 <= k < |s.plain| ==> OnWire(s, k))
    && Spaced(s)
  }

  lemma SlotIs(s: Sender, p: nat)
    requires Tracks(s) && p < HISTORY_FRAMES && s.slots[p].Some?
    ensures s.Recorded() > 0 && s.slots[p].value.frameId % HISTORY_FRAMES == p
    ensures InHistory(SendNumber(s.Recorded(), s.slots[p].value.frameId), s.Recorded())
    ensures s.slots[p].value.frameId != Id(s.Recorded())
  {
    var n, f := s.Recorded(), s.slots[p].value.frameId;
    NoSlots(p);
    SlotAge(n, p);
    NumberHasId(n, f);
    NotNext(n, f);
  }

  lemma NotNext(n: nat, f: u32)
    requires n > 0 && 0 <= SendNumber(n, f) && n - 1 - SendNumber(n, f) <= 135
    ensures f != Id(n)
  {
  }

  lemma SameIndex(tx: Tx, n: nat, f: u32)
    requires n > 0 && tx.frameId == f && f != Id(n) && (tx.sent == n || tx.sent == n + 1)
    ensures Index(tx) == SendNumber(n, f)
  {
    NumberStays(n, f);
  }

  lemma NewestIndex(tx: Tx, n: nat)
    requires tx.sent == n + 1 && tx.frameId == Id(n)
    ensures Index(tx) == n
  {
  }

  // One datagram more on the wire.

  lemma GrownWire(cfg: Config, s: Sender, t: Sender, tx: Tx)
    requires cfg.Valid() && t.wire == s.wire + [tx] && s.plain <= t.plain
    requires forall i :: 0 <= i < |s.wire| ==> Genuine(cfg, s, s.wire[i])
    requires forall k :: 0 <= k < |s.plain| ==> OnWire(s, k)
    requires Genuine(cfg, t, tx) && |t.plain| <= |s.plain| + 1
    requires |t.plain| == |s.plain| + 1 ==> Index(tx) == |s.plain|
    requires Spaced(s)
    requires forall i :: 0 <= i < |s.wire| && Index(s.wire[i]) == Index(tx) ==>
      tx.at >= s.wire[i].at + MIN_RESEND_INTERVAL
    ensures forall i :: 0 <= i < |t.wire| ==> Genuine(cfg, t, t.wire[i])
    ensures forall k :: 0 <= k < |t.plain| ==> OnWire(t, k)
    ensures Spaced(t)
  {
    hide PacketOf, Index, InHistory;
    forall i | 0 <= i < |t.wire| ensures Genuine(cfg, t, t.wire[i]) {
      if i < |s.wire| { assert Genuine(cfg, s, s.wire[i]); }
    }
    forall k | 0 <= k < |t.plain| ensures OnWire(t, k) {
      if k < |s.plain| {
        assert OnWire(s, k);
        var i :| 0 <= i < |s.wire| && Index(s.wire[i]) == k;
        assert Index(t.wire[i]) == k;
      } else {
        assert Index(t.wire[|s.wire|]) == k;
      }
    }
  }

  lemma TransmitInv(cfg: Config, s: Sender, opus: seq<u8>, delivered: bool, now: nat)
    requires cfg.Valid() && SenderInv(cfg, s)
    ensures Usable(cfg, s) && SenderInv(cfg, Transmitted(cfg, s, opus, delivered, now))
  {
    hide PacketOf, InHistory;
    TransmitTracks(cfg, s, opus, delivered, now);
    if delivered && s.pending.None? {
      var t, n := Transmitted(cfg, s, opus, delivered, now), |s.plain|;
      var tx := t.wire[|s.wire|];
      NewestIndex(tx, n);
      hide Index, Tracks;
      forall i | 0 <= i < |s.wire| ensures Index(s.wire[i]) < n { assert Genuine(cfg, s, s.wire[i]); }
      GrownWire(cfg, s, t, tx);
      forall p | 0 <= p < HISTORY_FRAMES && t.slots[p].Some? ensures SlotGenuine(cfg, t, t.slots[p].value) {
        assert SlotGenuine(cfg, s, s.slots[p].value);
      }
    }
  }

  lemma RecordInv(cfg: Config, s: Sender, elapsed: nat)
    requires cfg.Valid() && SenderInv(cfg, s)
    ensures |s.slots| == HISTORY_FRAMES && SenderInv(cfg, RecordPending(s, elapsed))
  {
    hide PacketOf, InHistory, Index;
    RecordTracks(s, elapsed);
    if s.pending.Some? {
      var t, n := RecordPending(s, elapsed), s.Recorded();
      assert s.frameId == Id(n) && SendNumber(n + 1, Id(n)) == n;
      forall p | 0 <= p < HISTORY_FRAMES && t.slots[p].Some? ensures SlotGenuine(cfg, t, t.slots[p].value) {
        if p != Id(n) % HISTORY_FRAMES {
          SlotIs(s, p);
          assert SlotGenuine(cfg, s, s.slots[p].value);
          NumberStays(n, s.slots[p].value.frameId);
        }
      }
      forall i | 0 <= i < |t.wire| ensures Genuine(cfg, t, t.wire[i]) { assert Genuine(cfg, s, s.wire[i]); }
      forall k | 0 <= k < |t.plain| ensures OnWire(t, k) { assert OnWire(s, k); }
    }
  }

  lemma ResendInv(cfg: Config, s: Sender, frameId: u32, delivered: bool, now: nat)
    requires cfg.Valid() && SenderInv(cfg, s) && s.lastSent.Some?
    ensures |s.slots| == HISTORY_FRAMES && SenderInv(cfg, Resend(s, frameId, delivered, now))
  {
    hide PacketOf;
    ResendTracks(s, frameId, delivered, now);
    if Due(s, frameId, now) && delivered {
      var t, slot, n := Resend(s, frameId, delivered, now), frameId % HISTORY_FRAMES, s.Recorded();
      var tx := t.wire[|s.wire|];
      SlotIs(s, slot);
      SameIndex(tx, n, frameId);
      hide SlotAfter, InHistory;
      assert SlotGenuine(cfg, s, s.slots[slot].value);
      GrownWire(cfg, s, t, tx);
      forall p | 0 <= p < HISTORY_FRAMES && t.slots[p].Some? ensures SlotGenuine(cfg, t, t.slots[p].value) {
        assert SlotGenuine(cfg, s, s.slots[p].value);
        if p != slot {
          SlotIs(s, p);
          OtherNumber(n, frameId, s.slots[p].value.frameId);
        }
      }
    }
  }

  lemma OtherNumber(n: nat, f: u32, g: u32)
    requires n > 0 && f != g
    ensures SendNumber(n, f) != SendNumber(n, g)
  {
  }

  lemma {:induction false} ResendsInv(cfg: Config, s: Sender, frames: seq<u32>, delivered: seq<bool>, now: nat, n: nat)
    requires cfg.Valid() && SenderInv(cfg, s) && s.lastSent.Some? && |s.slots| == HISTORY_FRAMES && n <= |frames|
    ensures SenderInv(cfg, ResendFirst(s, frames, delivered, now, n))
  {
    if n > 0 {
      hide SenderInv;
      ResendsInv(cfg, s, frames, delivered, now, n - 1);
      ResendInv(cfg, ResendFirst(s, frames, delivered, now, n - 1), frames[n - 1], Delivered(delivered, n - 1), now);
    }
  }

  lemma NewSenderInv(cfg: Config)
    requires cfg.Valid()
    ensures SenderInv(cfg, NewSender())
  {
  }

  lemma {:induction false} RunInv(cfg: Config, events: seq<Event>)
    requires cfg.Valid()
    ensures SenderInv(cfg, Run(cfg, events))
  {
    if events == [] {
      NewSenderInv(cfg);
    } else {
      hide SenderInv, NackedFrames, PacketOf;
      RunInv(cfg, events[..|events| - 1]);
      var s := Run(cfg, events[..|events| - 1]);
      match events[|events| - 1] {
        case Transmit(opus, delivered, now) => TransmitInv(cfg, s, opus, delivered, now);
        case Record(elapsed) => RecordInv(cfg, s, elapsed);
        case Datagram(nack) =>
          if nack.fromPeer && s.lastSent.Some? {
            var frames := NackedFrames(nack.bytes, cfg.ssrc, s.lastSent.value);
            ResendsInv(cfg, s, frames, nack.resent, nack.now, |frames|);
          }
      }
    }
  }

  /** Safety of every session of any length, whatever feedback arrives, also in the middle of a send,
      and whichever datagrams fail to leave. Datagrams that carry the same frame are identical and
      recorded at least 20 ms apart. What a datagram carries is at most 136 frames old, at most 120
      clear of the wrap of the 32-bit ID. A receiver whose newest frame is that one or a later one
      recovers it if and only if it is within 128 of that newest, which is always so but for
      datagrams that leave in a stretch of 111 sends after the wrap. And every frame counted as sent
      did leave. */
  lemma RunSafety(cfg: Config, events: seq<Event>)
    requires cfg.Valid()
    ensures var s := Run(cfg, events);
      && (forall i, j :: 0 <= i < j < |s.wire| && Index(s.wire[i]) == Index(s.wire[j]) ==>
            s.wire[i].packet == s.wire[j].packet
            && s.wire[j].at >= s.wire[i].at + MIN_RESEND_INTERVAL)
      && (forall i :: 0 <= i < |s.wire| ==> Fresh(cfg, s, s.wire[i]))
      && (forall k :: 0 <= k < |s.plain| ==> OnWire(s, k))
  {
    RunInv(cfg, events);
    hide PacketOf, Recover, Run, Tracks, SlotsGenuine, Index, Fresh, InHistory;
    var s := Run(cfg, events);
    forall i | 0 <= i < |s.wire| ensures Fresh(cfg, s, s.wire[i]) {
      GenuineIsFresh(cfg, s, s.wire[i]);
    }
    forall i, j | 0 <= i < j < |s.wire| && Index(s.wire[i]) == Index(s.wire[j])
      ensures s.wire[i].packet == s.wire[j].packet
    {
      assert Genuine(cfg, s, s.wire[i]) && Genuine(cfg, s, s.wire[j]);
      IndexHasId(s.wire[i]);
      IndexHasId(s.wire[j]);
    }
  }

  lemma IndexHasId(tx: Tx)
    requires Index(tx) >= 0
    ensures Id(Index(tx)) == tx.frameId && Index(tx) < tx.sent
  {
    NumberHasId(tx.sent, tx.frameId);
  }

  /** How old the frame of a datagram is, and what receivers make of it. */
  ghost predicate Fresh(cfg: Config, s: Sender, tx: Tx)
    requires cfg.Valid()
  {
    && 0 <= Index(tx) < tx.sent <= |s.plain| && tx.frameId == Id(Index(tx))
    && tx.recorded <= tx.sent <= tx.recorded + 1
    && Age(tx) <= 136 && (tx.sent == tx.recorded ==> Age(tx) <= 135)
    && (ClearOfWrap(tx.recorded) ==> Age(tx) <= 120 && (tx.sent == tx.recorded ==> Age(tx) <= 119))
    && (!NearWrap(tx.recorded, 127) ==> Age(tx) <= 128)
    && |tx.packet| >= 19
    && forall newest :: Index(tx) <= newest < tx.sent ==> RecoveredBy(cfg, s, tx, newest)
  }

  /** A receiver recovers a datagram if and only if its frame is within 128 of its newest. */
  ghost predicate RecoveredBy(cfg: Config, s: Sender, tx: Tx, newest: nat)
    requires cfg.Valid() && |tx.packet| >= 19 && 0 <= Index(tx) < |s.plain|
  {
    Recover(cfg, tx.packet, Id(newest)) == (tx.frameId, s.plain[Index(tx)]) <==> newest - Index(tx) <= 128
  }

  lemma GenuineIsFresh(cfg: Config, s: Sender, tx: Tx)
    requires cfg.Valid() && Genuine(cfg, s, tx)
    ensures Fresh(cfg, s, tx)
  {
    hide PacketOf, Recover;
    IndexHasId(tx);
    PacketRecovers(cfg, s.plain[Index(tx)], tx.frameId, Id(tx.sent - 1));
    forall newest | Index(tx) <= newest < tx.sent ensures RecoveredBy(cfg, s, tx, newest) {
      PacketRecovers(cfg, s.plain[Index(tx)], tx.frameId, Id(newest));
      NearInTime(Index(tx), newest);
    }
  }

  lemma NearInTime(k: nat, newest: nat)
    requires k <= newest <= k + 136
    ensures Near(Id(newest), Id(k)) <==> newest - k <= 128
  {
    assert Minus32(Id(newest), Id(k)) == newest - k;
  }

  /** Equal keystream counters in two datagrams of a session mean the same place in frames a whole
      number of 2^32 apart; so up to 2^32 frames no keystream block covers two payloads, and beyond
      that exactly the frames that share an ID do. */
  lemma CountersUsedOnce(cfg: Config, events: seq<Event>, i: nat, j: nat, k: nat, l: nat)
    requires cfg.Valid()
    requires i < |Run(cfg, events).wire| && j < |Run(cfg, events).wire| && k < TWO32 && l < TWO32
    ensures var (a, b) := (Run(cfg, events).wire[i], Run(cfg, events).wire[j]);
      && (Counter(cfg, a.frameId, k) == Counter(cfg, b.frameId, l)
          <==> k == l && (Index(a) - Index(b)) % TWO32 == 0)
      && (Counter(cfg, a.frameId, k) == Counter(cfg, b.frameId, l) && |Run(cfg, events).plain| <= TWO32 ==>
            Index(a) == Index(b) && a.packet == b.packet)
  {
    hide Run, Counter, Index, Id;
    var (a, b) := (Run(cfg, events).wire[i], Run(cfg, events).wire[j]);
    SamePacket(cfg, events, i, j);
    SameId(Index(a), Index(b));
    if Counter(cfg, a.frameId, k) == Counter(cfg, b.frameId, l) {
      CountersDistinct(cfg, a.frameId, k, b.frameId, l);
    }
  }

  /** The payload that a datagram of a run carries. */
  function Plain(cfg: Config, events: seq<Event>, i: nat): seq<u8>
    requires cfg.Valid() && i < |Run(cfg, events).wire|
  {
    Carries(cfg, events, i);
    Run(cfg, events).plain[Index(Run(cfg, events).wire[i])]
  }

  lemma Carries(cfg: Config, events: seq<Event>, i: nat)
    requires cfg.Valid() && i < |Run(cfg, events).wire|
    ensures var (s, a) := (Run(cfg, events), Run(cfg, events).wire[i]);
      && 0 <= Index(a) < |s.plain| && a.frameId == Id(Index(a))
      && a.packet == PacketOf(cfg, s.plain[Index(a)], a.frameId)
  {
    RunInv(cfg, events);
    hide Run, PacketOf, InHistory, Index, Id;
    var s := Run(cfg, events);
    assert Genuine(cfg, s, s.wire[i]);
    IndexHasId(s.wire[i]);
  }

  /** Two payload bytes in two datagrams of a session are under the same keystream byte, whatever the
      key, if and only if they are at the same place of frames a whole number of 2^32 apart. So up to
      2^32 frames that is the same byte of the same packet. */
  lemma KeyStreamUsedOnce(cfg: Config, events: seq<Event>, i: nat, j: nat, k: nat, l: nat)
    requires cfg.Valid() && i < |Run(cfg, events).wire| && j < |Run(cfg, events).wire|
    requires k < |Plain(cfg, events, i)| && l < |Plain(cfg, events, j)| && k < 16 * TWO32 && l < 16 * TWO32
    ensures var (a, b) := (Run(cfg, events).wire[i], Run(cfg, events).wire[j]);
      var (p, q) := (Plain(cfg, events, i), Plain(cfg, events, j));
      && a.packet == PacketOf(cfg, p, a.frameId) && b.packet == PacketOf(cfg, q, b.frameId)
      && ((forall block ::
             Exposed(cfg.(block := block), p, a.frameId, k) == Exposed(cfg.(block := block), q, b.frameId, l))
          <==> k == l && (Index(a) - Index(b)) % TWO32 == 0)
      && ((Index(a) - Index(b)) % TWO32 == 0 && |Run(cfg, events).plain| <= TWO32 ==>
            Index(a) == Index(b) && a.packet == b.packet)
  {
    hide Run, PacketOf, Exposed, Index, Id;
    Carries(cfg, events, i);
    Carries(cfg, events, j);
    var (a, b) := (Run(cfg, events).wire[i], Run(cfg, events).wire[j]);
    SamePacket(cfg, events, i, j);
    SameId(Index(a), Index(b));
    StreamsMeetIff(cfg, Plain(cfg, events, i), a.frameId, k, Plain(cfg, events, j), b.frameId, l);
  }

  lemma SamePacket(cfg: Config, events: seq<Event>, i: nat, j: nat)
    requires cfg.Valid() && i < |Run(cfg, events).wire| && j < |Run(cfg, events).wire|
    ensures var (s, a, b) := (Run(cfg, events), Run(cfg, events).wire[i], Run(cfg, events).wire[j]);
      && 0 <= Index(a) < |s.plain| && a.frameId == Id(Index(a))
      && 0 <= Index(b) < |s.plain| && b.frameId == Id(Index(b))
      && (Index(a) == Index(b) ==> a.packet == b.packet)
  {
    RunSafety(cfg, events);
    hide Run, OnWire, Index, Recover, Id, Fresh;
    var s := Run(cfg, events);
    FreshIs(cfg, s, s.wire[i]);
    FreshIs(cfg, s, s.wire[j]);
  }

  lemma FreshIs(cfg: Config, s: Sender, tx: Tx)
    requires cfg.Valid() && Fresh(cfg, s, tx)
    ensures 0 <= Index(tx) < tx.sent <= |s.plain| && tx.frameId == Id(Index(tx))
  {
  }

  lemma SameId(a: nat, b: nat)
    ensures Id(a) == Id(b) <==> (a - b) % TWO32 == 0
    ensures Id(a) == Id(b) && a < TWO32 && b < TWO32 ==> a == b
  {
  }

  // ---- A resend that is misread ----

  /** `n` frames sent and recorded, all at time zero. */
  function Sends(n: nat): (events: seq<Event>)
    ensures |events| == 2 * n
  {
    if n == 0 then [] else Sends(n - 1) + [Transmit([], true, 0), Record(0)]
  }

  /** A sender that has sent `n` empty frames, recorded them at time zero, and sends no more. */
  ghost predicate Sat(s: Sender, n: nat)
  {
    && |s.plain| == n && s.pending == None && |s.slots| == HISTORY_FRAMES
    && (forall k :: 0 <= k < n ==> s.plain[k] == [])
    && forall p :: 0 <= p < HISTORY_FRAMES && s.slots[p].Some? ==> s.slots[p].value.sentAt == 0
  }

  lemma {:induction false} AfterSends(cfg: Config, n: nat)
    requires cfg.Valid()
    ensures Sat(Run(cfg, Sends(n)), n)
  {
    if n > 0 {
      hide Sat;
      AfterSends(cfg, n - 1);
      var before, transmit, record := Sends(n - 1), Event.Transmit([], true, 0), Event.Record(0);
      assert Sends(n) == before + [transmit] + [record];
      RunNext(cfg, before, transmit);
      RunNext(cfg, before + [transmit], record);
      SatNext(cfg, Run(cfg, before), n - 1);
    } else {
      assert Sat(NewSender(), 0);
    }
  }

  lemma SatNext(cfg: Config, s: Sender, n: nat)
    requires cfg.Valid() && Sat(s, n)
    ensures Sat(RecordPending(Transmitted(cfg, s, [], true, 0), 0), n + 1)
  {
    hide PacketOf;
  }

  /** The receiver's report that it misses one frame. */
  function Report(cfg: Config, receiver: u32, lost: u32, now: nat): Event
  {
    Datagram(Nack(true, FeedbackPacket(receiver, cfg.ssrc, Minus32(lost, 1), [lost]), [true], now))
  }

  /** The last datagram carries frame 2^32 - 120, sent 135 frames ago, and the receiver that has
      the newest frame reads it as frame 136. */
  ghost predicate EndsMisread(cfg: Config, s: Sender)
    requires cfg.Valid()
  {
    && s.wire != [] && var tx := s.wire[|s.wire| - 1];
    && tx.frameId == TWO32 - 120 && tx.sent == TWO32 + 16 && Age(tx) == 135 && |tx.packet| >= 19
    && Recover(cfg, tx.packet, Id(tx.sent - 1)).0 == 136
  }

  /** Sixteen sends after the wrap the history still holds frame 2^32 - 120, now 135 frames old; a
      receiver that reports it missing gets a datagram that it takes for another frame. */
  lemma StaleResendIsMisread(cfg: Config, receiver: u32)
    requires cfg.Valid()
    ensures EndsMisread(cfg,
      Run(cfg, Sends(TWO32 + 16) + [Report(cfg, receiver, TWO32 - 120, MIN_RESEND_INTERVAL)]))
  {
    var s := Run(cfg, Sends(TWO32 + 16));
    StaleSlot(cfg);
    hide *;
    var opus := s.plain[SendNumber(TWO32 + 16, TWO32 - 120)];
    var report := Report(cfg, receiver, TWO32 - 120, MIN_RESEND_INTERVAL);
    RunNext(cfg, Sends(TWO32 + 16), report);
    ReportServed(cfg, receiver, s, PacketOf(cfg, opus, TWO32 - 120));
    LastIsMisread(cfg, Run(cfg, Sends(TWO32 + 16) + [report]), s.wire, opus);
  }

  lemma LastIsMisread(cfg: Config, s: Sender, before: seq<Tx>, opus: seq<u8>)
    requires cfg.Valid()
    requires s.wire == before
      + [Tx(TWO32 - 120, PacketOf(cfg, opus, TWO32 - 120), MIN_RESEND_INTERVAL, TWO32 + 16, TWO32 + 16)]
    ensures EndsMisread(cfg, s)
  {
    MisreadAs136(cfg, opus);
    hide PacketOf, Recover;
    assert Id(TWO32 + 15) == 15;
  }

  /** Serving the report puts the stored packet on the wire. */
  lemma ReportServed(cfg: Config, receiver: u32, s: Sender, packet: seq<u8>)
    requires Usable(cfg, s) && |s.plain| == s.Recorded() == TWO32 + 16 && s.lastSent == Some(15)
    requires s.slots[16] == Some(SentPacket(TWO32 - 120, packet, 0))
    ensures Step(cfg, s, Report(cfg, receiver, TWO32 - 120, MIN_RESEND_INTERVAL)).wire
      == s.wire + [Tx(TWO32 - 120, packet, MIN_RESEND_INTERVAL, TWO32 + 16, TWO32 + 16)]
  {
    hide FeedbackPacket, NackedFrames;
    var f: u32 := TWO32 - 120;
    assert f % HISTORY_FRAMES == 16;
    NackRoundTrip(receiver, cfg.ssrc, 15, Minus32(f, 1), [f]);
    ResentAlone(s, f, MIN_RESEND_INTERVAL);
  }

  /** The state in which the report arrives. */
  lemma StaleSlot(cfg: Config)
    requires cfg.Valid()
    ensures var (n, f, s) := (TWO32 + 16, TWO32 - 120, Run(cfg, Sends(TWO32 + 16)));
      && |s.plain| == n && s.Recorded() == n && s.lastSent == Some(15) && f % HISTORY_FRAMES == 16
      && 0 <= SendNumber(n, f) < n
      && s.slots[16] == Some(SentPacket(f, PacketOf(cfg, s.plain[SendNumber(n, f)], f), 0))
  {
    hide PacketOf, Run, SlotAfter, Sends;
    var n, f: u32 := TWO32 + 16, TWO32 - 120;
    var s := Run(cfg, Sends(n));
    AfterSends(cfg, n);
    RunInv(cfg, Sends(n));
    SlotFromBefore(n, 1, 16, 16);
    assert Id(n - 1) == 15 && s.slots[16].Some?;
    assert SlotGenuine(cfg, s, s.slots[16].value);
  }

  lemma ResentAlone(s: Sender, f: u32, now: nat)
    requires |s.slots| == HISTORY_FRAMES && s.lastSent.Some? && Due(s, f, now)
    ensures ResendFirst(s, [f], [true], now, 1) == Resend(s, f, true, now)
  {
    assert ResendFirst(s, [f], [true], now, 0) == s;
  }

  lemma MisreadAs136(cfg: Config, opus: seq<u8>)
    requires cfg.Valid()
    ensures |PacketOf(cfg, opus, TWO32 - 120)| >= 19
    ensures Recover(cfg, PacketOf(cfg, opus, TWO32 - 120), 15).0 == 136
  {
    hide PacketOf, Encrypt;
    LowByteOf(cfg, opus, TWO32 - 120);
  }

  lemma LowByteOf(cfg: Config, opus: seq<u8>, frameId: u32)
    requires cfg.Valid()
    ensures |PacketOf(cfg, opus, frameId)| >= 19 && PacketOf(cfg, opus, frameId)[13] == frameId % 256
  {
    hide Encrypt;
  }

  // ---- Which frames a feedback resends ----

  ghost predicate SentSince(s: Sender, t: Sender, frameId: u32, k: nat)
  {
    |s.wire| <= k < |t.wire| && t.wire[k].frameId == frameId
  }

  ghost predicate Asked(frames: seq<u32>, delivered: seq<bool>, n: nat, frameId: u32)
    requires n <= |frames|
  {
    exists i :: 0 <= i < n && frames[i] == frameId && Delivered(delivered, i)
  }

  /** A feedback resends exactly the frames it asks for that are in the history, were last sent at
      least 20 ms ago, and get through; each once, as stored, however often it is asked for. */
  lemma {:induction false} ResendsExactly(s: Sender, frames: seq<u32>, delivered: seq<bool>, now: nat, n: nat, f: u32)
    requires |s.slots| == HISTORY_FRAMES && s.lastSent.Some? && n <= |frames|
    ensures var t := ResendFirst(s, frames, delivered, now, n);
      && s.wire <= t.wire
      && ((exists k: nat :: SentSince(s, t, f, k)) <==> Due(s, f, now) && Asked(frames, delivered, n, f))
      && (forall j: nat, k: nat :: SentSince(s, t, f, j) && SentSince(s, t, f, k) ==> j == k)
      && (forall k: nat :: SentSince(s, t, f, k) ==>
            t.wire[k] == Tx(f, s.slots[f % HISTORY_FRAMES].value.packet, now, |s.plain|, s.Recorded()))
      && (Due(t, f, now) <==> Due(s, f, now) && !Asked(frames, delivered, n, f))
      && (Due(t, f, now) ==> t.slots[f % HISTORY_FRAMES] == s.slots[f % HISTORY_FRAMES])
  {
    if n > 0 {
      ResendsExactly(s, frames, delivered, now, n - 1, f);
      var u := ResendFirst(s, frames, delivered, now, n - 1);
      var g, d := frames[n - 1], Delivered(delivered, n - 1);
      var t := Resend(u, g, d, now);
      assert Asked(frames, delivered, n, f) <==> Asked(frames, delivered, n - 1, f) || (g == f && d);
      if Due(u, g, now) && d {
        assert t.wire[..|u.wire|] == u.wire;
        assert SentSince(s, t, g, |u.wire|);
        forall k: nat ensures SentSince(s, t, f, k) <==> SentSince(s, u, f, k) || (g == f && k == |u.wire|) {
        }
      }
    }
  }

  /** Frame `f` is on the list, with a resend that gets through. */
  ghost predicate ListedAndSent(frames: seq<u32>, delivered: seq<bool>, f: u32)
  {
    exists i :: 0 <= i < |frames| && frames[i] == f && Delivered(delivered, i)
  }

  /** What a datagram does. Nothing while nothing is recorded or if it is not from the peer. Else it
      resends, once and as stored, exactly those of all the frames that it reports lost which are in
      the history, were last sent at least 20 ms ago and get through; their slots take the time of
      the datagram, and nothing else of the sender changes. */
  lemma DatagramResends(cfg: Config, s: Sender, nack: Nack, f: u32)
    requires Usable(cfg, s)
    ensures var t := Step(cfg, s, Datagram(nack));
      && (!nack.fromPeer || s.lastSent.None? ==> t == s)
      && (nack.fromPeer && s.lastSent.Some? ==>
            var frames := NackedFrames(nack.bytes, cfg.ssrc, s.lastSent.value);
            && t == s.(slots := t.slots, wire := t.wire) && s.wire <= t.wire
            && ((exists k: nat :: SentSince(s, t, f, k))
                <==> Due(s, f, nack.now) && ListedAndSent(frames, nack.resent, f))
            && (forall j: nat, k: nat :: SentSince(s, t, f, j) && SentSince(s, t, f, k) ==> j == k)
            && (forall k: nat :: SentSince(s, t, f, k) ==>
                  t.wire[k] == Tx(f, Lookup(s.slots, f).value.packet, nack.now, |s.plain|, s.Recorded()))
            && Lookup(t.slots, f) == if Due(s, f, nack.now) && ListedAndSent(frames, nack.resent, f)
                 then Some(Lookup(s.slots, f).value.(sentAt := nack.now)) else Lookup(s.slots, f))
  {
    hide NackedFrames, SentSince, Asked;
    if nack.fromPeer && s.lastSent.Some? {
      var frames := NackedFrames(nack.bytes, cfg.ssrc, s.lastSent.value);
      ResendsExactly(s, frames, nack.resent, nack.now, |frames|, f);
      SlotsFollow(s, frames, nack.resent, nack.now, |frames|, f);
      AskedIsListed(frames, nack.resent, f);
    }
  }

  lemma AskedIsListed(frames: seq<u32>, delivered: seq<bool>, f: u32)
    ensures Asked(frames, delivered, |frames|, f) <==> ListedAndSent(frames, delivered, f)
  {
  }

  lemma {:induction false} SlotsFollow(s: Sender, frames: seq<u32>, delivered: seq<bool>, now: nat, n: nat, f: u32)
    requires |s.slots| == HISTORY_FRAMES && s.lastSent.Some? && n <= |frames|
    ensures Lookup(ResendFirst(s, frames, delivered, now, n).slots, f)
      == if Due(s, f, now) && Asked(frames, delivered, n, f)
         then Some(Lookup(s.slots, f).value.(sentAt := now)) else Lookup(s.slots, f)
  {
    if n > 0 {
      hide ResendFirst, Resend, Asked;
      SlotsFollow(s, frames, delivered, now, n - 1, f);
      AskedNext(frames, delivered, n - 1, f);
      ResendNext(s, frames, delivered, now, n - 1);
      OneResend(ResendFirst(s, frames, delivered, now, n - 1), frames[n - 1], Delivered(delivered, n - 1), now, f);
    } else {
      NothingResent(s, frames, delivered, now);
    }
  }

  lemma AskedNext(frames: seq<u32>, delivered: seq<bool>, n: nat, f: u32)
    requires n < |frames|
    ensures Asked(frames, delivered, n + 1, f)
      <==> Asked(frames, delivered, n, f) || (frames[n] == f && Delivered(delivered, n))
  {
  }

  lemma OneResend(s: Sender, g: u32, delivered: bool, now: nat, f: u32)
    requires |s.slots| == HISTORY_FRAMES && s.lastSent.Some?
    ensures Lookup(Resend(s, g, delivered, now).slots, f)
      == if g == f && delivered && Due(s, f, now) then Some(Lookup(s.slots, f).value.(sentAt := now))
         else Lookup(s.slots, f)
  {
  }

  /** A frame is due for a resend from exactly 20 ms after it was recorded on, until it is resent. */
  lemma DueAfterRecord(cfg: Config, s: Sender, opus: seq<u8>, now: nat, elapsed: nat, later: nat)
    requires Usable(cfg, s) && s.pending.None?
    ensures var t := Step(cfg, Step(cfg, s, Event.Transmit(opus, true, now)), Event.Record(elapsed));
      && Due(t, s.frameId, later) <==> later >= now + elapsed + 20_000_000
  {
    hide PacketOf;
  }

  /** Looking a frame up in the history of a run of any length finds nothing but the frame last
      recorded with that ID, at most 135 frames ago; and clear of the wrap it finds it exactly when
      it is among the last 120 recorded. */
  lemma HistoryLookup(cfg: Config, events: seq<Event>, f: u32)
    requires cfg.Valid()
    ensures var s := Run(cfg, events);
      var n := s.Recorded();
      && (Lookup(s.slots, f).Some? ==>
            n > 0 && var k := SendNumber(n, f);
            0 <= k < n <= k + 136 && n <= |s.plain| && Lookup(s.slots, f).value.packet == PacketOf(cfg, s.plain[k], f))
      && (n > 0 && ClearOfWrap(n) ==> (Lookup(s.slots, f).Some? <==> InWindow(n, f)))
  {
    RunInv(cfg, events);
    hide PacketOf, Run, SlotAfter, Genuine, OnWire, Spaced;
    var s := Run(cfg, events);
    if Lookup(s.slots, f).Some? {
      SlotIs(s, f % HISTORY_FRAMES);
      assert SlotGenuine(cfg, s, s.slots[f % HISTORY_FRAMES].value);
    }
    if s.Recorded() > 0 && ClearOfWrap(s.Recorded()) {
      WindowExactIff(s.Recorded());
      assert Found(s.Recorded(), f) <==> InWindow(s.Recorded(), f);
    }
  }

  // ---- The program's objects ----

  class History {
    const slots: array<Option<SentPacket>>
    var lastSent: Option<u32>

    ghost predicate Valid()
    {
      slots.Length == HISTORY_FRAMES
    }

    constructor ()
      ensures Valid() && fresh(slots)
      ensures slots[..] == NewSender().slots && lastSent == None
    {
      slots := new Option<SentPacket>[HISTORY_FRAMES](_ => None);
      lastSent := None;
    }

    method GetMut(frameId: u32) returns (sent: Option<SentPacket>)
      requires Valid()
      ensures sent == Lookup(slots[..], frameId)
    {
      sent := slots[frameId % HISTORY_FRAMES];
      if sent.Some? && sent.value.frameId != frameId {
        sent := None;
      }
    }

    method Record(frameId: u32, packet: seq<u8>, now: nat)
      requires Valid()
      modifies this, slots
      ensures slots[..] == old(slots[..])[frameId % HISTORY_FRAMES := Some(SentPacket(frameId, packet, now))]
      ensures lastSent == Some(frameId)
    {
      slots[frameId % HISTORY_FRAMES] := Some(SentPacket(frameId, packet, now));
      lastSent := Some(frameId);
    }
  }

  class CastRtpSender {
    const cfg: Config
    const history: History
    var frameId: u32
    var octets: u64
    /** The frame that `send_frame` has put on the wire and is about to record. */
    var pending: Option<Pending>
    ghost var wire: seq<Tx>
    ghost var plain: seq<seq<u8>>
    ghost var events: seq<Event>

    /** The object is where the run machine is after the events so far. */
    ghost predicate Valid()
      reads this, history, history.slots
    {
      cfg.Valid() && history.Valid() && State() == Run(cfg, events)
    }

    ghost function State(): Sender
      reads this, history, history.slots
    {
      Sender(frameId, octets, history.slots[..], history.lastSent, pending, wire, plain)
    }

    constructor (cfg: Config)
      requires cfg.Valid()
      ensures Valid() && this.cfg == cfg && events == [] && fresh(history) && fresh(history.slots)
    {
      this.cfg := cfg;
      history := new History();
      frameId, octets, pending, wire, plain, events := 0, 0, None, [], [], [];
    }

    /** `send_frame`; `delivered` is the outcome of the socket call, `between` are the datagrams that
        the NACK thread serves before the frame is recorded. */
    method SendFrame(opus: seq<u8>, delivered: bool, now: nat, between: seq<Nack>, elapsed: nat) returns (sent: bool)
      requires Valid() && pending == None
      modifies this, history, history.slots
      ensures Valid() && pending == None && sent == delivered
      ensures events == old(events) + SendEvents(opus, delivered, now, between, elapsed)
      ensures plain == (if sent then old(plain) + [opus] else old(plain))
      ensures frameId == if sent then (old(frameId) + 1) % TWO32 else old(frameId)
    {
      hide Valid, PacketOf, Run, SendEvents, Datagrams;
      SendEventsAre(opus, delivered, now, between, elapsed);
      sent := TransmitFrame(opus, delivered, now);
      if !sent {
        return false;
      }
      var i := 0;
      while i < |between|
        invariant 0 <= i <= |between| && Valid() && pending.Some?
        invariant events == old(events) + [Event.Transmit(opus, delivered, now)] + Datagrams(between[..i])
        invariant plain == old(plain) + [opus] && frameId == old(frameId)
      {
        DatagramsNext(between, i);
        ServeDatagram(between[i]);
        i := i + 1;
      }
      RecordFrame(elapsed);
      return true;
    }

    method TransmitFrame(opus: seq<u8>, delivered: bool, now: nat) returns (sent: bool)
      requires Valid() && pending == None
      modifies this
      ensures Valid() && events == old(events) + [Event.Transmit(opus, delivered, now)] && sent == delivered
      ensures pending == (if sent then Some(Pending(opus, PacketOf(cfg, opus, frameId), now)) else None)
      ensures plain == (if sent then old(plain) + [opus] else old(plain)) && frameId == old(frameId)
    {
      hide Run, PacketOf, ResendFirst;
      RunNext(cfg, events, Event.Transmit(opus, delivered, now));
      events := events + [Event.Transmit(opus, delivered, now)];
      var packet := PacketOf(cfg, opus, frameId);
      if !delivered {
        return false;
      }
      wire := wire + [Tx(frameId, packet, now, |plain| + 1, |plain|)];
      plain := plain + [opus];
      pending := Some(Pending(opus, packet, now));
      return true;
    }

    method RecordFrame(elapsed: nat)
      requires Valid() && pending.Some?
      modifies this, history, history.slots
      ensures Valid() && events == old(events) + [Event.Record(elapsed)] && pending == None
      ensures plain == old(plain) && frameId == (old(frameId) + 1) % TWO32
    {
      hide Run, PacketOf, ResendFirst;
      RunNext(cfg, events, Event.Record(elapsed));
      events := events + [Event.Record(elapsed)];
      var p, id := pending.value, frameId;
      history.Record(id, p.packet, p.at + elapsed);
      frameId := (id + 1) % TWO32;
      octets := (octets + |p.opus|) % TWO64;
      pending := None;
    }

    /** One datagram in the loop of `serve_nacks`; `resent` are the outcomes of the resends. */
    method ServeDatagram(nack: Nack)
      requires Valid()
      modifies this, history, history.slots
      ensures Valid() && events == old(events) + [Datagram(nack)]
      ensures plain == old(plain) && frameId == old(frameId) && pending == old(pending)
    {
      hide Run, ResendFirst;
      RunNext(cfg, events, Datagram(nack));
      events := events + [Datagram(nack)];
      if !nack.fromPeer || history.lastSent.None? {
        return;
      }
      var lastSent := history.lastSent.value;
      var nacked := ParseNackedFrames(nack.bytes, cfg.ssrc, lastSent);
      ghost var s := State();
      NothingResent(s, nacked, nack.resent, nack.now);
      var i := 0;
      while i < |nacked|
        invariant 0 <= i <= |nacked|
        invariant State() == ResendFirst(s, nacked, nack.resent, nack.now, i)
        invariant history.lastSent == Some(lastSent) && history.Valid()
        invariant events == old(events) + [Datagram(nack)]
        invariant plain == old(plain) && frameId == old(frameId) && pending == old(pending)
      {
        hide NackedFrames;
        ResendNext(s, nacked, nack.resent, nack.now, i);
        var frame := nacked[i];
        var sent := history.GetMut(frame);
        if sent.Some? && nack.now >= sent.value.sentAt + MIN_RESEND_INTERVAL && Delivered(nack.resent, i) {
          wire := wire + [Tx(frame, sent.value.packet, nack.now, |plain|, State().Recorded())];
          history.slots[frame % HISTORY_FRAMES] := Some(sent.value.(sentAt := nack.now));
        }
        i := i + 1;
      }
    }
  }

  function Datagrams(nacks: seq<Nack>): seq<Event>
  {
    if nacks == [] then [] else Datagrams(nacks[..|nacks| - 1]) + [Datagram(nacks[|nacks| - 1])]
  }

  /** What a call of `send_frame` contributes to a run. */
  function SendEvents(opus: seq<u8>, delivered: bool, now: nat, between: seq<Nack>, elapsed: nat): seq<Event>
  {
    [Event.Transmit(opus, delivered, now)]
    + if delivered then Datagrams(between) + [Event.Record(elapsed)] else []
  }

  lemma DatagramsNext(nacks: seq<Nack>, i: nat)
    requires i < |nacks|
    ensures Datagrams(nacks[..i + 1]) == Datagrams(nacks[..i]) + [Datagram(nacks[i])]
  {
    assert nacks[..i + 1][..i] == nacks[..i];
  }

  lemma DatagramsWhole(nacks: seq<Nack>)
    ensures Datagrams(nacks[..0]) == [] && nacks[..|nacks|] == nacks
  {
  }

  lemma SendEventsAre(opus: seq<u8>, delivered: bool, now: nat, between: seq<Nack>, elapsed: nat)
    ensures Datagrams(between[..0]) == [] && between[..|between|] == between
    ensures SendEvents(opus, delivered, now, between, elapsed)
      == [Event.Transmit(opus, delivered, now)]
         + if delivered then Datagrams(between) + [Event.Record(elapsed)] else []
  {
  }

  lemma RunNext(cfg: Config, events: seq<Event>, e: Event)
    requires cfg.Valid()
    ensures Run(cfg, events + [e]) == Step(cfg, Run(cfg, events), e)
  {
    assert (events + [e])[..|events|] == events;
  }

  lemma NothingResent(s: Sender, frames: seq<u32>, delivered: seq<bool>, now: nat)
    requires |s.slots| == HISTORY_FRAMES && s.lastSent.Some?
    ensures ResendFirst(s, frames, delivered, now, 0) == s
  {
  }

  lemma ResendNext(s: Sender, frames: seq<u32>, delivered: seq<bool>, now: nat, n: nat)
    requires |s.slots| == HISTORY_FRAMES && s.lastSent.Some? && n < |frames|
    ensures ResendFirst(s, frames, delivered, now, n + 1)
      == Resend(ResendFirst(s, frames, delivered, now, n), frames[n], Delivered(delivered, n), now)
  {
  }
}
