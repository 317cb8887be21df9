/** The capture loop: it keeps the backlog of the ring short, reads one frame at a time, encodes it
    and sends it, and gives up on a send outage of five seconds. */
module Capture {
  import opened Words
  import opened RingMachine
  import opened AudioRing
  import Rtp = RtpSender

  const SAMPLE_RATE: nat := 48_000
  const CHANNELS: nat := 2
  const FRAME_SIZE: nat := 480
  const MAX_EXPECTED_QUANTUM: nat := 2048
  const THRESHOLD: nat := FramesForMs(30)
  const TARGET: nat := FramesForMs(10)
  /** 5 s, in nanoseconds. */
  const OUTAGE_FATAL: nat := 5_000_000_000

  function FramesForMs(ms: nat): nat { ms * SAMPLE_RATE / 1000 }

  /** The most frames that take no longer than `ms`; so 10 ms are one frame of the encoder, and the
      backlog allowed is three. */
  lemma FramesForMsIff(ms: nat, n: nat)
    ensures FramesForMs(ms) == n <==> n * 1000 <= ms * 48_000 < (n + 1) * 1000
    ensures TARGET == FRAME_SIZE && THRESHOLD == 3 * FRAME_SIZE
  {
  }

  datatype Outage = Outage(since: nat, frames: nat)

  /** What one pass of the loop meets: what the producer thread does before each of its loads and
      how stale those are, the stop flag, the datagrams served before and in the middle of its send,
      what the encoder makes of a frame, the socket's verdict and the clock. */
  datatype Turn = Turn(
    stop: bool,
    beforeClosed: seq<Access>,
    beforeBacklog: Moment,
    beforeSkip: Moment,
    duringRead: seq<Moment>,
    nacks: seq<Rtp.Nack>,
    nacksInSend: seq<Rtp.Nack>,
    encode: seq<Sample> -> Option<seq<u8>>,
    delivered: bool,
    sentAt: nat,
    recordedAfter: nat,
    now: nat)

  datatype Outcome = Stopped | SinkClosed | EncoderFailed | SendFailed

  /** Which way a pass went. */
  datatype Branch =
    | Drain(dropped: nat)
    | Wait
    | Lap
    | Unencodable(pcm: seq<Sample>)
    | Attempt(now: nat, ok: bool, pcm: seq<Sample>, payload: seq<u8>)

  /** A pass that got as far as the backlog check: the read index and the value of `write` it saw
      there, and the newest value of `reserved` loaded by its end. */
  datatype Seen = Seen(read: nat, write: nat, fenced: nat, branch: Branch)
  {
    function Backlog(): int { write - read }

    function Consumed(): nat
    {
      match branch
      case Drain(dropped) => dropped
      case Wait => 0
      case Lap => 0
      case Unencodable(_) => FRAME_SIZE
      case Attempt(_, _, _, _) => FRAME_SIZE
    }
  }

  // ---- Accounts of a run ----

  function Consumed(seen: seq<Seen>): nat
  {
    if seen == [] then 0 else Consumed(seen[..|seen| - 1]) + seen[|seen| - 1].Consumed()
  }

  function Sent(seen: seq<Seen>): nat
  {
    if seen == [] then 0
    else Sent(seen[..|seen| - 1])
         + if seen[|seen| - 1].branch.Attempt? && seen[|seen| - 1].branch.ok then 1 else 0
  }

  function Failed(seen: seq<Seen>): nat
  {
    if seen == [] then 0
    else Failed(seen[..|seen| - 1])
         + if seen[|seen| - 1].branch.Attempt? && !seen[|seen| - 1].branch.ok then 1 else 0
  }

  function Dropped(seen: seq<Seen>): nat
  {
    if seen == [] then 0
    else Dropped(seen[..|seen| - 1])
         + if seen[|seen| - 1].branch.Drain? then seen[|seen| - 1].branch.dropped else 0
  }

  /** Payloads of the frames that got through, in order. */
  function Payloads(seen: seq<Seen>): (p: seq<seq<u8>>)
    ensures |p| == Sent(seen)
  {
    if seen == [] then []
    else Payloads(seen[..|seen| - 1])
         + if seen[|seen| - 1].branch.Attempt? && seen[|seen| - 1].branch.ok
           then [seen[|seen| - 1].branch.payload] else []
  }

  /** Frames that the encoder refused. */
  function Refused(seen: seq<Seen>): nat
  {
    if seen == [] then 0
    else Refused(seen[..|seen| - 1]) + if seen[|seen| - 1].branch.Unencodable? then 1 else 0
  }

  /** Every frame index is accounted for: 480 for each frame sent, not sent or refused by the
      encoder, and the drops. */
  lemma {:induction false} ConsumedIsConserved(seen: seq<Seen>)
    ensures Consumed(seen) == FRAME_SIZE * (Sent(seen) + Failed(seen) + Refused(seen)) + Dropped(seen)
  {
    if seen != [] { ConsumedIsConserved(seen[..|seen| - 1]); }
  }

  /** Each pass branches on the backlog it saw; a read succeeds exactly if the `reserved` it loads
      is no lap ahead, and what a frame is encoded from is then the stretch of the ring's log at the
      read index of its pass. */
  ghost predicate Sound(s: Seen, capacity: nat, log: seq<Sample>)
  {
    match s.branch
    case Drain(dropped) => s.Backlog() > THRESHOLD && dropped == s.Backlog() - TARGET
    case Wait => 0 <= s.Backlog() < FRAME_SIZE
    case Lap => FRAME_SIZE <= s.Backlog() <= THRESHOLD && s.fenced - s.read > capacity
    case Unencodable(pcm) => ReadsFrame(s, pcm, capacity, log)
    case Attempt(_, _, pcm, _) => ReadsFrame(s, pcm, capacity, log)
  }

  ghost predicate ReadsFrame(s: Seen, pcm: seq<Sample>, capacity: nat, log: seq<Sample>)
  {
    FRAME_SIZE <= s.Backlog() <= THRESHOLD && s.fenced - s.read <= capacity && IsFrame(pcm, s.read, log)
  }

  /** One frame's samples from the ring's log, starting at frame index `read`. */
  ghost predicate IsFrame(pcm: seq<Sample>, read: nat, log: seq<Sample>)
  {
    && CHANNELS * (read + FRAME_SIZE) <= |log|
    && pcm == log[CHANNELS * read..CHANNELS * (read + FRAME_SIZE)]
  }

  /** Passes follow one another without a gap. */
  ghost predicate Chained(seen: seq<Seen>, start: nat, capacity: nat, log: seq<Sample>)
  {
    forall i :: 0 <= i < |seen| ==>
      Sound(seen[i], capacity, log) && seen[i].read == start + Consumed(seen[..i])
  }

  /** What the passes see of `write` and `reserved` never goes back. */
  ghost predicate Onward(seen: seq<Seen>)
  {
    forall i, j :: 0 <= i < j < |seen| ==> seen[i].write <= seen[j].write && seen[i].fenced <= seen[j].fenced
  }

  ghost predicate History(seen: seq<Seen>, start: nat, capacity: nat, log: seq<Sample>)
  {
    Chained(seen, start, capacity, log) && Onward(seen)
  }

  lemma HistoryGrows(seen: seq<Seen>, start: nat, capacity: nat, log: seq<Sample>, more: seq<Sample>)
    requires History(seen, start, capacity, log) && log <= more
    ensures History(seen, start, capacity, more)
  {
    forall i | 0 <= i < |seen| ensures Sound(seen[i], capacity, more) {
      assert Sound(seen[i], capacity, log);
    }
  }

  lemma HistorySnoc(seen: seq<Seen>, s: Seen, start: nat, capacity: nat, log: seq<Sample>)
    requires History(seen, start, capacity, log)
    requires Sound(s, capacity, log) && s.read == start + Consumed(seen)
    requires seen != [] ==> seen[|seen| - 1].write <= s.write && seen[|seen| - 1].fenced <= s.fenced
    ensures History(seen + [s], start, capacity, log)
  {
    ChainedSnoc(seen, s, start, capacity, log);
    OnwardSnoc(seen, s);
  }

  lemma ChainedSnoc(seen: seq<Seen>, s: Seen, start: nat, capacity: nat, log: seq<Sample>)
    requires Chained(seen, start, capacity, log)
    requires Sound(s, capacity, log) && s.read == start + Consumed(seen)
    ensures Chained(seen + [s], start, capacity, log)
  {
    hide Sound, Consumed;
    var all := seen + [s];
    forall i | 0 <= i < |all|
      ensures Sound(all[i], capacity, log) && all[i].read == start + Consumed(all[..i])
    {
      if i < |seen| { assert all[..i] == seen[..i]; } else { assert all[..i] == seen; }
    }
  }

  lemma OnwardSnoc(seen: seq<Seen>, s: Seen)
    requires Onward(seen)
    requires seen != [] ==> seen[|seen| - 1].write <= s.write && seen[|seen| - 1].fenced <= s.fenced
    ensures Onward(seen + [s])
  {
  }

  /** A read can only fail by a lap of more than the headroom: with a capacity that passes the
      startup check it succeeds while the producer has reserved no more than one expected quantum
      and one frame beyond the `write` seen in the backlog check. */
  lemma LapExceedsHeadroom(s: Seen, capacity: nat, log: seq<Sample>)
    requires THRESHOLD + FRAME_SIZE + MAX_EXPECTED_QUANTUM <= capacity
    requires Sound(s, capacity, log) && s.branch.Lap?
    ensures s.fenced - s.write > 2048 + 480
  {
  }

  /** From a lapped read on nothing is delivered and nothing is waited for until a drain: each pass
      laps again, at the same index, or drains. */
  lemma {:induction false} LapsUntilDrain(seen: seq<Seen>, start: nat, capacity: nat, log: seq<Sample>, i: nat, j: nat)
    requires THRESHOLD + FRAME_SIZE + MAX_EXPECTED_QUANTUM <= capacity
    requires History(seen, start, capacity, log) && i < j < |seen| && seen[i].branch.Lap?
    requires forall k :: i < k < j ==> !seen[k].branch.Drain?
    ensures forall k :: i < k < j ==> seen[k].branch.Lap?
    ensures seen[j].branch.Lap? || seen[j].branch.Drain?
    ensures seen[j].read == seen[i].read && Consumed(seen[..j]) == Consumed(seen[..i])
    ensures seen[j].write >= seen[i].fenced ==> seen[j].branch.Drain?
  {
    hide Sound, History, Consumed;
    if i < j - 1 { LapsUntilDrain(seen, start, capacity, log, i, j - 1); }
    LapAgain(seen, start, capacity, log, i, j);
  }

  /** A lap at the same index as an earlier one, or the drain. */
  lemma LapAgain(seen: seq<Seen>, start: nat, capacity: nat, log: seq<Sample>, i: nat, j: nat)
    requires THRESHOLD + FRAME_SIZE + MAX_EXPECTED_QUANTUM <= capacity
    requires History(seen, start, capacity, log) && i < j < |seen| && seen[i].branch.Lap?
    requires i < j - 1 ==> seen[j - 1].branch.Lap? && Consumed(seen[..j - 1]) == Consumed(seen[..i])
    ensures seen[j].branch.Lap? || seen[j].branch.Drain?
    ensures seen[j].read == seen[i].read && Consumed(seen[..j]) == Consumed(seen[..i])
    ensures seen[j].write >= seen[i].fenced ==> seen[j].branch.Drain?
  {
    hide Onward, IsFrame, Consumed;
    NothingConsumed(seen, j - 1);
    assert Sound(seen[i], capacity, log) && Sound(seen[j], capacity, log);
    OnwardTo(seen, i, j);
  }

  lemma NothingConsumed(seen: seq<Seen>, i: nat)
    requires i < |seen| && seen[i].branch.Lap?
    ensures Consumed(seen[..i + 1]) == Consumed(seen[..i])
  {
    assert seen[..i + 1][..i] == seen[..i];
  }

  lemma OnwardTo(seen: seq<Seen>, i: nat, j: nat)
    requires Onward(seen) && i < j < |seen|
    ensures seen[i].write <= seen[j].write && seen[i].fenced <= seen[j].fenced
  {
  }

  /** Recovery: by the first pass that finds the lapping batch published, a pass has drained, and
      that drain is the first thing to happen after the lap. */
  lemma LapIsDrained(seen: seq<Seen>, start: nat, capacity: nat, log: seq<Sample>, i: nat, j: nat)
    requires THRESHOLD + FRAME_SIZE + MAX_EXPECTED_QUANTUM <= capacity
    requires History(seen, start, capacity, log) && i < j < |seen|
    requires seen[i].branch.Lap? && seen[j].write >= seen[i].fenced
    ensures exists k :: i < k <= j && seen[k].branch.Drain? && forall l :: i < l < k ==> seen[l].branch.Lap?
  {
    var k := FirstDrain(seen, i, j);
    LapsUntilDrain(seen, start, capacity, log, i, k);
    assert seen[k].branch.Drain?;
  }

  /** The first drain after pass `i`, or pass `j` if there is none before that. */
  lemma FirstDrain(seen: seq<Seen>, i: nat, j: nat) returns (k: nat)
    requires i < j < |seen|
    ensures i < k <= j && (k == j || seen[k].branch.Drain?)
    ensures forall l :: i < l < k ==> !seen[l].branch.Drain?
  {
    k := i + 1;
    while k < j && !seen[k].branch.Drain?
      invariant i < k <= j && forall l :: i < l < k ==> !seen[l].branch.Drain?
    {
      k := k + 1;
    }
  }

  /** The last drain between passes `i` and `j`. */
  function LastDrain(seen: seq<Seen>, i: nat, j: nat): (d: Option<nat>)
    requires j <= |seen|
    ensures d.Some? ==> i < d.value < j && seen[d.value].branch.Drain?
    ensures forall k :: i < k < j && (d.Some? ==> d.value < k) ==> !seen[k].branch.Drain?
  {
    if j <= i + 1 then None
    else if seen[j - 1].branch.Drain? then Some(j - 1)
    else LastDrain(seen, i, j - 1)
  }

  /** Frames read by the passes from `a` up to `b`. */
  function FramesRead(seen: seq<Seen>, a: nat, b: nat): nat
    requires b <= |seen|
  {
    if b <= a then 0
    else FramesRead(seen, a, b - 1)
         + if seen[b - 1].branch.Attempt? || seen[b - 1].branch.Unencodable? then 1 else 0
  }

  /** Where the read index is a while after a drain. */
  lemma {:induction false} ReadAfterDrain(seen: seq<Seen>, start: nat, capacity: nat, log: seq<Sample>, d: nat, j: nat)
    requires Chained(seen, start, capacity, log) && d < j < |seen| && seen[d].branch.Drain?
    requires forall k :: d < k < j ==> !seen[k].branch.Drain?
    ensures seen[j].read == seen[d].write - TARGET + FRAME_SIZE * FramesRead(seen, d + 1, j)
  {
    hide Consumed, IsFrame;
    assert Sound(seen[d], capacity, log) && Sound(seen[j - 1], capacity, log);
    ReadNext(seen, start, capacity, log, j - 1);
    if d < j - 1 { ReadAfterDrain(seen, start, capacity, log, d, j - 1); }
  }

  /** A drain leaves one frame of what it saw, so the pass after it does not wait. */
  lemma DrainLeavesOneFrame(seen: seq<Seen>, start: nat, capacity: nat, log: seq<Sample>, d: nat)
    requires History(seen, start, capacity, log) && d + 1 < |seen| && seen[d].branch.Drain?
    ensures seen[d].write - seen[d + 1].read == FRAME_SIZE && !seen[d + 1].branch.Wait?
  {
    hide Consumed, IsFrame;
    ReadNext(seen, start, capacity, log, d);
    assert Sound(seen[d], capacity, log) && Sound(seen[d + 1], capacity, log);
  }

  lemma ReadNext(seen: seq<Seen>, start: nat, capacity: nat, log: seq<Sample>, i: nat)
    requires Chained(seen, start, capacity, log) && i + 1 < |seen|
    ensures seen[i + 1].read == seen[i].read + seen[i].Consumed()
  {
    hide Sound;
    assert seen[..i + 1][..i] == seen[..i];
  }

  /** Exactly when a pass that finds the lapping batch published is one that drains: if no pass has
      drained since the lap, or if `write` has since moved on further from where the last drain saw
      it than the frames read since and 20 ms account for. */
  lemma DrainsIff(seen: seq<Seen>, start: nat, capacity: nat, log: seq<Sample>, i: nat, j: nat)
    requires THRESHOLD + FRAME_SIZE + MAX_EXPECTED_QUANTUM <= capacity
    requires History(seen, start, capacity, log) && i < j < |seen|
    requires seen[i].branch.Lap? && seen[j].write >= seen[i].fenced
    ensures seen[j].branch.Drain? <==>
      match LastDrain(seen, i, j)
      case None => true
      case Some(d) =>
        seen[j].write - seen[d].write > THRESHOLD - TARGET + FRAME_SIZE * FramesRead(seen, d + 1, j)
  {
    hide Chained, Onward, FramesRead, LastDrain;
    match LastDrain(seen, i, j) {
      case None => LapsUntilDrain(seen, start, capacity, log, i, j);
      case Some(d) =>
        ReadAfterDrain(seen, start, capacity, log, d, j);
        BranchIff(seen, start, capacity, log, j);
    }
  }

  lemma BranchIff(seen: seq<Seen>, start: nat, capacity: nat, log: seq<Sample>, j: nat)
    requires Chained(seen, start, capacity, log) && j < |seen|
    ensures seen[j].branch.Drain? <==> seen[j].Backlog() > THRESHOLD
  {
    hide IsFrame;
    assert Sound(seen[j], capacity, log);
  }

  // ---- A drain that comes early ----

  /** The reader's accesses of one pass: the backlog check, and the skip or the read. */
  predicate PassOf(reader: seq<Action>, x: Seen)
  {
    var n := CHANNELS * FRAME_SIZE;
    && |reader| > 0 && reader[0] == Available(CHANNELS * x.write)
    && match x.branch
       case Wait => |reader| == 1
       case Drain(dropped) => |reader| == 2 && reader[1].Skip? && reader[1].count == CHANNELS * dropped
       case _ =>
         && |reader| == n + 3 && reader[1].StartRead? && reader[1].need == n
         && (forall i :: 2 <= i < n + 2 ==> reader[i].LoadSlot?)
         && reader[n + 2] == FinishRead(CHANNELS * x.fenced)
  }

  function Silence(n: nat): (s: seq<Sample>)
    ensures |s| == n
  {
    seq(n, i => 0)
  }

  /** 480 frames are published and seen; 4400 are, and 600 more reserved, before the read's end. */
  function LappedPass(): seq<Action>
  {
    Batch(Silence(960)) + [Available(960)] + Batch(Silence(7840)) + [Begin(Silence(1200)), StartRead(960, 960)]
    + Loads(960) + [FinishRead(10_000)]
  }

  /** The 600 frames are still on their way when the next pass drains. */
  function DrainingPass(): seq<Action> { [Available(8800), Skip(7840, 8800)] }

  /** They are published, and the pass that finds them so reads. */
  function ReadingPass(): seq<Action>
  {
    Stores(1200) + [Publish] + [Available(10_000), StartRead(960, 10_000)] + Loads(960) + [FinishRead(10_000)]
  }

  /** A run of the ring with 4096 frames, in three passes: one that laps, one that drains at an older
      `write`, and the one that finds the lapping batch published, which reads a frame. */
  lemma DrainCanComeEarly(encoded: Branch) returns (s: Ring, t: Ring, u: Ring)
    ensures Leads(Init(8192), LappedPass(), s) && Leads(s, DrainingPass(), t) && Leads(t, ReadingPass(), u)
    ensures PassOf(ReaderSide(LappedPass()), Seen(0, 480, 5000, Lap)) && s.taken == [] && s.read == 0
    ensures PassOf(ReaderSide(DrainingPass()), Seen(0, 4400, 5000, Drain(3920))) && t.read == CHANNELS * 3920
    ensures encoded.Attempt? ==> PassOf(ReaderSide(ReadingPass()), Seen(3920, 5000, 5000, encoded))
    ensures u.taken == Silence(960) && u.read == CHANNELS * (3920 + FRAME_SIZE)
  {
    hide Batch, Stores, Loads, Leads, ReaderSide, Silence;
    s := Lapped();
    t := Drained(s);
    u := Read(t);
    LappedReader();
    DrainingReader();
    ReadingReader();
    hide LappedPass, DrainingPass, ReadingPass;
    LoadsAreLoads();
  }

  lemma LoadsAreLoads()
    ensures forall i :: 0 <= i < 960 ==> Loads(960)[i].LoadSlot?
  {
  }

  /** The state after the lapped pass, apart from how far its copy had seen. */
  function LappedState(): Ring
  {
    Ring(8192, Silence(960) + Silence(7840), [0, 960, 8800, 10_000], Writing(Silence(1200), 0), 0, 960, 10_000,
         AtRest, [], [])
  }

  lemma Lapped() returns (s: Ring)
    ensures s == LappedState() && Leads(Init(8192), LappedPass(), s)
  {
    hide Batch, Loads, Leads, Silence;
    var s0 := Init(8192);
    BatchLeads(s0, Silence(960));
    var s1 := s0.(log := s0.log + Silence(960), ends := s0.ends + [960]);
    var s2 := s1.(seen := 960);
    LeadsStep(s1, Available(960));
    LeadsThen(s0, Batch(Silence(960)), s1, [Available(960)], s2);
    BatchLeads(s2, Silence(7840));
    var s3 := s2.(log := s2.log + Silence(7840), ends := s2.ends + [8800]);
    LeadsThen(s0, Batch(Silence(960)) + [Available(960)], s2, Batch(Silence(7840)), s3);
    var s5 := LapStarts(s3);
    var run := Batch(Silence(960)) + [Available(960)] + Batch(Silence(7840));
    LeadsThen(s0, run, s3, [Begin(Silence(1200)), StartRead(960, 960)], s5);
    var floor := LoadsLead(s5, 960);
    var s6 := s5.(consumer := Copying(960, [] + s5.log[0..960], floor));
    LeadsThen(s0, run + [Begin(Silence(1200)), StartRead(960, 960)], s5, Loads(960), s6);
    s := s6.(fenced := 10_000, consumer := AtRest);
    LeadsStep(s6, FinishRead(10_000));
    LeadsThen(s0, run + [Begin(Silence(1200)), StartRead(960, 960)] + Loads(960), s6, [FinishRead(10_000)], s);
    assert [] + Silence(960) == Silence(960);
  }

  lemma LapStarts(s: Ring) returns (t: Ring)
    requires s.capacity == 8192 && s.ends == [0, 960, 8800] && s.producer.Idle? && s.consumer.AtRest?
    requires s.read == 0 && s.seen == 960
    ensures t == s.(ends := [0, 960, 8800, 10_000], producer := Writing(Silence(1200), 0),
                    consumer := Copying(960, [], 0))
    ensures Leads(s, [Begin(Silence(1200)), StartRead(960, 960)], t) && Increasing(t.ends)
  {
    hide Leads, Silence;
    var mid := s.(ends := [0, 960, 8800, 10_000], producer := Writing(Silence(1200), 0));
    t := mid.(consumer := Copying(960, [], 0));
    assert s.Reserved() == 8800 && s.ends + [10_000] == mid.ends;
    LeadsStep(s, Begin(Silence(1200)));
    assert mid.ends[..3] == [0, 960, 8800] && 960 == mid.ends[..3][1];
    LeadsStep(mid, StartRead(960, 960));
    LeadsThen(s, [Begin(Silence(1200))], mid, [StartRead(960, 960)], t);
    assert [Begin(Silence(1200))] + [StartRead(960, 960)] == [Begin(Silence(1200)), StartRead(960, 960)];
  }

  lemma Drained(s: Ring) returns (t: Ring)
    requires s == LappedState()
    ensures t == s.(seen := 8800, read := 7840, ops := [Drop(7840)]) && Leads(s, DrainingPass(), t)
  {
    hide Leads, Silence;
    var mid := s.(seen := 8800);
    assert s.ends[..3] == [0, 960, 8800] && 8800 == s.ends[..3][2];
    LeadsStep(s, Available(8800));
    t := mid.(read := 7840, ops := [] + [Drop(7840)]);
    LeadsStep(mid, Skip(7840, 8800));
    LeadsThen(s, [Available(8800)], mid, [Skip(7840, 8800)], t);
    assert [Available(8800)] + [Skip(7840, 8800)] == DrainingPass();
  }

  lemma Read(s: Ring) returns (t: Ring)
    requires s == LappedState().(seen := 8800, read := 7840, ops := [Drop(7840)])
    ensures Leads(s, ReadingPass(), t) && t.read == 8800 && t.taken == Silence(960)
  {
    hide Leads, Stores, Loads;
    StoresLead(s, 1200);
    var s1 := s.(log := s.log + Silence(1200)[0..1200], producer := Writing(Silence(1200), 1200));
    var s2 := s1.(producer := Idle);
    LeadsStep(s1, Publish);
    LeadsThen(s, Stores(1200), s1, [Publish], s2);
    var s4 := ReadStarts(s2);
    var run := Stores(1200) + [Publish];
    LeadsThen(s, run, s2, [Available(10_000), StartRead(960, 10_000)], s4);
    var floor := LoadsLead(s4, 960);
    var s5 := s4.(consumer := Copying(960, [] + s4.log[7840..8800], floor));
    LeadsThen(s, run + [Available(10_000), StartRead(960, 10_000)], s4, Loads(960), s5);
    t := Step(s5, FinishRead(10_000));
    LeadsStep(s5, FinishRead(10_000));
    LeadsThen(s, run + [Available(10_000), StartRead(960, 10_000)] + Loads(960), s5, [FinishRead(10_000)], t);
    assert s4.log[7840..8800] == Silence(960);
  }

  lemma ReadStarts(s: Ring) returns (t: Ring)
    requires s.capacity == 8192 && s.ends == [0, 960, 8800, 10_000] && s.producer.Idle? && s.consumer.AtRest?
    requires s.read == 7840 && s.seen == 8800
    ensures t == s.(seen := 10_000, consumer := Copying(960, [], 0)) && Increasing(t.ends)
    ensures Leads(s, [Available(10_000), StartRead(960, 10_000)], t)
  {
    hide Leads;
    var mid := s.(seen := 10_000);
    t := mid.(consumer := Copying(960, [], 0));
    assert 10_000 == s.ends[3];
    LeadsStep(s, Available(10_000));
    LeadsStep(mid, StartRead(960, 10_000));
    LeadsThen(s, [Available(10_000)], mid, [StartRead(960, 10_000)], t);
    assert [Available(10_000)] + [StartRead(960, 10_000)] == [Available(10_000), StartRead(960, 10_000)];
  }

  lemma LappedReader()
    ensures ReaderSide(LappedPass()) == [Available(960), StartRead(960, 960)] + Loads(960) + [FinishRead(10_000)]
  {
    hide Batch, Loads, ReaderSide, Silence;
    var a, b, c, d, e := Batch(Silence(960)), [Available(960)], Batch(Silence(7840)),
        [Begin(Silence(1200)), StartRead(960, 960)], [FinishRead(10_000)];
    ReaderSideOfBatch(Silence(960));
    ReaderSideOfBatch(Silence(7840));
    ReaderSideOf(960);
    ReaderSideOne(Available(960));
    ReaderSideOne(FinishRead(10_000));
    ReaderSideOne(Begin(Silence(1200)));
    ReaderSideOne(StartRead(960, 960));
    ReaderSideAppend([Begin(Silence(1200))], [StartRead(960, 960)]);
    assert [Begin(Silence(1200))] + [StartRead(960, 960)] == d;
    ReaderSideAppend(a, b);
    ReaderSideAppend(a + b, c);
    ReaderSideAppend(a + b + c, d);
    ReaderSideAppend(a + b + c + d, Loads(960));
    ReaderSideAppend(a + b + c + d + Loads(960), e);
  }

  lemma DrainingReader()
    ensures ReaderSide(DrainingPass()) == DrainingPass()
  {
    hide ReaderSide;
    ReaderSideOne(Available(8800));
    ReaderSideOne(Skip(7840, 8800));
    ReaderSideAppend([Available(8800)], [Skip(7840, 8800)]);
    assert [Available(8800)] + [Skip(7840, 8800)] == DrainingPass();
  }

  lemma ReadingReader()
    ensures ReaderSide(ReadingPass()) == [Available(10_000), StartRead(960, 10_000)] + Loads(960) + [FinishRead(10_000)]
  {
    hide Stores, Loads, ReaderSide;
    var d := [Available(10_000), StartRead(960, 10_000)];
    ReaderSideOf(1200);
    ReaderSideOf(960);
    ReaderSideOne(Publish);
    ReaderSideOne(Available(10_000));
    ReaderSideOne(StartRead(960, 10_000));
    ReaderSideOne(FinishRead(10_000));
    ReaderSideAppend([Available(10_000)], [StartRead(960, 10_000)]);
    assert [Available(10_000)] + [StartRead(960, 10_000)] == d;
    ReaderSideAppend(Stores(1200), [Publish]);
    ReaderSideAppend(Stores(1200) + [Publish], d);
    ReaderSideAppend(Stores(1200) + [Publish] + d, Loads(960));
    ReaderSideAppend(Stores(1200) + [Publish] + d + Loads(960), [FinishRead(10_000)]);
  }

  // ---- Outages ----

  datatype Try = Try(now: nat, ok: bool)

  function Tries(seen: seq<Seen>): seq<Try>
  {
    if seen == [] then []
    else Tries(seen[..|seen| - 1])
         + if seen[|seen| - 1].branch.Attempt?
           then [Try(seen[|seen| - 1].branch.now, seen[|seen| - 1].branch.ok)] else []
  }

  /** Length of the current streak of failures. */
  function Streak(tries: seq<Try>): (n: nat)
    ensures n <= |tries|
  {
    if tries == [] || tries[|tries| - 1].ok then 0 else 1 + Streak(tries[..|tries| - 1])
  }

  lemma {:induction false} StreakIsMaximal(tries: seq<Try>)
    ensures forall i :: |tries| - Streak(tries) <= i < |tries| ==> !tries[i].ok
    ensures Streak(tries) < |tries| ==> tries[|tries| - Streak(tries) - 1].ok
  {
    if tries != [] && !tries[|tries| - 1].ok { StreakIsMaximal(tries[..|tries| - 1]); }
  }

  function OutageOf(tries: seq<Try>): Option<Outage>
  {
    if Streak(tries) == 0 then None
    else Some(Outage(tries[|tries| - Streak(tries)].now, Streak(tries)))
  }

  /** The latest failure is at least five seconds after the first of its streak. */
  predicate Fatal(tries: seq<Try>)
  {
    Streak(tries) > 0
    && tries[|tries| - 1].now >= tries[|tries| - Streak(tries)].now + OUTAGE_FATAL
  }

  /** The tries from `i` on are the current streak of failures. */
  ghost predicate IsStreak(tries: seq<Try>, i: nat)
  {
    && i < |tries| && (i > 0 ==> tries[i - 1].ok)
    && forall j :: i <= j < |tries| ==> !tries[j].ok
  }

  /** Without counting: some try began an unbroken row of failures up to now, and the latest of them
      came five seconds after it or later. */
  lemma FatalIff(tries: seq<Try>)
    ensures Fatal(tries) <==>
      exists i :: 0 <= i && IsStreak(tries, i) && tries[|tries| - 1].now >= tries[i].now + 5_000_000_000
  {
    StreakIsMaximal(tries);
    if Streak(tries) > 0 {
      assert IsStreak(tries, |tries| - Streak(tries));
    }
    forall i: nat | IsStreak(tries, i) ensures i == |tries| - Streak(tries) {
      OneStreak(tries, i);
    }
  }

  lemma OneStreak(tries: seq<Try>, i: nat)
    requires IsStreak(tries, i)
    ensures i == |tries| - Streak(tries)
  {
    StreakIsMaximal(tries);
    var first := |tries| - Streak(tries);
    assert i > 0 ==> tries[i - 1].ok;
    assert first > 0 ==> tries[first - 1].ok;
  }

  lemma OutageSnoc(tries: seq<Try>, t: Try)
    ensures OutageOf(tries + [t]) ==
      if t.ok then None
      else match OutageOf(tries)
           case None => Some(Outage(t.now, 1))
           case Some(o) => Some(Outage(o.since, o.frames + 1))
  {
    var all := tries + [t];
    assert all[..|tries|] == tries;
    if !t.ok && Streak(tries) > 0 {
      assert all[|all| - Streak(all)] == tries[|tries| - Streak(tries)];
    }
  }

  // ---- The loop ----

  function Accesses(turn: Turn): nat
  {
    |turn.beforeClosed| + |turn.beforeBacklog.others| + |turn.beforeSkip.others| + |Flat(turn.duringRead)|
  }

  function AllAccesses(turns: seq<Turn>): nat
  {
    if turns == [] then 0 else Accesses(turns[0]) + AllAccesses(turns[1..])
  }

  lemma SeenSnoc(seen: seq<Seen>, s: Seen)
    ensures var all := seen + [s];
      && Consumed(all) == Consumed(seen) + s.Consumed()
      && Dropped(all) == Dropped(seen) + (if s.branch.Drain? then s.branch.dropped else 0)
      && (if s.branch.Attempt? then
            && Tries(all) == Tries(seen) + [Try(s.branch.now, s.branch.ok)]
            && Sent(all) == Sent(seen) + (if s.branch.ok then 1 else 0)
            && Failed(all) == Failed(seen) + (if s.branch.ok then 0 else 1)
            && Payloads(all) == Payloads(seen) + (if s.branch.ok then [s.branch.payload] else [])
          else
            && Tries(all) == Tries(seen) && Sent(all) == Sent(seen) && Failed(all) == Failed(seen)
            && Payloads(all) == Payloads(seen))
      && Refused(all) == Refused(seen) + (if s.branch.Unencodable? then 1 else 0)
  {
    assert (seen + [s])[..|seen|] == seen;
  }

  lemma FramesOfPcm()
    ensures Wrap(CHANNELS * FRAME_SIZE, CHANNELS) == 0 && Quotient(CHANNELS * FRAME_SIZE, CHANNELS) == FRAME_SIZE
  {
    WrapIsRemainder(CHANNELS * FRAME_SIZE, CHANNELS);
    QuotientIsDivision(CHANNELS * FRAME_SIZE, CHANNELS);
  }

  predicate Complete(turn: Turn) { |turn.duringRead| == CHANNELS * FRAME_SIZE + 2 }

  /** The local counters of `run`. */
  datatype Counters = Counters(frames: nat, dropped: nat, failures: nat, outage: Option<Outage>)

  /** The counters and the frame indices agree with the passes made so far. */
  ghost predicate Balanced(seen: seq<Seen>, start: nat, f: Frames, capacity: nat, log: seq<Sample>, c: Counters)
  {
    && f.read == start + Consumed(seen)
    && (seen != [] ==> seen[|seen| - 1].write <= f.seen && seen[|seen| - 1].fenced <= f.fenced)
    && History(seen, start, capacity, log)
    && c == Counters(Sent(seen), Dropped(seen), Failed(seen), OutageOf(Tries(seen)))
  }

  /** The counters after one more pass. */
  function Counted(c: Counters, s: Seen): Counters
  {
    match s.branch
    case Drain(n) => c.(dropped := c.dropped + n)
    case Attempt(now, ok, _, _) =>
      if ok then c.(frames := c.frames + 1, outage := None)
      else c.(failures := c.failures + 1,
              outage := match c.outage
                        case None => Some(Outage(now, 1))
                        case Some(o) => Some(Outage(o.since, o.frames + 1)))
    case _ => c
  }

  lemma NothingSeen(f: Frames, capacity: nat, log: seq<Sample>)
    ensures Balanced([], f.read, f, capacity, log, Counters(0, 0, 0, None)) && Payloads([]) == []
  {
  }

  lemma Note(seen: seq<Seen>, s: Seen, start: nat, f: Frames, g: Frames, capacity: nat, log: seq<Sample>, c: Counters)
    requires Balanced(seen, start, f, capacity, log, c)
    requires Sound(s, capacity, log) && s.read == f.read
    requires f.seen <= s.write <= g.seen && f.fenced <= s.fenced <= g.fenced
    requires g.read == f.read + s.Consumed()
    ensures Balanced(seen + [s], start, g, capacity, log, Counted(c, s))
    ensures Payloads(seen + [s]) ==
      Payloads(seen) + if s.branch.Attempt? && s.branch.ok then [s.branch.payload] else []
  {
    hide OutageOf, History, Sound;
    SeenSnoc(seen, s);
    HistorySnoc(seen, s, start, capacity, log);
    if s.branch.Attempt? { OutageSnoc(Tries(seen), Try(s.branch.now, s.branch.ok)); }
  }

  /** The five-second test on the outage kept is the test on the whole history of tries. */
  lemma NoteFatal(seen: seq<Seen>, s: Seen, start: nat, f: Frames, capacity: nat, log: seq<Sample>, c: Counters)
    requires Balanced(seen, start, f, capacity, log, c)
    ensures Fatal(Tries(seen + [s])) ==
      if s.branch.Attempt? then
        !s.branch.ok && s.branch.now >= Counted(c, s).outage.value.since + OUTAGE_FATAL
      else Fatal(Tries(seen))
  {
    hide History;
    SeenSnoc(seen, s);
    if s.branch.Attempt? { OutageSnoc(Tries(seen), Try(s.branch.now, s.branch.ok)); }
  }

  lemma BalancedGrows(seen: seq<Seen>, start: nat, f: Frames, g: Frames, capacity: nat, log: seq<Sample>,
                      more: seq<Sample>, c: Counters)
    requires Balanced(seen, start, f, capacity, log, c) && log <= more
    requires g.read == f.read && f.seen <= g.seen && f.fenced <= g.fenced
    ensures Balanced(seen, start, g, capacity, more, c)
  {
    HistoryGrows(seen, start, capacity, log, more);
  }

  /** How a pass ends the loop, if it does. */
  function OutcomeOf(seen: seq<Seen>): Option<Outcome>
  {
    if seen == [] then None
    else if seen[|seen| - 1].branch.Unencodable? then Some(EncoderFailed)
    else if Fatal(Tries(seen)) then Some(SendFailed)
    else None
  }

  lemma LastPass(seen: seq<Seen>, s: Seen)
    ensures OutcomeOf(seen + [s]) ==
      if s.branch.Unencodable? then Some(EncoderFailed)
      else if Fatal(Tries(seen + [s])) then Some(SendFailed)
      else None
  {
    hide Tries, Fatal;
  }

  /** The loop was left without a pass. */
  predicate Quit(outcome: Option<Outcome>)
  {
    outcome == Some(Stopped) || outcome == Some(SinkClosed)
  }

  lemma NeverQuits(seen: seq<Seen>)
    ensures !Quit(OutcomeOf(seen))
  {
  }

  lemma QuitIs(outcome: Option<Outcome>)
    ensures Quit(outcome) <==> outcome == Some(Stopped) || outcome == Some(SinkClosed)
  {
  }

  /** What was tried, or given up, is what the encoder of that pass made of its samples. */
  predicate Encodes(turn: Turn, s: Seen)
  {
    match s.branch
    case Attempt(now, ok, pcm, payload) =>
      turn.encode(pcm) == Some(payload) && ok == turn.delivered && now == turn.now
    case Unencodable(pcm) => turn.encode(pcm) == None
    case _ => true
  }

  lemma Positions(frames: nat, channels: nat)
    requires channels == CHANNELS
    ensures Times(frames, channels) == CHANNELS * frames
  {
    TimesIsProduct(frames, channels);
  }

  // ---- What the sender is made to do ----

  /** A pass serves its datagrams, and sends the frame it has encoded. */
  function SenderEvents(turn: Turn, s: Seen): seq<Rtp.Event>
  {
    Rtp.Datagrams(turn.nacks) + SentIn(turn, s)
  }

  function SentIn(turn: Turn, s: Seen): seq<Rtp.Event>
  {
    if s.branch.Attempt?
    then Rtp.SendEvents(s.branch.payload, turn.delivered, turn.sentAt, turn.nacksInSend, turn.recordedAfter)
    else []
  }

  function AllEvents(turns: seq<Turn>, seen: seq<Seen>): seq<Rtp.Event>
    requires |seen| <= |turns|
  {
    if seen == [] then []
    else AllEvents(turns, seen[..|seen| - 1]) + SenderEvents(turns[|seen| - 1], seen[|seen| - 1])
  }

  /** What the sender was made to do over a run; the datagrams of a turn that finds the sink closed
      are served before that. */
  function RunEvents(turns: seq<Turn>, seen: seq<Seen>, outcome: Option<Outcome>): seq<Rtp.Event>
    requires |seen| <= |turns| && (outcome == Some(SinkClosed) ==> |seen| < |turns|)
  {
    AllEvents(turns, seen) + if outcome == Some(SinkClosed) then Rtp.Datagrams(turns[|seen|].nacks) else []
  }

  lemma EventsNext(turns: seq<Turn>, before: seq<Seen>, seen: seq<Seen>)
    requires |before| < |turns| && before <= seen && |seen| == |before| + 1
    ensures AllEvents(turns, seen) == AllEvents(turns, before) + SenderEvents(turns[|before|], seen[|before|])
  {
    assert seen[..|before|] == before;
  }

  /** One more pass, or none if the loop is left at its head, as the sender sees it. */
  lemma RanOn(turns: seq<Turn>, before: seq<Seen>, seen: seq<Seen>, outcome: Option<Outcome>,
              start: seq<Rtp.Event>, was: seq<Rtp.Event>, now: seq<Rtp.Event>)
    requires |before| < |turns| && was == start + RunEvents(turns, before, None)
    requires if Quit(outcome) then seen == before else before <= seen && |seen| == |before| + 1
    requires outcome == Some(Stopped) ==> now == was
    requires outcome == Some(SinkClosed) ==> now == was + Rtp.Datagrams(turns[|before|].nacks)
    requires !Quit(outcome) ==> now == was + SenderEvents(turns[|before|], seen[|before|])
    ensures |seen| <= |turns| && (outcome == Some(SinkClosed) ==> |seen| < |turns|)
    ensures now == start + RunEvents(turns, seen, outcome)
  {
    hide SenderEvents, AllEvents;
    assert AllEvents(turns, before) + [] == AllEvents(turns, before);
    if outcome == Some(SinkClosed) {
      var last := Rtp.Datagrams(turns[|before|].nacks);
      assert (start + AllEvents(turns, before)) + last == start + (AllEvents(turns, before) + last);
    } else if !Quit(outcome) {
      EventsNext(turns, before, seen);
      var last := SenderEvents(turns[|before|], seen[|before|]);
      assert (start + AllEvents(turns, before)) + last == start + (AllEvents(turns, before) + last);
      assert AllEvents(turns, seen) + [] == AllEvents(turns, seen);
    }
  }

  lemma NoEvents(turns: seq<Turn>)
    ensures AllEvents(turns, []) == [] && RunEvents(turns, [], None) == []
  {
  }

  // ---- Closing ----

  /** The accesses of other threads that a pass lets happen. */
  function RanIn(turn: Turn, s: Seen): seq<Access>
  {
    turn.beforeClosed + turn.beforeBacklog.others
    + match s.branch
      case Drain(_) => turn.beforeSkip.others
      case Wait => []
      case _ => Flat(turn.duringRead)
  }

  /** The sink is closed after `n` passes. */
  predicate ClosedAfter(closed: bool, turns: seq<Turn>, seen: seq<Seen>, n: nat)
    requires n <= |turns| && n <= |seen|
  {
    closed || exists i :: 0 <= i < n && Close in RanIn(turns[i], seen[i])
  }

  /** The check at the head of turn `n` sees the sink closed. */
  predicate FoundClosed(closed: bool, turns: seq<Turn>, seen: seq<Seen>, n: nat)
    requires n < |turns| && n <= |seen|
  {
    ClosedAfter(closed, turns, seen, n) || Close in turns[n].beforeClosed
  }

  /** The local variables of `run`, with the ring and the sender it works on. */
  class Loop {
    const ring: AudioRing
    const sender: Rtp.CastRtpSender
    const pcm: array<Sample>
    var counters: Counters
    ghost var seen: seq<Seen>
    ghost var start: nat
    ghost const firstId: u32
    ghost const plain: seq<seq<u8>>

    ghost predicate Wired()
    {
      && ring.channels == CHANNELS
      && THRESHOLD + FRAME_SIZE + MAX_EXPECTED_QUANTUM <= ring.capacity
      && pcm.Length == CHANNELS * FRAME_SIZE
      && (pcm as object) != ring.buf && (pcm as object) != sender.history.slots
      && (ring.buf as object) != sender.history.slots
    }

    /** The sender has sent one frame for each frame counted, and its own state is that of a run. */
    ghost predicate Sending(payloads: seq<seq<u8>>, frames: nat)
      reads sender, sender.history, sender.history.slots
    {
      && sender.Valid() && sender.pending == None
      && sender.plain == plain + payloads
      && sender.frameId == (firstId + frames) % TWO32
    }

    /** What holds at every loop head. */
    ghost predicate Valid()
      reads this, ring, ring.buf, sender, sender.history, sender.history.slots
    {
      && Wired() && ring.Valid() && ring.m.consumer.AtRest?
      && Balanced(seen, start, ring.f, ring.capacity, ring.m.log, counters)
      && Sending(Payloads(seen), counters.frames)
    }

    /** No word index laps itself within `accesses` further accesses of other threads. */
    ghost predicate WordsLast(accesses: nat)
      reads ring
    {
      ring.f.reserved - ring.f.read + Times(accesses, ring.capacity) < ring.word
    }

    constructor (ring: AudioRing, sender: Rtp.CastRtpSender)
      requires ring.Valid() && ring.m.consumer.AtRest? && ring.channels == CHANNELS
      requires sender.Valid() && sender.pending == None
      requires (ring.buf as object) != sender.history.slots
      requires THRESHOLD + FRAME_SIZE + MAX_EXPECTED_QUANTUM <= ring.capacity
      ensures Valid() && this.ring == ring && this.sender == sender
      ensures seen == [] && start == ring.f.read && firstId == sender.frameId && plain == sender.plain
      ensures counters == Counters(0, 0, 0, None) && fresh(pcm)
    {
      hide AudioRing.Valid, Rtp.CastRtpSender.Valid, Balanced, Payloads;
      this.ring, this.sender := ring, sender;
      pcm := new Sample[CHANNELS * FRAME_SIZE](_ => 0);
      counters, seen := Counters(0, 0, 0, None), [];
      firstId, plain, start := sender.frameId, sender.plain, ring.f.read;
      new;
      NothingSeen(ring.f, ring.capacity, ring.m.log);
      assert plain + [] == plain;
    }

    /** Up to the loop: the backlog of the session negotiation, what `write` is seen to have
        published by then, is skipped whole. */
    method SkipNegotiation(first: Moment, second: Moment)
      requires Valid() && seen == [] && counters == Counters(0, 0, 0, None)
      requires WordsLast(|first.others| + |second.others|)
      modifies this`start, ring, ring.buf
      ensures Valid() && old(ring.f.seen) <= start == ring.f.read
      ensures var s := AfterAll(old(ring.m), first.others, ring.capacity, ring.channels);
        && Times(start, ring.channels) in s.Published()
        && (first.pick >= |s.ends| ==> Times(start, ring.channels) == s.Write())
    {
      hide AudioRing.Valid, Sending, Balanced, Payloads, AfterAll, SameProducer, Times, Wrap;
      TimesAdd(|first.others|, |second.others|, ring.capacity);
      var avail := ring.AvailableFrames(first);
      ring.InOrder();
      WrapSmall(ring.f.seen - ring.f.read, ring.word);
      ghost var read := ring.f.read;
      ring.SkipFrames(avail, second);
      ring.InOrder();
      WrapSmall(ring.f.seen - read, ring.word);
      start := ring.f.read;
      NothingSeen(ring.f, ring.capacity, ring.m.log);
    }

    /** Fell behind: skip to a backlog of 10 ms. The clamp in `skip_frames` never bites, because
        the backlog only grows between the check and the skip. */
    method DrainBacklog(avail: nat, before: Moment, ghost later: nat)
      requires Valid() && WordsLast(|before.others| + later)
      requires avail == ring.f.seen - ring.f.read > THRESHOLD
      modifies this, ring, ring.buf
      ensures Valid() && WordsLast(later)
      ensures seen == old(seen) + [Seen(old(ring.f.read), old(ring.f.seen), old(ring.f.fenced), Drain(avail - TARGET))]
      ensures Fatal(Tries(seen)) == Fatal(Tries(old(seen))) && old(ring.f.seen) <= ring.f.seen
      ensures ring.closed == (old(ring.closed) || Close in before.others)
    {
      hide Balanced, Sending, Fatal, Tries, Payloads, Sound, Times, Wrap;
      hide AudioRing.Valid, AfterAll, SameProducer;
      TimesAdd(|before.others|, later, ring.capacity);
      ghost var f, log := ring.f, ring.m.log;
      ghost var s := Seen(f.read, f.seen, f.fenced, Drain(avail - TARGET));
      var n := avail - TARGET;
      ring.SkipFrames(n, before);
      ring.InOrder();
      WrapSmall(ring.f.seen - f.read, ring.word);
      BalancedGrows(seen, start, f, f, ring.capacity, log, ring.m.log, counters);
      DrainSound(s, ring.capacity, ring.m.log);
      Note(seen, s, start, f, ring.f, ring.capacity, ring.m.log, counters);
      NoteFatal(seen, s, start, f, ring.capacity, ring.m.log, counters);
      assert Payloads(seen + [s]) == Payloads(seen);
      counters := counters.(dropped := counters.dropped + n);
      seen := seen + [s];
    }

    /** One whole frame is there: read it, encode it, send it. */
    method ReadAndSend(avail: nat, turn: Turn, ghost later: nat) returns (outcome: Option<Outcome>)
      requires Valid() && Complete(turn) && WordsLast(|Flat(turn.duringRead)| + later)
      requires FRAME_SIZE <= avail == ring.f.seen - ring.f.read <= THRESHOLD
      requires !Fatal(Tries(seen))
      modifies this, ring, ring.buf, pcm, sender, sender.history, sender.history.slots
      ensures Valid() && WordsLast(later)
      ensures |seen| == |old(seen)| + 1 && old(seen) <= seen
      ensures Encodes(turn, seen[|old(seen)|])
      ensures sender.events == old(sender.events) + SentIn(turn, seen[|old(seen)|])
      ensures outcome == OutcomeOf(seen) && (outcome.None? ==> !Fatal(Tries(seen)))
      ensures var s := seen[|old(seen)|];
        s.read == old(ring.f.read) && s.write == old(ring.f.seen) <= ring.f.seen
        && (s.branch.Lap? || s.branch.Unencodable? || s.branch.Attempt?)
      ensures ring.closed == (old(ring.closed) || Close in Flat(turn.duringRead))
    {
      hide Balanced, Sending, Fatal, Tries, Payloads, Sent, Sound, OutcomeOf, Times, Wrap, Quotient, AudioRing.Valid;
      hide Rtp.Step, Rtp.CastRtpSender.Valid, AfterAll, SameProducer, Flat, OthersRan, IsFrame;
      ghost var f := ring.f;
      var read := ReadFrame(turn, later);
      ghost var lap := Seen(f.read, f.seen, ring.f.fenced, Lap);
      ghost var mute := Seen(f.read, f.seen, ring.f.fenced, Unencodable(pcm[..]));
      if !read {
        NoteIdle(lap, f);
        LastPass(seen, lap);
        seen := seen + [lap];
        return None;
      }
      var payload := turn.encode(pcm[..]);
      if payload.None? {
        NoteIdle(mute, f);
        LastPass(seen, mute);
        seen := seen + [mute];
        return Some(EncoderFailed);
      }
      ghost var s := Seen(f.read, f.seen, ring.f.fenced, Attempt(turn.now, turn.delivered, pcm[..], payload.value));
      LastPass(seen, s);
      outcome := SendAndCount(payload.value, turn, s, f);
    }

    /** The call of `read_frames`: a whole frame of the ring's log, or a lap. */
    method ReadFrame(turn: Turn, ghost later: nat) returns (read: bool)
      requires Valid() && Complete(turn) && WordsLast(|Flat(turn.duringRead)| + later)
      requires FRAME_SIZE <= ring.f.seen - ring.f.read <= THRESHOLD
      modifies ring, ring.buf, pcm
      ensures Wired() && ring.Valid() && ring.m.consumer.AtRest? && WordsLast(later)
      ensures Sending(Payloads(seen), counters.frames)
      ensures Balanced(seen, start, old(ring.f), ring.capacity, ring.m.log, counters)
      ensures ring.f.read == old(ring.f.read) + if read then FRAME_SIZE else 0
      ensures old(ring.f.seen) <= ring.f.seen && old(ring.f.fenced) <= ring.f.fenced
      ensures var s := Seen(old(ring.f.read), old(ring.f.seen), ring.f.fenced, Lap);
        if !read then Sound(s, ring.capacity, ring.m.log)
        else
          && Sound(s.(branch := Unencodable(pcm[..])), ring.capacity, ring.m.log)
          && forall now, ok, payload ::
               Sound(s.(branch := Attempt(now, ok, pcm[..], payload)), ring.capacity, ring.m.log)
      ensures ring.closed == (old(ring.closed) || Close in Flat(turn.duringRead))
    {
      hide Balanced, Payloads, Times, Wrap, Quotient, AudioRing.Valid, Rtp.CastRtpSender.Valid;
      hide AfterAll, SameProducer, Flat;
      ghost var f, log := ring.f, ring.m.log;
      TimesAdd(|Flat(turn.duringRead)|, later, ring.capacity);
      FramesOfPcm();
      ring.InOrder();
      Positions(ring.f.read, ring.channels);
      read := ring.ReadFrames(pcm, turn.duringRead);
      ring.InOrder();
      BalancedGrows(seen, start, f, f, ring.capacity, log, ring.m.log, counters);
    }

    method SendAndCount(payload: seq<u8>, turn: Turn, ghost s: Seen, ghost f: Frames) returns (outcome: Option<Outcome>)
      requires Wired() && ring.Valid() && ring.m.consumer.AtRest?
      requires Balanced(seen, start, f, ring.capacity, ring.m.log, counters)
      requires Sound(s, ring.capacity, ring.m.log) && s.read == f.read && ring.f.read == f.read + FRAME_SIZE
      requires f.seen <= s.write <= ring.f.seen && f.fenced <= s.fenced <= ring.f.fenced
      requires s.branch == Attempt(turn.now, turn.delivered, pcm[..], payload)
      requires Sending(Payloads(seen), counters.frames)
      requires !Fatal(Tries(seen))
      modifies this, sender, sender.history, sender.history.slots
      ensures Valid() && seen == old(seen) + [s]
      ensures sender.events == old(sender.events)
        + Rtp.SendEvents(payload, turn.delivered, turn.sentAt, turn.nacksInSend, turn.recordedAfter)
      ensures outcome == if Fatal(Tries(seen)) then Some(SendFailed) else None
    {
      hide Balanced, Sending, Fatal, Tries, Payloads, Sound, AudioRing.Valid, Rtp.SendEvents;
      Note(seen, s, start, f, ring.f, ring.capacity, ring.m.log, counters);
      NoteFatal(seen, s, start, f, ring.capacity, ring.m.log, counters);
      ghost var all := seen + [s];
      var sent := SendOne(payload, turn);
      seen := all;
      if sent {
        counters := counters.(frames := counters.frames + 1, outage := None);
        return None;
      }
      var o := match counters.outage
        case None => Outage(turn.now, 0)
        case Some(o) => o;
      o := o.(frames := o.frames + 1);
      counters := counters.(failures := counters.failures + 1, outage := Some(o));
      if turn.now >= o.since + OUTAGE_FATAL {
        return Some(SendFailed);
      }
      return None;
    }

    method SendOne(payload: seq<u8>, turn: Turn) returns (sent: bool)
      requires Sending(Payloads(seen), counters.frames)
      modifies sender, sender.history, sender.history.slots
      ensures sender.events == old(sender.events)
        + Rtp.SendEvents(payload, turn.delivered, turn.sentAt, turn.nacksInSend, turn.recordedAfter)
      ensures sent == turn.delivered
      ensures Sending(Payloads(seen) + (if sent then [payload] else []), counters.frames + if sent then 1 else 0)
    {
      hide Payloads, Rtp.CastRtpSender.Valid, AudioRing.Valid, Rtp.SendEvents;
      ghost var payloads := Payloads(seen);
      assert plain + (payloads + [payload]) == (plain + payloads) + [payload] && payloads + [] == payloads;
      sent := sender.SendFrame(payload, turn.delivered, turn.sentAt, turn.nacksInSend, turn.recordedAfter);
    }

    /** The NACK thread serves some datagrams: the frame ID and the frames sent stay. */
    method ServeNacks(nacks: seq<Rtp.Nack>)
      requires Valid()
      modifies sender, sender.history, sender.history.slots
      ensures Valid() && sender.events == old(sender.events) + Rtp.Datagrams(nacks)
    {
      hide Payloads, AudioRing.Valid, Balanced, Rtp.CastRtpSender.Valid, Rtp.Run, Rtp.CastRtpSender.State;
      hide Rtp.Datagrams;
      Rtp.DatagramsWhole(nacks);
      var i := 0;
      while i < |nacks|
        invariant 0 <= i <= |nacks| && Sending(Payloads(seen), counters.frames)
        invariant sender.events == old(sender.events) + Rtp.Datagrams(nacks[..i])
      {
        Rtp.DatagramsNext(nacks, i);
        sender.ServeDatagram(nacks[i]);
        i := i + 1;
      }
    }

    /** One pass of the loop; an outcome means the loop is left. */
    method Pass(turn: Turn, ghost later: nat) returns (outcome: Option<Outcome>)
      requires Valid() && Complete(turn) && WordsLast(Accesses(turn) + later)
      requires OutcomeOf(seen).None?
      modifies this, ring, ring.buf, pcm, sender, sender.history, sender.history.slots
      ensures Valid() && WordsLast(later)
      ensures outcome == Some(Stopped) <==> turn.stop
      ensures outcome == Some(SinkClosed) <==> !turn.stop && (old(ring.closed) || Close in turn.beforeClosed)
      ensures outcome == Some(Stopped) ==> sender.events == old(sender.events)
      ensures outcome == Some(SinkClosed) ==> sender.events == old(sender.events) + Rtp.Datagrams(turn.nacks)
      ensures if Quit(outcome) then seen == old(seen)
        else |seen| == |old(seen)| + 1 && old(seen) <= seen
             && outcome == OutcomeOf(seen) && Encodes(turn, seen[|old(seen)|])
             && sender.events == old(sender.events) + SenderEvents(turn, seen[|old(seen)|])
             && old(ring.f.seen) <= seen[|old(seen)|].write <= ring.f.seen
             && ring.closed == (old(ring.closed) || Close in RanIn(turn, seen[|old(seen)|]))
    {
      hide Balanced, Sending, Fatal, Tries, Payloads, Sent, Times, Wrap, Quotient, AudioRing.Valid, OutcomeOf;
      hide Rtp.Step, Rtp.CastRtpSender.Valid, AfterAll, SameProducer, Flat, IsFrame;
      SplitAccesses(turn, later, ring.capacity);
      LastVerdict(seen);
      if turn.stop {
        return Some(Stopped);
      }
      ServeNacks(turn.nacks);
      var found, avail := CheckBacklog(turn);
      if found {
        return Some(SinkClosed);
      }
      if avail > THRESHOLD {
        LastPass(seen, Seen(ring.f.read, ring.f.seen, ring.f.fenced, Drain(avail - TARGET)));
        DrainBacklog(avail, turn.beforeSkip, |Flat(turn.duringRead)| + later);
        return None;
      }
      if avail < FRAME_SIZE {
        ghost var s := Seen(ring.f.read, ring.f.seen, ring.f.fenced, Wait);
        NoteIdle(s, ring.f);
        LastPass(seen, s);
        seen := seen + [s];
        return None;
      }
      outcome := ReadAndSend(avail, turn, later);
      NeverQuits(seen);
    }

    /** The closed check and, past it, the load of the backlog. */
    method CheckBacklog(turn: Turn) returns (found: bool, avail: nat)
      requires Valid() && WordsLast(|turn.beforeClosed| + |turn.beforeBacklog.others|)
      modifies ring, ring.buf
      ensures Valid() && ring.f.read == old(ring.f.read) && old(ring.f.seen) <= ring.f.seen <= ring.f.write
      ensures ring.f.reserved <= old(ring.f.reserved) + Times(|turn.beforeClosed|, ring.capacity)
        + Times(|turn.beforeBacklog.others|, ring.capacity)
      ensures found == (old(ring.closed) || Close in turn.beforeClosed)
      ensures !found ==>
        && avail == ring.f.seen - ring.f.read
        && ring.closed == (old(ring.closed) || Close in turn.beforeClosed + turn.beforeBacklog.others)
    {
      hide Balanced, Sending, Payloads, Times, Wrap, AudioRing.Valid, AfterAll, SameProducer;
      TimesAdd(|turn.beforeClosed|, |turn.beforeBacklog.others|, ring.capacity);
      ghost var f, log := ring.f, ring.m.log;
      avail := 0;
      ring.Interfere(turn.beforeClosed);
      ring.InOrder();
      found := ring.closed;
      if !found {
        avail := ring.AvailableFrames(turn.beforeBacklog);
        ring.InOrder();
        WrapSmall(ring.f.seen - ring.f.read, ring.word);
      }
      BalancedGrows(seen, start, f, ring.f, ring.capacity, log, ring.m.log, counters);
    }

    /** `run`: whatever the producer, the NACK thread, the encoder and the network do, every frame
        index is accounted for, the sender's frame ID advances by the frames sent, each frame sent
        is the encoding of its own stretch of the ring's log, and the loop ends at the first turn
        with a reason for it: a stop, a sink found closed, a frame the encoder refuses, or a streak
        of failed sends that spans five seconds. */
    method Run(turns: seq<Turn>) returns (outcome: Option<Outcome>)
      requires Valid() && seen == [] && WordsLast(AllAccesses(turns))
      requires forall turn :: turn in turns ==> Complete(turn)
      modifies this, ring, ring.buf, pcm, sender, sender.history, sender.history.slots
      ensures Valid()
      ensures ring.f.read
        == start + FRAME_SIZE * (counters.frames + counters.failures + if outcome == Some(EncoderFailed) then 1 else 0)
           + counters.dropped
      ensures outcome == Some(SendFailed) <==> Fatal(Tries(seen))
      ensures forall k :: 0 <= k < |seen| ==> !Fatal(Tries(seen[..k]))
      ensures outcome == Some(EncoderFailed) <==> seen != [] && seen[|seen| - 1].branch.Unencodable?
      ensures |seen| <= |turns| && (outcome.None? ==> |seen| == |turns|)
      ensures forall i :: 0 <= i < |seen| ==>
        Encodes(turns[i], seen[i]) && !turns[i].stop && !FoundClosed(old(ring.closed), turns, seen, i)
      ensures outcome == Some(Stopped) ==> |seen| < |turns| && turns[|seen|].stop
      ensures outcome == Some(SinkClosed) ==>
        |seen| < |turns| && !turns[|seen|].stop && FoundClosed(old(ring.closed), turns, seen, |seen|)
      ensures sender.events == old(sender.events) + RunEvents(turns, seen, outcome)
    {
      hide *;
      NoOutcome();
      outcome := None;
      QuitIs(outcome);
      ghost var closed, events := ring.closed, sender.events;
      NotClosedYet(closed, turns, seen);
      NoEvents(turns);
      var i := 0;
      assert turns[0..] == turns;
      while outcome.None? && i < |turns|
        invariant 0 <= i <= |turns| && (outcome.None? ==> i == |seen|) && |seen| <= i
        invariant Valid() && (outcome.None? ==> WordsLast(AllAccesses(turns[i..])))
        invariant if Quit(outcome) then OutcomeOf(seen).None? else outcome == OutcomeOf(seen)
        invariant outcome.None? ==> ring.closed == ClosedAfter(closed, turns, seen, |seen|)
        invariant forall k :: 0 <= k < |seen| ==> OutcomeOf(seen[..k]).None?
        invariant forall k :: 0 <= k < |seen| ==>
          Encodes(turns[k], seen[k]) && !turns[k].stop && !FoundClosed(closed, turns, seen, k)
        invariant outcome == Some(Stopped) ==> |seen| < |turns| && turns[|seen|].stop
        invariant outcome == Some(SinkClosed) ==>
          |seen| < |turns| && !turns[|seen|].stop && FoundClosed(closed, turns, seen, |seen|)
        invariant |seen| <= |turns| && (outcome == Some(SinkClosed) ==> |seen| < |turns|)
        invariant sender.events == events + RunEvents(turns, seen, outcome)
        decreases |turns| - i
      {
        NextTurn(turns, i);
        ghost var before, was, sent := seen, ring.closed, sender.events;
        outcome := Pass(turns[i], AllAccesses(turns[i + 1..]));
        KeepsPrefixes(before, seen);
        QuitIs(outcome);
        ClosedNext(closed, turns, before, seen, was);
        RanOn(turns, before, seen, outcome, events, sent, sender.events);
        i := i + 1;
      }
      QuitIs(outcome);
      FinalBooks(seen);
      Books();
    }

    /** The counters of a valid state are those of the passes made. */
    lemma Books()
      requires Valid()
      ensures ring.f.read == start + Consumed(seen)
      ensures counters == Counters(Sent(seen), Dropped(seen), Failed(seen), OutageOf(Tries(seen)))
    {
    }

    /** Bookkeeping of a pass that neither dropped nor tried anything. */
    lemma NoteIdle(s: Seen, f: Frames)
      requires Balanced(seen, start, f, ring.capacity, ring.m.log, counters)
      requires Sound(s, ring.capacity, ring.m.log) && s.read == f.read && ring.f.read == f.read + s.Consumed()
      requires f.seen <= s.write <= ring.f.seen && f.fenced <= s.fenced <= ring.f.fenced
      requires !s.branch.Drain? && !s.branch.Attempt?
      ensures Balanced(seen + [s], start, ring.f, ring.capacity, ring.m.log, counters)
      ensures Payloads(seen + [s]) == Payloads(seen)
      ensures Fatal(Tries(seen + [s])) == Fatal(Tries(seen))
    {
      Note(seen, s, start, f, ring.f, ring.capacity, ring.m.log, counters);
      NoteFatal(seen, s, start, f, ring.capacity, ring.m.log, counters);
    }
  }

  lemma NotClosedYet(closed: bool, turns: seq<Turn>, seen: seq<Seen>)
    ensures ClosedAfter(closed, turns, seen, 0) == closed
  {
  }

  /** One more pass, or none if the loop is left at its head. */
  lemma ClosedNext(closed: bool, turns: seq<Turn>, before: seq<Seen>, seen: seq<Seen>, was: bool)
    requires |before| < |turns| && was == ClosedAfter(closed, turns, before, |before|)
    requires before <= seen && |seen| <= |before| + 1
    ensures FoundClosed(closed, turns, before, |before|) == (was || Close in turns[|before|].beforeClosed)
    ensures forall k :: 0 <= k <= |before| ==>
      FoundClosed(closed, turns, seen, k) == FoundClosed(closed, turns, before, k)
    ensures |seen| == |before| + 1 ==>
      ClosedAfter(closed, turns, seen, |seen|) == (was || Close in RanIn(turns[|before|], seen[|before|]))
  {
    hide RanIn;
    forall k | 0 <= k <= |before|
      ensures ClosedAfter(closed, turns, seen, k) == ClosedAfter(closed, turns, before, k)
    {
      assert forall i :: 0 <= i < k ==> seen[i] == before[i];
    }
  }

  lemma NoTries()
    ensures !Fatal(Tries([]))
  {
  }

  lemma SplitAccesses(turn: Turn, later: nat, capacity: nat)
    ensures Times(Accesses(turn) + later, capacity)
      == Times(|turn.beforeClosed|, capacity) + Times(|turn.beforeBacklog.others|, capacity)
         + Times(|turn.beforeSkip.others|, capacity) + Times(|Flat(turn.duringRead)|, capacity) + Times(later, capacity)
    ensures Times(|turn.beforeClosed| + |turn.beforeBacklog.others|, capacity)
      == Times(|turn.beforeClosed|, capacity) + Times(|turn.beforeBacklog.others|, capacity)
    ensures Times(|turn.beforeSkip.others| + (|Flat(turn.duringRead)| + later), capacity)
      == Times(|turn.beforeSkip.others|, capacity) + Times(|Flat(turn.duringRead)|, capacity) + Times(later, capacity)
    ensures Times(|Flat(turn.duringRead)| + later, capacity)
      == Times(|Flat(turn.duringRead)|, capacity) + Times(later, capacity)
  {
    hide Times, Flat;
    var a, b := |turn.beforeClosed|, |turn.beforeBacklog.others|;
    var c, d := |turn.beforeSkip.others|, |Flat(turn.duringRead)|;
    TimesAdd(d, later, capacity);
    TimesAdd(c, d + later, capacity);
    TimesAdd(b, c + d + later, capacity);
    TimesAdd(a, b + c + d + later, capacity);
    TimesAdd(a, b, capacity);
  }

  lemma NextTurn(turns: seq<Turn>, i: nat)
    requires i < |turns|
    ensures AllAccesses(turns[i..]) == Accesses(turns[i]) + AllAccesses(turns[i + 1..])
  {
    assert turns[i..][1..] == turns[i + 1..];
  }

  lemma KeepsPrefixes(before: seq<Seen>, seen: seq<Seen>)
    requires before <= seen
    ensures forall k :: 0 <= k <= |before| ==> seen[..k] == before[..k]
    ensures before[..|before|] == before
  {
  }

  /** Only the last pass can have been refused by the encoder. */
  lemma {:induction false} RefusedLast(seen: seq<Seen>)
    requires forall k :: 0 <= k < |seen| ==> OutcomeOf(seen[..k]).None?
    ensures Refused(seen) == if OutcomeOf(seen) == Some(EncoderFailed) then 1 else 0
  {
    hide Fatal, Tries;
    if seen != [] {
      var before := seen[..|seen| - 1];
      assert forall k :: 0 <= k < |before| ==> before[..k] == seen[..k];
      RefusedLast(before);
    }
  }

  /** What the verdict on every pass says about the whole. */
  lemma FinalBooks(seen: seq<Seen>)
    requires forall k :: 0 <= k < |seen| ==> OutcomeOf(seen[..k]).None?
    ensures Consumed(seen)
      == FRAME_SIZE * (Sent(seen) + Failed(seen) + if OutcomeOf(seen) == Some(EncoderFailed) then 1 else 0)
         + Dropped(seen)
    ensures forall k :: 0 <= k < |seen| ==> !Fatal(Tries(seen[..k]))
    ensures OutcomeOf(seen) == Some(SendFailed) <==> Fatal(Tries(seen))
    ensures OutcomeOf(seen) == Some(EncoderFailed) <==> seen != [] && seen[|seen| - 1].branch.Unencodable?
  {
    EncoderVerdict(seen);
    hide OutcomeOf, Fatal, Tries, Consumed, Sent, Failed, Dropped, Refused;
    ConsumedIsConserved(seen);
    RefusedLast(seen);
    forall k | 0 <= k < |seen| ensures !Fatal(Tries(seen[..k])) {
      LastVerdict(seen[..k]);
    }
    FatalVerdict(seen);
  }

  lemma EncoderVerdict(seen: seq<Seen>)
    ensures OutcomeOf(seen) == Some(EncoderFailed) <==> seen != [] && seen[|seen| - 1].branch.Unencodable?
  {
  }

  lemma FatalVerdict(seen: seq<Seen>)
    requires seen != [] ==> OutcomeOf(seen[..|seen| - 1]).None?
    ensures OutcomeOf(seen) == Some(SendFailed) <==> Fatal(Tries(seen))
  {
    hide Tries, Streak;
    if seen == [] {
      NoTries();
    } else {
      LastVerdict(seen[..|seen| - 1]);
      assert seen == seen[..|seen| - 1] + [seen[|seen| - 1]];
      SeenSnoc(seen[..|seen| - 1], seen[|seen| - 1]);
    }
  }

  lemma LastVerdict(seen: seq<Seen>)
    ensures OutcomeOf(seen).None? ==> !Fatal(Tries(seen))
  {
  }

  lemma NoOutcome()
    ensures OutcomeOf([]).None?
  {
  }

  lemma DrainSound(s: Seen, capacity: nat, log: seq<Sample>)
    requires s.branch.Drain? && s.Backlog() > THRESHOLD && s.branch.dropped == s.Backlog() - TARGET
    ensures Sound(s, capacity, log)
  {
  }
}
