/** The ring as the program has it: three word-sized frame indices that wrap, a slot array indexed
    through a mask, and per-sample copy loops.

    An atomic location is kept as its modification order, every value stored there so far. What a
    load may return is bounded by what its thread has seen: nothing older than it loaded from there
    before, than the stores published by the `write` it acquired, or than the `reserved` stored
    before a sample it copied. The reader's methods run with producer accesses scheduled before each
    of their loads and with a pick of the value each load returns, so that a contract covers every
    interleaving and every stale value. A ghost machine of module RingMachine advances in lock step,
    which makes every theorem about its runs a theorem about this code. */
module AudioRing {
  import opened Words
  import opened RingMachine

  /** One atomic access of another thread: of `write_s16le`, or `close`. */
  datatype Access = Reserve(bytes: seq<u8>) | StoreSlot | PublishWrite | Close

  /** Before one load of the reader: what the producer thread does, and how many values past the
      oldest admissible one the load returns (the newest, if there are not as many). */
  datatype Moment = Moment(others: seq<Access>, pick: nat)

  /** One store to a slot; `batch` tells which store of `reserved` came before it. */
  datatype Cell = Cell(sample: Sample, batch: nat)

  /** One store to `write`, with the number of slot stores it publishes. */
  datatype Publication = Publication(index: nat, stored: nat)

  /** The producer thread's registers while it is inside `write_s16le`. */
  datatype Call = NoCall | InCall(batch: seq<Sample>, stored: nat, base: nat, end: nat)

  /** What the reader knows of `write` and `reserved`, and of `reserved` through the slots it is
      copying: positions in their modification orders. */
  datatype View = View(write: nat, reserved: nat, copy: nat)

  /** `i16::from_le_bytes`. */
  function FromLE(lo: u8, hi: u8): Sample
  {
    var v: int := hi as int * 256 + lo;
    if v >= 0x8000 then v - 0x1_0000 else v
  }

  function Decode(bytes: seq<u8>): (s: seq<Sample>)
    ensures |s| == |bytes| / 2
  {
    seq(|bytes| / 2, i requires 0 <= i < |bytes| / 2 => FromLE(bytes[2 * i], bytes[2 * i + 1]))
  }

  /** What a call of `write_s16le` contributes to the stream: the newest `capacity` whole frames. */
  function Kept(bytes: seq<u8>, capacity: nat, channels: nat): (kept: seq<Sample>)
    requires channels > 0
    ensures |kept| == Times(KeptFrames(bytes, capacity, channels), channels)
    ensures KeptFrames(bytes, capacity, channels) <= |kept| <= Times(capacity, channels)
  {
    var frames := Quotient(|bytes|, 2 * channels);
    var n := KeptFrames(bytes, capacity, channels);
    WholeFrames(|bytes|, channels);
    TimesOrder(n, frames, channels);
    TimesOrder(n, capacity, channels);
    TimesAtLeast(n, channels);
    var whole := Decode(bytes[..2 * Times(frames, channels)]);
    whole[|whole| - Times(n, channels)..]
  }

  function KeptFrames(bytes: seq<u8>, capacity: nat, channels: nat): nat
    requires channels > 0
  {
    Min(Quotient(|bytes|, 2 * channels), capacity)
  }

  lemma WholeFrames(length: nat, channels: nat)
    requires channels > 0
    ensures Times(Quotient(length, 2 * channels), 2 * channels)
         == 2 * Times(Quotient(length, 2 * channels), channels) <= length
  {
    QuotientIsDivision(length, 2 * channels);
    TimesTwice(Quotient(length, 2 * channels), channels);
  }

  /** What an access of the producer thread is to the machine; a thread that has not reached the
      access does nothing, and `close` touches no index. */
  function After(m: Ring, access: Access, capacity: nat, channels: nat): Ring
    requires channels > 0
  {
    match access
    case Reserve(bytes) => StepIf(m, Begin(Kept(bytes, capacity, channels)))
    case StoreSlot => StepIf(m, Store)
    case PublishWrite => StepIf(m, Publish)
    case Close => m
  }

  function StepIf(m: Ring, a: Action): Ring
  {
    if Enabled(m, a) then Step(m, a) else m
  }

  function AfterAll(m: Ring, accesses: seq<Access>, capacity: nat, channels: nat): Ring
    requires channels > 0
  {
    if accesses == [] then m else
      After(AfterAll(m, accesses[..|accesses| - 1], capacity, channels), accesses[|accesses| - 1], capacity, channels)
  }

  lemma AfterNone(m: Ring, capacity: nat, channels: nat)
    requires channels > 0
    ensures AfterAll(m, [], capacity, channels) == m && Times(0, capacity) == 0
  {
  }

  lemma AfterNext(m: Ring, accesses: seq<Access>, i: nat, capacity: nat, channels: nat)
    requires channels > 0 && i < |accesses|
    ensures AfterAll(m, accesses[..i + 1], capacity, channels)
      == After(AfterAll(m, accesses[..i], capacity, channels), accesses[i], capacity, channels)
    ensures accesses[..i + 1] == accesses[..i] + [accesses[i]]
    ensures Times(i + 1, capacity) == Times(i, capacity) + capacity
  {
    hide After;
    assert accesses[..i + 1][..i] == accesses[..i];
  }

  /** The accesses of one call of `write_s16le`. */
  function WholeCall(bytes: seq<u8>, capacity: nat, channels: nat): seq<Access>
    requires channels > 0
  {
    [Reserve(bytes)] + Slots(|Kept(bytes, capacity, channels)|) + [PublishWrite]
  }

  function Slots(n: nat): seq<Access>
  {
    seq(n, i => StoreSlot)
  }

  /** What the accesses of a whole call come to, run in one go or with anything of the reader in
      between: the kept samples are appended and published, or nothing happens if there are none. */
  lemma WholeCallAppends(m: Ring, bytes: seq<u8>, capacity: nat, channels: nat)
    requires channels > 0 && m.producer.Idle? && m.capacity == Times(capacity, channels)
    ensures AfterAll(m, WholeCall(bytes, capacity, channels), capacity, channels)
      == Appended(m, Kept(bytes, capacity, channels))
  {
    hide AfterAll, After, Kept, Times;
    var kept := Kept(bytes, capacity, channels);
    Around(m, Reserve(bytes), Slots(|kept|), PublishWrite, capacity, channels);
    Reserves(m, bytes, capacity, channels);
    if kept == [] {
      assert Slots(0) == [];
      AfterNone(m, capacity, channels);
      Publishes(m, capacity, channels);
      assert m.log + kept == m.log;
    } else {
      var s := m.(ends := m.ends + [m.Reserved() + |kept|], producer := Writing(kept, 0));
      SlotsStored(s, |kept|, capacity, channels);
      assert kept[0..|kept|] == kept;
      Publishes(s.(log := m.log + kept, producer := Writing(kept, |kept|)), capacity, channels);
    }
  }

  function Appended(m: Ring, kept: seq<Sample>): Ring
  {
    if kept == [] then m else m.(log := m.log + kept, ends := m.ends + [m.Reserved() + |kept|])
  }

  function Calls(arguments: seq<seq<u8>>, capacity: nat, channels: nat): seq<Access>
    requires channels > 0
  {
    if arguments == [] then []
    else Calls(arguments[..|arguments| - 1], capacity, channels)
         + WholeCall(arguments[|arguments| - 1], capacity, channels)
  }

  function AllKept(arguments: seq<seq<u8>>, capacity: nat, channels: nat): seq<Sample>
    requires channels > 0
  {
    if arguments == [] then []
    else AllKept(arguments[..|arguments| - 1], capacity, channels)
         + Kept(arguments[|arguments| - 1], capacity, channels)
  }

  /** What `s` and `t` differ in is that `kept` was appended and published. */
  ghost predicate Extended(s: Ring, t: Ring, kept: seq<Sample>)
  {
    t == s.(log := s.log + kept, ends := t.ends) && t.Reserved() == s.Reserved() + |kept|
  }

  /** The log is what all calls kept, one after the other, and nothing else. */
  lemma {:induction false} CallsAppend(m: Ring, arguments: seq<seq<u8>>, capacity: nat, channels: nat)
    requires channels > 0 && m.producer.Idle? && m.capacity == Times(capacity, channels)
    ensures Extended(m, AfterAll(m, Calls(arguments, capacity, channels), capacity, channels),
                     AllKept(arguments, capacity, channels))
  {
    hide AfterAll, WholeCall, Kept, Times, Appended, Extended;
    if arguments == [] {
      AfterNone(m, capacity, channels);
      Extends(m, []);
    } else {
      var n := |arguments| - 1;
      var before, last := Calls(arguments[..n], capacity, channels), arguments[n];
      CallsAppend(m, arguments[..n], capacity, channels);
      AfterAppend(m, before, WholeCall(last, capacity, channels), capacity, channels);
      var t := AfterAll(m, before, capacity, channels);
      ExtendedKeeps(m, t, AllKept(arguments[..n], capacity, channels));
      WholeCallAppends(t, last, capacity, channels);
      Extends(t, Kept(last, capacity, channels));
      ExtendedThen(m, t, Appended(t, Kept(last, capacity, channels)), AllKept(arguments[..n], capacity, channels),
                   Kept(last, capacity, channels));
    }
  }

  lemma Extends(m: Ring, kept: seq<Sample>)
    ensures Extended(m, Appended(m, kept), kept)
    ensures Appended(m, []) == m
  {
    assert m.log + [] == m.log;
  }

  lemma ExtendedKeeps(s: Ring, t: Ring, kept: seq<Sample>)
    requires Extended(s, t, kept)
    ensures t.producer == s.producer && t.capacity == s.capacity
  {
  }

  lemma ExtendedThen(s: Ring, t: Ring, u: Ring, a: seq<Sample>, b: seq<Sample>)
    requires Extended(s, t, a) && Extended(t, u, b)
    ensures Extended(s, u, a + b)
  {
    assert s.log + (a + b) == (s.log + a) + b;
  }

  lemma Reserves(m: Ring, bytes: seq<u8>, capacity: nat, channels: nat)
    requires channels > 0 && m.producer.Idle? && m.capacity == Times(capacity, channels)
    ensures var kept := Kept(bytes, capacity, channels);
      After(m, Reserve(bytes), capacity, channels) == if kept == [] then m
        else m.(ends := m.ends + [m.Reserved() + |kept|], producer := Writing(kept, 0))
  {
    hide Kept, KeptFrames, Times;
  }

  lemma Publishes(m: Ring, capacity: nat, channels: nat)
    requires channels > 0 && (m.producer.Writing? ==> m.producer.done == |m.producer.batch|)
    ensures After(m, PublishWrite, capacity, channels) == m.(producer := Idle)
  {
  }

  lemma Around(m: Ring, first: Access, middle: seq<Access>, last: Access, capacity: nat, channels: nat)
    requires channels > 0
    ensures AfterAll(m, [first] + middle + [last], capacity, channels)
      == After(AfterAll(After(m, first, capacity, channels), middle, capacity, channels), last, capacity, channels)
  {
    hide AfterAll, After;
    AfterOne(m, first, capacity, channels);
    AfterAppend(m, [first], middle, capacity, channels);
    AfterOne(AfterAll(m, [first] + middle, capacity, channels), last, capacity, channels);
    AfterAppend(m, [first] + middle, [last], capacity, channels);
  }

  lemma AfterOne(m: Ring, access: Access, capacity: nat, channels: nat)
    requires channels > 0
    ensures AfterAll(m, [access], capacity, channels) == After(m, access, capacity, channels)
  {
    hide After;
    assert [access][..0] == [];
    assert AfterAll(m, [], capacity, channels) == m;
  }

  lemma {:induction false} SlotsStored(m: Ring, n: nat, capacity: nat, channels: nat)
    requires channels > 0 && m.producer.Writing? && m.producer.done + n <= |m.producer.batch|
    ensures AfterAll(m, Slots(n), capacity, channels) == Stored(m, n)
  {
    hide AfterAll, After, Slots, Stored;
    SlotsNext(n);
    if n == 0 {
      AfterNone(m, capacity, channels);
      NoneStored(m);
    } else {
      SlotsStored(m, n - 1, capacity, channels);
      AfterNext(m, Slots(n), n - 1, capacity, channels);
      assert Slots(n)[..n] == Slots(n);
      StoredNext(m, n - 1, capacity, channels);
    }
  }

  lemma SlotsNext(n: nat)
    ensures |Slots(n)| == n && (n == 0 ==> Slots(n) == [])
    ensures n > 0 ==> Slots(n)[..n - 1] == Slots(n - 1) && Slots(n)[n - 1] == StoreSlot
  {
  }

  /** `n` more samples of the batch stored. */
  function Stored(m: Ring, n: nat): Ring
    requires m.producer.Writing? && m.producer.done + n <= |m.producer.batch|
  {
    var (b, d) := (m.producer.batch, m.producer.done);
    m.(log := m.log + b[d..d + n], producer := Writing(b, d + n))
  }

  lemma NoneStored(m: Ring)
    requires m.producer.Writing? && m.producer.done <= |m.producer.batch|
    ensures Stored(m, 0) == m
  {
    var (b, d) := (m.producer.batch, m.producer.done);
    assert m.log + b[d..d] == m.log;
  }

  lemma StoredNext(m: Ring, n: nat, capacity: nat, channels: nat)
    requires channels > 0 && m.producer.Writing? && m.producer.done + n < |m.producer.batch|
    ensures After(Stored(m, n), StoreSlot, capacity, channels) == Stored(m, n + 1)
  {
    var (b, d) := (m.producer.batch, m.producer.done);
    assert (m.log + b[d..d + n]) + [b[d + n]] == m.log + b[d..d + n + 1];
  }

  /** Equal as far as the producer thread can tell. */
  ghost predicate SameProducer(s: Ring, t: Ring)
  {
    s.capacity == t.capacity && s.log == t.log && s.ends == t.ends && s.producer == t.producer
  }

  lemma {:induction false} SameAfterAll(s: Ring, t: Ring, accesses: seq<Access>, capacity: nat, channels: nat)
    requires channels > 0 && SameProducer(s, t)
    ensures SameProducer(AfterAll(s, accesses, capacity, channels), AfterAll(t, accesses, capacity, channels))
  {
    hide After, SameProducer;
    if accesses != [] {
      var n := |accesses| - 1;
      SameAfterAll(s, t, accesses[..n], capacity, channels);
      SameAfter(AfterAll(s, accesses[..n], capacity, channels), AfterAll(t, accesses[..n], capacity, channels),
                accesses[n], capacity, channels);
    }
  }

  lemma SameAfter(s: Ring, t: Ring, access: Access, capacity: nat, channels: nat)
    requires channels > 0 && SameProducer(s, t)
    ensures SameProducer(After(s, access, capacity, channels), After(t, access, capacity, channels))
  {
    hide Kept;
  }

  lemma {:induction false} AfterAppend(m: Ring, a: seq<Access>, b: seq<Access>, capacity: nat, channels: nat)
    requires channels > 0
    ensures AfterAll(m, a + b, capacity, channels)
      == AfterAll(AfterAll(m, a, capacity, channels), b, capacity, channels)
  {
    hide After;
    if b == [] {
      assert a + b == a;
    } else {
      AfterAppend(m, a, b[..|b| - 1], capacity, channels);
      assert (a + b)[..|a + b| - 1] == a + b[..|b| - 1];
    }
  }

  /** The producer ran through `a` from `o` to `m` and through `b` from there to `n`. */
  lemma RanThen(o: Ring, m: Ring, n: Ring, a: seq<Access>, b: seq<Access>, capacity: nat, channels: nat)
    requires channels > 0
    requires SameProducer(m, AfterAll(o, a, capacity, channels))
    requires SameProducer(n, AfterAll(m, b, capacity, channels))
    ensures SameProducer(n, AfterAll(o, a + b, capacity, channels))
  {
    AfterAppend(o, a, b, capacity, channels);
    SameAfterAll(m, AfterAll(o, a, capacity, channels), b, capacity, channels);
  }

  /** All accesses of a schedule, in order. */
  function Flat(schedule: seq<Moment>): seq<Access>
  {
    if schedule == [] then [] else Flat(schedule[..|schedule| - 1]) + schedule[|schedule| - 1].others
  }

  lemma FlatNone(schedule: seq<Moment>)
    ensures Flat(schedule[..0]) == []
  {
  }

  lemma FlatNext(schedule: seq<Moment>, i: nat)
    requires i < |schedule|
    ensures Flat(schedule[..i + 1]) == Flat(schedule[..i]) + schedule[i].others
  {
    assert schedule[..i + 1][..i] == schedule[..i];
  }

  lemma {:induction false} FlatCons(schedule: seq<Moment>)
    requires schedule != []
    ensures Flat(schedule) == schedule[0].others + Flat(schedule[1..])
  {
    var n := |schedule| - 1;
    var front, rest := schedule[..n], schedule[1..];
    FlatNone(schedule);
    FlatLast(schedule);
    if n > 0 {
      hide Flat;
      FlatCons(front);
      assert front[0] == schedule[0] && front[1..] == rest[..n - 1];
      FlatLast(rest);
    } else {
      assert front == [] && rest == [];
    }
  }

  lemma FlatLast(schedule: seq<Moment>)
    requires schedule != []
    ensures Flat(schedule) == Flat(schedule[..|schedule| - 1]) + schedule[|schedule| - 1].others
  {
  }

  lemma FlatParts(schedule: seq<Moment>)
    requires |schedule| >= 2
    ensures var k := |schedule| - 1;
      Flat(schedule) == schedule[0].others + Flat(schedule[1..k]) + schedule[k].others
  {
    var k := |schedule| - 1;
    FlatCons(schedule[..k]);
    assert schedule[..k][1..] == schedule[1..k];
  }

  /** The ring between two loads of the reader: the machine, the frame indices, the closed flag. */
  datatype Instant = Instant(m: Ring, f: Frames, closed: bool)

  /** From `s` to `n` other threads ran `accesses` and the reader copied `copied` slots more. */
  ghost predicate Copied(s: Instant, n: Instant, accesses: seq<Access>, copied: seq<Sample>,
                         capacity: nat, channels: nat)
  {
    && channels > 0 && s.m.consumer.Copying? && n.m.consumer.Copying?
    && n.m.consumer.need == s.m.consumer.need && n.m.consumer.out == s.m.consumer.out + copied
    && OthersRan(s.m, n.m.(consumer := s.m.consumer))
    && Ahead(s.f, n.f, Times(|accesses|, capacity))
    && SameProducer(n.m, AfterAll(s.m, accesses, capacity, channels))
    && n.closed == (s.closed || Close in accesses)
  }

  lemma NothingCopied(s: Instant, capacity: nat, channels: nat)
    requires channels > 0 && s.m.consumer.Copying?
    ensures Copied(s, s, [], [], capacity, channels)
  {
    assert s.m.consumer.out + [] == s.m.consumer.out;
  }

  lemma CopiedNext(s: Instant, k: Instant, n: Instant, schedule: seq<Moment>, i: nat, copied: seq<Sample>,
                   sample: Sample, capacity: nat, channels: nat)
    requires i < |schedule|
    requires Copied(s, k, Flat(schedule[..i]), copied, capacity, channels)
    requires Copied(k, n, schedule[i].others, [sample], capacity, channels)
    ensures Copied(s, n, Flat(schedule[..i + 1]), copied + [sample], capacity, channels)
  {
    hide SameProducer, AfterAll, OthersRan, Ahead, Flat, Times;
    var accesses := Flat(schedule[..i]);
    OthersRanOn(s.m, k.m, n.m);
    AheadOn(s.f, k.f, n.f, Times(|accesses|, capacity), Times(|schedule[i].others|, capacity));
    TimesAdd(|accesses|, |schedule[i].others|, capacity);
    FlatNext(schedule, i);
    RanThen(s.m, k.m, n.m, accesses, schedule[i].others, capacity, channels);
    assert s.m.consumer.out + (copied + [sample]) == (s.m.consumer.out + copied) + [sample];
  }

  /** The read has loaded `write` and goes on to copy if that covers the request. */
  ghost predicate Started(s: Instant, n: Instant, need: nat, length: nat, enough: bool, before: Moment,
                          capacity: nat, channels: nat)
  {
    && channels > 0
    && OthersRan(s.m, n.m.(seen := s.m.seen, consumer := s.m.consumer))
    && Ahead(s.f, n.f.(seen := s.f.seen), Times(|before.others|, capacity))
    && s.f.seen <= n.f.seen <= n.f.write && n.f.fenced <= n.f.reserved
    && (before.pick >= |n.m.ends| ==> n.f.seen == n.f.write)
    && enough == (need <= n.f.seen - n.f.read)
    && n.m.consumer == (if enough then Copying(length, [], 0) else AtRest)
    && SameProducer(n.m, AfterAll(s.m, before.others, capacity, channels))
    && n.closed == (s.closed || Close in before.others)
  }

  /** The read has loaded `reserved`, and moved on past the copy if that is no lap ahead. */
  ghost predicate Finished(s: Instant, n: Instant, need: nat, ok: bool, before: Moment, capacity: nat, channels: nat)
  {
    && channels > 0 && s.m.consumer.Copying? && n.m.consumer.AtRest? && s.m.log <= n.m.log
    && Ahead(s.f, n.f.(read := s.f.read, fenced := s.f.fenced), Times(|before.others|, capacity))
    && s.f.fenced <= n.f.fenced <= n.f.reserved
    && (before.pick >= |n.m.ends| ==> n.f.fenced == n.f.reserved) && |s.m.ends| <= |n.m.ends|
    && ok == (n.f.fenced - s.f.read <= capacity)
    && (ok ==>
          && n.f.read == s.f.read + need
          && n.m.read == s.m.read + s.m.consumer.need <= |n.m.log|
          && s.m.consumer.out == n.m.log[s.m.read..n.m.read]
          && n.m.taken == s.m.taken + s.m.consumer.out
          && n.m.ops == s.m.ops + [Take(s.m.consumer.need)])
    && (!ok ==> n.f.read == s.f.read && n.m.taken == s.m.taken && n.m.ops == s.m.ops)
    && SameProducer(n.m, AfterAll(s.m, before.others, capacity, channels))
    && n.closed == (s.closed || Close in before.others)
  }

  /** A whole call of `skip_frames`. The cursor moves by the smaller of the request and what the
      loaded `write` publishes, and the dropped stretch is recorded. */
  ghost predicate Skipped(s: Instant, n: Instant, count: nat, before: Moment, word: nat, capacity: nat, channels: nat)
  {
    && channels > 0 && word > 0 && n.m.consumer.AtRest? && n.m.taken == s.m.taken && s.m.log <= n.m.log
    && Ahead(s.f, n.f.(read := s.f.read, seen := s.f.seen), Times(|before.others|, capacity))
    && s.f.read <= n.f.read <= n.f.seen <= n.f.write && s.f.seen <= n.f.seen
    && n.f.read - s.f.read == Min(count, Wrap(n.f.seen - s.f.read, word))
    && n.m.ops == s.m.ops + [Drop(Times(n.f.read - s.f.read, channels))]
    && SameProducer(n.m, AfterAll(s.m, before.others, capacity, channels))
    && n.closed == (s.closed || Close in before.others)
  }

  lemma SkippedIs(s: Instant, k: Instant, n: Instant, count: nat, before: Moment, word: nat,
                  capacity: nat, channels: nat)
    requires channels > 0 && word > 0 && s.m.consumer.AtRest?
    requires OthersRan(s.m, k.m) && Ahead(s.f, k.f, Times(|before.others|, capacity))
    requires k.m == AfterAll(s.m, before.others, capacity, channels)
    requires k.closed == (s.closed || Close in before.others) && n.closed == k.closed
    requires k.f.seen <= n.f.seen <= k.f.write && k.f.read <= n.f.read <= n.f.seen
    requires n.f == k.f.(seen := n.f.seen, read := n.f.read)
    requires n.f.read - k.f.read == Min(count, Wrap(n.f.seen - k.f.read, word))
    requires n.m == k.m.(seen := n.m.seen, read := n.m.read,
                         ops := k.m.ops + [Drop(Times(n.f.read - k.f.read, channels))])
    ensures Skipped(s, n, count, before, word, capacity, channels)
  {
    hide AfterAll, Times, Wrap;
  }

  lemma StartedFrom(s: Instant, k: Instant, n: Instant, need: nat, length: nat, enough: bool, before: Moment,
                    capacity: nat, channels: nat)
    requires channels > 0 && s.m.consumer.AtRest?
    requires OthersRan(s.m, k.m) && Ahead(s.f, k.f, Times(|before.others|, capacity))
    requires k.m == AfterAll(s.m, before.others, capacity, channels)
    requires k.closed == (s.closed || Close in before.others) && n.closed == k.closed
    requires k.f.seen <= n.f.seen <= k.f.write && k.f.fenced <= k.f.reserved && n.f == k.f.(seen := n.f.seen)
    requires before.pick >= |k.m.ends| ==> n.f.seen == k.f.write
    requires enough == (need <= n.f.seen - n.f.read)
    requires n.m == k.m.(seen := n.m.seen, consumer := if enough then Copying(length, [], 0) else AtRest)
    ensures Started(s, n, need, length, enough, before, capacity, channels)
  {
    hide AfterAll, Times;
  }

  lemma FinishedIs(s: Instant, k: Instant, n: Instant, need: nat, ok: bool, before: Moment,
                   capacity: nat, channels: nat)
    requires channels > 0 && s.m.consumer.Copying?
    requires OthersRan(s.m, k.m) && Ahead(s.f, k.f, Times(|before.others|, capacity))
    requires k.m == AfterAll(s.m, before.others, capacity, channels)
    requires k.closed == (s.closed || Close in before.others) && n.closed == k.closed
    requires k.f.fenced <= n.f.fenced <= k.f.reserved && ok == (n.f.fenced - k.f.read <= capacity)
    requires before.pick >= |k.m.ends| ==> n.f.fenced == k.f.reserved
    requires if ok then
        && n.m == k.m.(fenced := n.m.fenced, consumer := AtRest, read := k.m.read + k.m.consumer.need,
                       taken := k.m.taken + k.m.consumer.out, ops := k.m.ops + [Take(k.m.consumer.need)])
        && n.f == k.f.(fenced := n.f.fenced, read := k.f.read + need)
        && k.m.read + k.m.consumer.need <= |k.m.log|
        && k.m.consumer.out == k.m.log[k.m.read..k.m.read + k.m.consumer.need]
      else n.m == k.m.(fenced := n.m.fenced, consumer := AtRest) && n.f == k.f.(fenced := n.f.fenced)
    ensures Finished(s, n, need, ok, before, capacity, channels)
  {
    hide AfterAll, Times;
  }

  lemma SameFrames(a: nat, b: nat, channels: nat)
    requires channels > 0
    ensures Times(a, channels) == Times(b, channels) ==> a == b
  {
    TimesOrder(a, b, channels);
    TimesOrder(b, a, channels);
  }

  lemma WholeSchedule(schedule: seq<Moment>)
    ensures schedule[..|schedule|] == schedule
  {
  }

  lemma ReaderStays(s: Ring, t: Ring)
    requires OthersRan(s, t)
    ensures t.consumer == s.consumer
  {
  }

  lemma StillAhead(f: Frames, g: Frames, most: int)
    requires Ahead(f, g, most)
    ensures g.read == f.read && g.reserved - g.read <= f.reserved - f.read + most
  {
  }

  /** A whole call of `read_frames`. It succeeds exactly when the request is not empty, the `write`
      it loads covers it, and the `reserved` it loads is no lap ahead. On success `out` is the next
      stretch of the log and the cursor moves past it; otherwise nothing moved, and if the read was
      refused at its start `out` is as before. The producer ran through the accesses scheduled up
      to the end of the read and was not disturbed by it. A pick past the last value loads the
      newest. */
  ghost predicate ReadOutcome(s: Instant, n: Instant, ok: bool, was: seq<Sample>, out: seq<Sample>,
                              schedule: seq<Moment>, capacity: nat, channels: nat)
  {
    && channels > 0 && schedule != [] && n.m.consumer.AtRest? && s.m.log <= n.m.log
    && Ahead(s.f, n.f.(read := s.f.read, seen := s.f.seen, fenced := s.f.fenced), Times(|Flat(schedule)|, capacity))
    && s.f.seen <= n.f.seen <= n.f.write && s.f.fenced <= n.f.fenced <= n.f.reserved
    && var need := Quotient(|out|, channels);
    && (ok <==> 0 < need <= n.f.seen - s.f.read && n.f.fenced - s.f.read <= capacity)
    && (need > 0 && schedule[0].pick >= |n.m.ends| ==> s.f.write <= n.f.seen)
    && (0 < need <= n.f.seen - s.f.read && schedule[|schedule| - 1].pick >= |n.m.ends| ==> n.f.fenced == n.f.reserved)
    && (ok ==>
          && n.f.read == s.f.read + need
          && n.m.read == s.m.read + |out| <= |n.m.log|
          && out == n.m.log[s.m.read..n.m.read]
          && n.m.taken == s.m.taken + out && n.m.ops == s.m.ops + [Take(|out|)])
    && (!ok ==> n.f.read == s.f.read && n.m.taken == s.m.taken && n.m.ops == s.m.ops)
    && (need == 0 || n.f.seen - s.f.read < need ==> out == was)
    && var ran := if need == 0 then [] else if n.f.seen - s.f.read < need then schedule[0].others else Flat(schedule);
    && SameProducer(n.m, AfterAll(s.m, ran, capacity, channels))
    && n.closed == (s.closed || Close in ran)
  }

  lemma NothingRead(s: Instant, out: seq<Sample>, schedule: seq<Moment>, capacity: nat, channels: nat)
    requires channels > 0 && schedule != [] && Quotient(|out|, channels) == 0
    requires s.m.consumer.AtRest? && s.f.seen <= s.f.write && s.f.fenced <= s.f.reserved
    ensures ReadOutcome(s, s, false, out, out, schedule, capacity, channels)
  {
  }

  lemma ReadRefused(s: Instant, n: Instant, need: nat, out: seq<Sample>, schedule: seq<Moment>,
                    capacity: nat, channels: nat)
    requires schedule != [] && channels > 0 && need == Quotient(|out|, channels) > 0
    requires Started(s, n, need, |out|, false, schedule[0], capacity, channels)
    requires Times(|schedule[0].others|, capacity) <= Times(|Flat(schedule)|, capacity)
    ensures ReadOutcome(s, n, false, out, out, schedule, capacity, channels)
  {
    hide AfterAll, SameProducer, Flat, Times, Quotient;
  }

  lemma RanParts(a: seq<Access>, b: seq<Access>, c: seq<Access>, capacity: nat)
    ensures Times(|a + b + c|, capacity) == Times(|a|, capacity) + Times(|b|, capacity) + Times(|c|, capacity)
  {
    TimesAdd(|a|, |b|, capacity);
    TimesAdd(|a + b|, |c|, capacity);
  }

  lemma StartedIs(s: Instant, n: Instant, need: nat, length: nat, enough: bool, before: Moment,
                  capacity: nat, channels: nat)
    requires Started(s, n, need, length, enough, before, capacity, channels)
    ensures n.m.consumer == (if enough then Copying(length, [], 0) else AtRest)
    ensures n.f.reserved - n.f.read <= s.f.reserved - s.f.read + Times(|before.others|, capacity)
  {
  }

  lemma CopiedIs(s: Instant, n: Instant, accesses: seq<Access>, copied: seq<Sample>, capacity: nat, channels: nat)
    requires Copied(s, n, accesses, copied, capacity, channels) && s.m.consumer.out == []
    ensures n.m.consumer.Copying? && n.m.consumer.need == s.m.consumer.need && n.m.consumer.out == copied
    ensures n.f.reserved - n.f.read <= s.f.reserved - s.f.read + Times(|accesses|, capacity)
  {
  }

  lemma MayEnd(s: Instant, k: Instant, c: Instant, need: nat, out: seq<Sample>, schedule: seq<Moment>,
               mid: seq<Access>, word: nat, capacity: nat, channels: nat)
    requires schedule != [] && s.f.reserved - s.f.read + Times(|Flat(schedule)|, capacity) < word
    requires Started(s, k, need, |out|, true, schedule[0], capacity, channels)
    requires Copied(k, c, mid, out, capacity, channels)
    requires Flat(schedule) == schedule[0].others + mid + schedule[|schedule| - 1].others
    ensures c.m.consumer.Copying? && c.m.consumer.need == |out| && c.m.consumer.out == out
    ensures c.f.reserved - c.f.read + Times(|schedule[|schedule| - 1].others|, capacity) < word
  {
    hide Started, Copied, Flat, Times;
    StartedIs(s, k, need, |out|, true, schedule[0], capacity, channels);
    CopiedIs(k, c, mid, out, capacity, channels);
    RanParts(schedule[0].others, mid, schedule[|schedule| - 1].others, capacity);
  }

  lemma ReadIsOver(s: Instant, k: Instant, c: Instant, n: Instant, need: nat, was: seq<Sample>, out: seq<Sample>,
                   ok: bool, schedule: seq<Moment>, mid: seq<Access>, capacity: nat, channels: nat)
    requires schedule != [] && channels > 0 && need == Quotient(|out|, channels) > 0
    requires Started(s, k, need, |out|, true, schedule[0], capacity, channels)
    requires Copied(k, c, mid, out, capacity, channels)
    requires Finished(c, n, need, ok, schedule[|schedule| - 1], capacity, channels)
    requires Flat(schedule) == schedule[0].others + mid + schedule[|schedule| - 1].others
    ensures ReadOutcome(s, n, ok, was, out, schedule, capacity, channels)
  {
    hide SameProducer, AfterAll, Flat, Times, Quotient, Ring.Write, Ring.Reserved;
    var first, last := schedule[0].others, schedule[|schedule| - 1].others;
    RanThen(s.m, k.m, c.m, first, mid, capacity, channels);
    RanThen(s.m, c.m, n.m, first + mid, last, capacity, channels);
    RanParts(first, mid, last, capacity);
  }

  lemma NothingKept(m: Ring, kept: seq<Sample>)
    requires kept == []
    ensures !Enabled(m, Begin(kept))
  {
  }

  class AudioRing {
    const buf: array<seq<Cell>>
    const capacity: nat
    const channels: nat
    const sampleMask: nat
    const word: nat
    ghost const bits: nat
    ghost const spareBits: nat

    var reserved: seq<nat>
    var write: seq<Publication>
    var read: nat
    var closed: bool

    // Where the producer thread is, and how many samples it has stored.
    var call: Call
    var stores: nat

    // What the reader thread knows of the producer's locations.
    var view: View

    ghost var m: Ring
    ghost var trace: seq<Action>
    ghost var f: Frames
    ghost var frames: seq<nat>

    ghost predicate Shape()
    {
      && channels > 0
      && buf.Length == sampleMask + 1 == Times(capacity, channels) == Pow2(bits)
      && word == Times(Pow2(spareBits), buf.Length) > capacity
    }

    ghost function Now(): Image
      reads this
    {
      Image(Point(m, trace, f, channels, word, read, write, reserved), frames, call, stores, view)
    }

    ghost predicate Valid()
      reads this, buf
    {
      Shape() && Good(buf[..], Now())
    }

    /** `channel`: both sizes are powers of two and their product is a word. */
    constructor (capacityBits: nat, channelBits: nat, spareBits: nat)
      requires spareBits > 0
      ensures Valid() && fresh(buf)
      ensures capacity == Pow2(capacityBits) && channels == Pow2(channelBits)
      ensures word == Pow2(capacityBits + channelBits + spareBits)
      ensures m == Init(buf.Length) && f.read == 0 && !closed
    {
      this.bits, this.spareBits := capacityBits + channelBits, spareBits;
      capacity, channels := Pow2(capacityBits), Pow2(channelBits);
      var samples := Multiply(Pow2(capacityBits), Pow2(channelBits));
      var size := Multiply(Pow2(spareBits), samples);
      ShapeOf(capacityBits, channelBits, spareBits);
      hide *;
      buf := new seq<Cell>[samples](_ => []);
      sampleMask := samples - 1;
      word := size;
      reserved, write, read, closed := [0], [Publication(0, 0)], 0, false;
      call, stores := NoCall, 0;
      view := View(0, 0, 0);
      m, trace, f, frames := Init(samples), [], Frames(0, 0, 0, 0, 0), [0];
      new;
      IsShape();
      NewRing(buf[..], samples, channels, word);
      IsValid();
    }

    lemma IsShape()
      requires channels > 0 && buf.Length == sampleMask + 1 == Times(capacity, channels) == Pow2(bits)
      requires word == Times(Pow2(spareBits), buf.Length) > capacity
      ensures Shape()
    {
    }

    lemma IsValid()
      requires Shape() && Good(buf[..], Now())
      ensures Valid()
    {
    }

    // ---- The producer, access by access ----

    method BeginWrite(bytes: seq<u8>)
      requires Valid() && call.NoCall?
      modifies this
      ensures Valid() && f == old(f).(reserved := f.write + KeptFrames(bytes, capacity, channels))
      ensures call.InCall? == (f.reserved > f.write) && closed == old(closed)
      ensures read == old(read) && view == old(view)
      ensures if call.InCall? then Begun(old(m), m, Kept(bytes, capacity, channels)) else m == old(m)
      ensures call.InCall? ==> call.batch == Kept(bytes, capacity, channels) && call.stored == 0
      ensures channels > 0 && m == After(old(m), Reserve(bytes), capacity, channels)
    {
      hide Shape, Good, Kept, KeptFrames, Times, Enabled, Step;
      Constants();
      CallIs(buf[..], Now());
      var count, samples := NewestFrames(bytes);
      if count == 0 {
        NothingKept(m, samples);
        return;
      }
      StoreReserved(count, samples);
    }

    /** The load of `write` and the store of `reserved`. */
    method StoreReserved(count: nat, samples: seq<Sample>)
      requires Valid() && call.NoCall?
      requires |samples| == Times(count, channels) && 0 < count <= |samples| <= Times(capacity, channels)
      modifies this
      ensures Valid() && f == old(f).(reserved := f.write + count) && closed == old(closed)
      ensures read == old(read) && view == old(view)
      ensures call.InCall? && call.batch == samples && call.stored == 0
      ensures Enabled(old(m), Begin(samples)) && m == Step(old(m), Begin(samples)) && Begun(old(m), m, samples)
    {
      hide Shape, Good, Step, Enabled, Inv, Times, Wrap, AfterAll, Begun;
      Constants();
      Sizes(buf[..], Now());
      BeginGood(buf[..], Now(), samples, count);
      var w := write[|write| - 1].index;
      m, trace := Step(m, Begin(samples)), trace + [Begin(samples)];
      var end := WrappingAdd(w, count, word);
      reserved := reserved + [end];
      var base := WrappingMul(w, channels, word);
      call := InCall(samples, 0, base, end);
      f := f.(reserved := f.write + count);
      frames := frames + [f.reserved];
    }

    /** The slicing at the head of `write_s16le`, and the decoding of its loop. */
    method NewestFrames(bytes: seq<u8>) returns (count: nat, samples: seq<Sample>)
      requires channels > 0
      ensures count == KeptFrames(bytes, capacity, channels)
      ensures samples == Kept(bytes, capacity, channels)
      ensures count == 0 ==> samples == []
    {
      var frameBytes := channels * 2;
      count := Divide(|bytes|, frameBytes);
      if count == 0 {
        return 0, [];
      }
      KeptIsTail(bytes, capacity, channels);
      var rest := bytes;
      if count > capacity {
        var cut := Multiply(count - capacity, frameBytes);
        rest := bytes[cut..];
        count := capacity;
      }
      var length := Multiply(count, frameBytes);
      samples := Decode(rest[..length]);
    }

    method StoreSample()
      requires Valid() && call.InCall? && call.stored < |call.batch|
      modifies this, buf
      ensures Valid() && call.InCall?
      ensures m == old(m).(log := old(m.log + [call.batch[call.stored]]), producer := Writing(call.batch, call.stored))
      ensures call == old(call).(stored := call.stored) && call.stored == old(call.stored) + 1
      ensures f == old(f) && closed == old(closed) && read == old(read) && view == old(view)
    {
      hide Good, Step, Enabled, Inv, Times, Wrap, And, Pow2, AfterAll;
      Constants();
      Sizes(buf[..], Now());
      StoreGood(buf[..], Now());
      var at := WrappingAdd(call.base, call.stored, word);
      SlotOf(Times(f.write, channels), call.stored);
      var slot := And(at, sampleMask);
      ghost var slots := buf[..];
      buf[slot] := buf[slot] + [Cell(call.batch[call.stored], |reserved| - 1)];
      assert buf[..] == slots[slot := slots[slot] + [Cell(call.batch[call.stored], |reserved| - 1)]];
      m, trace := Step(m, Store), trace + [Store];
      call, stores := call.(stored := call.stored + 1), stores + 1;
    }

    method FinishWrite()
      requires Valid() && call.InCall? && call.stored == |call.batch|
      modifies this
      ensures Valid() && call.NoCall?
      ensures m == old(m).(producer := Idle) && m.Write() == m.Reserved()
      ensures f == old(f).(write := f.reserved) && closed == old(closed) && read == old(read) && view == old(view)
    {
      hide Shape, Good, Step, Enabled, Inv, Times, Wrap, AfterAll;
      PublishGood(buf[..], Now());
      m, trace := Step(m, Publish), trace + [Publish];
      write := write + [Publication(call.end, stores)];
      call := NoCall;
      f := f.(write := f.reserved);
    }

    /** `write_s16le` as its own thread runs it: the reader's steps change nothing it loads. */
    method WriteS16le(bytes: seq<u8>)
      requires Valid() && call.NoCall?
      modifies this, buf
      ensures Valid() && call.NoCall?
      ensures m.log == old(m.log) + Kept(bytes, capacity, channels)
      ensures channels > 0 && m == AfterAll(old(m), WholeCall(bytes, capacity, channels), capacity, channels)
      ensures f.write == old(f.write) + KeptFrames(bytes, capacity, channels) == f.reserved
      ensures f.read == old(f.read) && m.taken == old(m.taken) && m.ops == old(m.ops)
    {
      hide Shape, Good, Kept, Step, Enabled, AfterAll, WholeCall, After, StepIf;
      Constants();
      Sizes(buf[..], Now());
      CallIs(buf[..], Now());
      WholeCallAppends(m, bytes, capacity, channels);
      BeginWrite(bytes);
      ghost var kept := Kept(bytes, capacity, channels);
      if call.InCall? {
        StoreBatch();
        FinishWrite();
      } else {
        assert m.log + kept == m.log;
      }
    }

    /** The loop of `write_s16le`. */
    method StoreBatch()
      requires Valid() && call.InCall? && call.stored == 0
      modifies this, buf
      ensures Valid() && call.InCall? && call == old(call).(stored := |call.batch|)
      ensures m == old(m).(log := old(m.log) + call.batch, producer := Writing(call.batch, |call.batch|))
      ensures f == old(f) && closed == old(closed) && read == old(read) && view == old(view)
    {
      hide *;
      ghost var batch, log := call.batch, m.log;
      StartsBatch();
      while call.stored < |call.batch|
        invariant Valid() && call.InCall? && call == old(call).(stored := call.stored) && call.stored <= |batch|
        invariant m == old(m).(log := log + batch[..call.stored], producer := Writing(batch, call.stored))
        invariant f == old(f) && closed == old(closed) && read == old(read) && view == old(view)
      {
        assert log + batch[..call.stored + 1] == (log + batch[..call.stored]) + [batch[call.stored]];
        StoreSample();
      }
      assert batch[..call.stored] == batch;
    }

    lemma StartsBatch()
      requires Valid() && call.InCall? && call.stored == 0
      ensures m.producer == Writing(call.batch, 0) && m.log + call.batch[..0] == m.log
    {
      hide Shape, Good;
      CallIs(buf[..], Now());
    }

    /** Other threads run: each access happens if its thread has reached it. */
    method Interfere(accesses: seq<Access>)
      requires Valid()
      modifies this, buf
      ensures Valid() && OthersRan(old(m), m) && Ahead(old(f), f, Times(|accesses|, capacity))
      ensures channels > 0 && m == AfterAll(old(m), accesses, capacity, channels)
      ensures closed == (old(closed) || Close in accesses) && read == old(read) && view == old(view)
    {
      HasChannels();
      AfterNone(m, capacity, channels);
      hide *;
      Unmoved(m, f);
      ghost var s, g := m, f;
      var i := 0;
      while i < |accesses|
        invariant 0 <= i <= |accesses|
        invariant Valid() && OthersRan(s, m) && Ahead(g, f, Times(i, capacity))
        invariant m == AfterAll(s, accesses[..i], capacity, channels)
        invariant closed == (old(closed) || Close in accesses[..i]) && read == old(read) && view == old(view)
      {
        AfterNext(s, accesses, i, capacity, channels);
        var access := accesses[i];
        i := i + 1;
        ghost var before, f0 := m, f;
        Perform(access);
        OthersRanOn(s, before, m);
        AheadOn(g, f0, f, Times(i - 1, capacity), capacity);
      }
      assert accesses[..i] == accesses;
    }

    lemma HasChannels()
      requires Shape()
      ensures channels > 0
    {
    }

    method Perform(access: Access)
      requires Valid()
      modifies this, buf
      ensures Valid() && OthersRan(old(m), m) && Ahead(old(f), f, capacity)
      ensures channels > 0 && m == After(old(m), access, capacity, channels)
      ensures closed == (old(closed) || access.Close?) && read == old(read) && view == old(view)
    {
      hide Shape, Good, Kept, Times;
      CallIs(buf[..], Now());
      match access {
        case Reserve(bytes) => if call.NoCall? { BeginWrite(bytes); }
        case StoreSlot => if call.InCall? && call.stored < |call.batch| { StoreSample(); }
        case PublishWrite => if call.InCall? && call.stored == |call.batch| { FinishWrite(); }
        case Close => closed := true;
      }
    }

    // ---- The reader ----

    method AvailableFrames(before: Moment) returns (available: nat)
      requires Valid() && m.consumer.AtRest?
      modifies this, buf
      ensures Valid() && m.consumer.AtRest?
      ensures m.taken == old(m.taken) && m.ops == old(m.ops) && old(m.log) <= m.log
      ensures Ahead(old(f), f.(seen := old(f.seen)), Times(|before.others|, capacity))
      ensures f.read <= f.seen <= f.write && old(f.seen) <= f.seen && available == Wrap(f.seen - f.read, word)
      ensures view.write == Min(old(view.write) + before.pick, |write| - 1) < |frames|
      ensures f.seen == frames[view.write] && m.seen == Times(f.seen, channels) && m.seen in m.Published()
      ensures before.pick >= |m.ends| ==> m.seen == m.Write()
      ensures channels > 0 && m == AfterAll(old(m), before.others, capacity, channels).(seen := m.seen)
      ensures closed == (old(closed) || Close in before.others)
    {
      hide Shape, Good, Step, Enabled, Inv, Times, Wrap, AfterAll;
      Constants();
      Interfere(before.others);
      Sizes(buf[..], Now());
      var j := Min(view.write + before.pick, |write| - 1);
      AvailableGood(buf[..], Now(), j, before.pick);
      PublishedOne(buf[..], Now(), j, before.pick);
      ghost var a := Available(Times(frames[j], channels));
      m, trace, f, view := Step(m, a), trace + [a], f.(seen := frames[j]), view.(write := j);
      available := WrappingSub(write[j].index, read, word);
    }

    method SkipFrames(count: nat, before: Moment)
      requires Valid() && m.consumer.AtRest?
      modifies this, buf
      ensures Valid() && view.write == Min(old(view.write) + before.pick, |write| - 1)
      ensures Skipped(Instant(old(m), old(f), old(closed)), Instant(m, f, closed),
                      count, before, word, capacity, channels)
    {
      hide *;
      ghost var s := Instant(m, f, closed);
      Interfere(before.others);
      ghost var k := Instant(m, f, closed);
      ReaderStays(s.m, k.m);
      SkipNow(count, before.pick);
      SkippedIs(s, k, Instant(m, f, closed), count, before, word, capacity, channels);
    }

    /** The loads and the store of `skip_frames`. */
    method SkipNow(count: nat, pick: nat)
      requires Valid() && m.consumer.AtRest?
      modifies this`m, this`trace, this`f, this`view, this`read
      ensures Valid() && word > 0 && view.write == Min(old(view.write) + pick, |write| - 1) < |frames|
      ensures f.seen == frames[view.write]
      ensures f == old(f).(seen := f.seen, read := f.read)
      ensures old(f.seen) <= f.seen <= f.write && old(f.read) <= f.read <= f.seen
      ensures f.read - old(f.read) == Min(count, Wrap(f.seen - old(f.read), word))
      ensures m == old(m).(seen := m.seen, read := m.read,
                           ops := old(m.ops) + [Drop(Times(f.read - old(f.read), channels))])
    {
      hide Shape, Good, Step, Enabled, Inv, Times, Wrap, AfterAll;
      Constants();
      Sizes(buf[..], Now());
      var r := read;
      var j := Min(view.write + pick, |write| - 1);
      AvailableGood(buf[..], Now(), j, pick);
      var max := WrappingSub(write[j].index, r, word);
      var n := Min(count, max);
      SkipGood(buf[..], Now(), j, pick, n);
      ghost var skip := Skip(Times(n, channels), Times(frames[j], channels));
      m, trace := Step(m, skip), trace + [skip];
      read := WrappingAdd(r, n, word);
      f, view := f.(seen := frames[j], read := f.read + n), view.(write := j);
    }

    /** `read_frames` under every schedule of the other threads and every stale value its loads may
        return, one entry before each load. It succeeds exactly when the request is not empty, the
        `write` it loads covers it, and the `reserved` it loads is no lap ahead; `out` is then
        exactly the next stretch of the log. A failure moves nothing. */
    method ReadFrames(out: array<Sample>, schedule: seq<Moment>) returns (ok: bool)
      requires Valid() && m.consumer.AtRest?
      requires Wrap(out.Length, channels) == 0 && |schedule| == out.Length + 2
      requires f.reserved - f.read + Times(|Flat(schedule)|, capacity) < word
      modifies this, buf, out
      ensures Valid()
      ensures ReadOutcome(Instant(old(m), old(f), old(closed)), Instant(m, f, closed), ok, old(out[..]), out[..],
                          schedule, capacity, channels)
    {
      RequestIs(out.Length);
      assert (out as object) != (buf as object);
      hide *;
      ghost var s, was := Instant(m, f, closed), out[..];
      FlatParts(schedule);
      RanParts(schedule[0].others, Flat(schedule[1..out.Length + 1]), schedule[out.Length + 1].others, capacity);
      var need := Divide(out.Length, channels);
      if need == 0 {
        NothingRead(s, was, schedule, capacity, channels);
        return false;
      }
      var r, from, enough := StartOfRead(need, out.Length, schedule[0]);
      ghost var k := Instant(m, f, closed);
      StartedIs(s, k, need, out.Length, enough, schedule[0], capacity, channels);
      if !enough {
        ReadRefused(s, k, need, was, schedule, capacity, channels);
        return false;
      }
      ok := CopyAndCheck(out, need, r, from, schedule, s, was);
    }

    /** The copy loop and what follows it. */
    method CopyAndCheck(out: array<Sample>, need: nat, r: nat, from: nat, schedule: seq<Moment>,
                        ghost s: Instant, ghost was: seq<Sample>) returns (ok: bool)
      requires Valid() && r == read && word > 0 && from == Wrap(m.read, word)
      requires |schedule| == out.Length + 2 && channels > 0 && need == Quotient(out.Length, channels) > 0
      requires out.Length == Times(need, channels)
      requires Started(s, Instant(m, f, closed), need, out.Length, true, schedule[0], capacity, channels)
      requires s.f.reserved - s.f.read + Times(|Flat(schedule)|, capacity) < word
      modifies this, buf, out
      ensures Valid()
      ensures ReadOutcome(s, Instant(m, f, closed), ok, was, out[..], schedule, capacity, channels)
    {
      assert (out as object) != (buf as object);
      hide *;
      var copies := schedule[1..|schedule| - 1];
      ghost var k, mid := Instant(m, f, closed), Flat(copies);
      FlatParts(schedule);
      StartedIs(s, k, need, out.Length, true, schedule[0], capacity, channels);
      CopySlots(out, from, copies);
      ok := CheckCopied(need, r, schedule, mid, s, k, was, out[..]);
    }

    /** What follows the copy loop. */
    method CheckCopied(need: nat, r: nat, schedule: seq<Moment>, ghost mid: seq<Access>, ghost s: Instant,
                       ghost k: Instant, ghost was: seq<Sample>, ghost copied: seq<Sample>) returns (ok: bool)
      requires Valid() && r == read && schedule != [] && channels > 0
      requires need == Quotient(|copied|, channels) > 0 && |copied| == Times(need, channels)
      requires Started(s, k, need, |copied|, true, schedule[0], capacity, channels)
      requires Copied(k, Instant(m, f, closed), mid, copied, capacity, channels)
      requires Flat(schedule) == schedule[0].others + mid + schedule[|schedule| - 1].others
      requires s.f.reserved - s.f.read + Times(|Flat(schedule)|, capacity) < word
      modifies this, buf
      ensures Valid()
      ensures ReadOutcome(s, Instant(m, f, closed), ok, was, copied, schedule, capacity, channels)
    {
      hide *;
      ghost var c := Instant(m, f, closed);
      MayEnd(s, k, c, need, copied, schedule, mid, word, capacity, channels);
      ok := EndOfRead(need, r, schedule[|schedule| - 1]);
      ReadIsOver(s, k, c, Instant(m, f, closed), need, was, copied, ok, schedule, mid, capacity, channels);
    }

    lemma RequestIs(length: nat)
      requires Valid() && Wrap(length, channels) == 0
      ensures channels > 0 && length == Times(Quotient(length, channels), channels)
      ensures length == 0 <==> Quotient(length, channels) == 0
      ensures f.read <= f.seen <= f.write && f.fenced <= f.reserved
    {
      QuotientIsDivision(length, channels);
      InOrder();
    }

    /** The loads of `read` and `write`, the availability check and the first slot's index. */
    method StartOfRead(need: nat, length: nat, before: Moment)
      returns (r: nat, from: nat, enough: bool)
      requires Valid() && m.consumer.AtRest? && need > 0 && length == Times(need, channels)
      requires f.reserved - f.read + Times(|before.others|, capacity) < word
      modifies this, buf
      ensures Valid()
      ensures Started(Instant(old(m), old(f), old(closed)), Instant(m, f, closed), need, length, enough, before,
                      capacity, channels)
      ensures r == read && word > 0 && from == Wrap(m.read, word)
    {
      hide Shape, Good, Started, OthersRan, Ahead, SameProducer, Step, Enabled, Inv, Times, Wrap, AfterAll;
      Constants();
      r := read;
      ghost var s := Instant(m, f, closed);
      Interfere(before.others);
      ghost var k := Instant(m, f, closed);
      ReaderStays(s.m, k.m);
      StillAhead(s.f, k.f, Times(|before.others|, capacity));
      Sizes(buf[..], Now());
      var j := Min(view.write + before.pick, |write| - 1);
      StartGood(buf[..], Now(), j, before.pick, need);
      ghost var start := StartRead(length, Times(frames[j], channels));
      m, trace, f, view := Step(m, start), trace + [start], f.(seen := frames[j]), view.(write := j, copy := 0);
      var published := WrappingSub(write[j].index, r, word);
      enough := published >= need;
      from := WrappingMul(r, channels, word);
      StartedFrom(s, k, Instant(m, f, closed), need, length, enough, before, capacity, channels);
    }

    /** The copy loop of `read_frames`. */
    method CopySlots(out: array<Sample>, from: nat, schedule: seq<Moment>)
      requires Valid() && m.consumer == Copying(out.Length, [], 0)
      requires word > 0 && from == Wrap(m.read, word) && |schedule| == out.Length
      modifies this, buf, out
      ensures Valid() && read == old(read)
      ensures Copied(Instant(old(m), old(f), old(closed)), Instant(m, f, closed),
                     Flat(schedule), out[..], capacity, channels)
    {
      ghost var s, r := Instant(m, f, closed), read;
      CopyStarts(s, from, out, schedule);
      hide *;
      var i := 0;
      while i < out.Length
        invariant 0 <= i <= out.Length && CopyState(s, r, from, out, i, schedule)
      {
        CopyInto(out, from, i, schedule, s, r);
        i := i + 1;
      }
      CopyEnds(s, r, from, out, schedule);
    }

    /** The first `i` samples are copied. */
    ghost predicate CopyState(s: Instant, r: nat, from: nat, out: array<Sample>, i: nat, schedule: seq<Moment>)
      reads this, buf, out
    {
      && i <= |schedule| == out.Length && s.m.consumer == Copying(|schedule|, [], 0)
      && Valid() && read == r && word > 0 && m.read == s.m.read && from == Wrap(m.read, word)
      && Copied(s, Instant(m, f, closed), Flat(schedule[..i]), out[..i], capacity, channels)
    }

    lemma CopyStarts(s: Instant, from: nat, out: array<Sample>, schedule: seq<Moment>)
      requires Valid() && m.consumer == Copying(out.Length, [], 0) && s == Instant(m, f, closed)
      requires word > 0 && from == Wrap(m.read, word) && |schedule| == out.Length
      ensures CopyState(s, read, from, out, 0, schedule)
    {
      HasChannels();
      hide Valid, Copied, Flat, Times, Wrap;
      NothingCopied(s, capacity, channels);
      FlatNone(schedule);
    }

    lemma CopyEnds(s: Instant, r: nat, from: nat, out: array<Sample>, schedule: seq<Moment>)
      requires CopyState(s, r, from, out, out.Length, schedule)
      ensures Valid() && read == r
      ensures Copied(s, Instant(m, f, closed), Flat(schedule), out[..], capacity, channels)
    {
      hide Valid, Copied, Flat, Times, Wrap;
      WholeSchedule(schedule);
      assert out[..out.Length] == out[..];
    }

    method CopyInto(out: array<Sample>, from: nat, i: nat, schedule: seq<Moment>, ghost s: Instant, ghost r: nat)
      requires CopyState(s, r, from, out, i, schedule) && i < out.Length
      modifies this, buf, out
      ensures CopyState(s, r, from, out, i + 1, schedule)
    {
      assert (out as object) != (buf as object);
      hide Valid, Copied, Flat, Times, Wrap;
      ghost var copied := out[..i];
      var sample := CopyOne(from, i, schedule, s, copied);
      PutSample(out, i, sample);
    }

    method PutSample(out: array<Sample>, i: nat, sample: Sample)
      requires i < out.Length
      modifies out
      ensures out[..i + 1] == old(out[..i]) + [sample]
    {
      out[i] := sample;
    }

    method CopyOne(from: nat, i: nat, schedule: seq<Moment>, ghost s: Instant, ghost copied: seq<Sample>)
      returns (sample: Sample)
      requires Valid() && i < |schedule| && s.m.consumer == Copying(|schedule|, [], 0) && |copied| == i
      requires word > 0 && m.read == s.m.read && from == Wrap(m.read, word)
      requires Copied(s, Instant(m, f, closed), Flat(schedule[..i]), copied, capacity, channels)
      modifies this, buf
      ensures Valid() && read == old(read) && m.read == s.m.read
      ensures Copied(s, Instant(m, f, closed), Flat(schedule[..i + 1]), copied + [sample], capacity, channels)
    {
      hide *;
      ghost var k := Instant(m, f, closed);
      CopiedIs(s, k, Flat(schedule[..i]), copied, capacity, channels);
      sample := LoadNext(from, i, schedule[i]);
      CopiedNext(s, k, Instant(m, f, closed), schedule, i, copied, sample, capacity, channels);
    }

    /** From the fence on: the load of `reserved`, the lap check and the store of `read`. */
    method EndOfRead(need: nat, r: nat, before: Moment) returns (ok: bool)
      requires Valid() && r == read
      requires m.consumer.Copying? && |m.consumer.out| == m.consumer.need == Times(need, channels)
      requires f.reserved - f.read + Times(|before.others|, capacity) < word
      modifies this, buf
      ensures Valid()
      ensures Finished(Instant(old(m), old(f), old(closed)), Instant(m, f, closed), need, ok, before,
                       capacity, channels)
    {
      hide *;
      ghost var s := Instant(m, f, closed);
      Interfere(before.others);
      ghost var k := Instant(m, f, closed);
      ReaderStays(s.m, k.m);
      StillAhead(s.f, k.f, Times(|before.others|, capacity));
      ok := CheckLap(need, r, before.pick);
      FinishedIs(s, k, Instant(m, f, closed), need, ok, before, capacity, channels);
    }

    method CheckLap(need: nat, r: nat, pick: nat) returns (ok: bool)
      requires Valid() && r == read
      requires m.consumer.Copying? && |m.consumer.out| == m.consumer.need == Times(need, channels)
      requires f.reserved - f.read < word
      modifies this`m, this`trace, this`f, this`view, this`read
      ensures Valid() && channels > 0
      ensures old(f.fenced) <= f.fenced <= old(f.reserved) && ok == (f.fenced - old(f.read) <= capacity)
      ensures pick >= |m.ends| ==> f.fenced == old(f.reserved)
      ensures view.reserved == Min(Max(old(view.reserved), old(view.copy)) + pick, |reserved| - 1) < |frames|
      ensures f.fenced == frames[view.reserved] && m.ends == old(m.ends)
      ensures ok ==>
        && m == old(m).(fenced := m.fenced, consumer := AtRest, read := old(m.read + m.consumer.need),
                        taken := old(m.taken + m.consumer.out), ops := old(m.ops + [Take(m.consumer.need)]))
        && f == old(f).(fenced := f.fenced, read := old(f.read) + need)
        && old(m.read + m.consumer.need) <= |m.log|
        && old(m.consumer.out) == m.log[old(m.read)..old(m.read + m.consumer.need)]
      ensures !ok ==> m == old(m).(fenced := m.fenced, consumer := AtRest) && f == old(f).(fenced := f.fenced)
    {
      hide Shape, Good, LoadsReserved, Step, Enabled, Inv, Times, Wrap, AfterAll;
      Constants();
      Sizes(buf[..], Now());
      var j := Min(Max(view.reserved, view.copy) + pick, |reserved| - 1);
      FinishBounds(buf[..], Now(), j, pick, capacity);
      FinishGood(buf[..], Now(), j, need, capacity);
      ghost var finish := FinishRead(Times(frames[j], channels));
      m, trace, f, view := Step(m, finish), trace + [finish], f.(fenced := frames[j]), view.(reserved := j);
      var lag := WrappingSub(reserved[j], r, word);
      ok := lag <= capacity;
      if ok {
        read := WrappingAdd(r, need, word);
        f := f.(read := f.read + need);
      }
    }

    method LoadNext(from: nat, i: nat, before: Moment) returns (sample: Sample)
      requires Valid() && m.consumer.Copying?
      requires i == |m.consumer.out| < m.consumer.need
      requires word > 0 && from == Wrap(m.read, word)
      modifies this, buf
      ensures Valid() && read == old(read) && m.read == old(m.read)
      ensures Copied(Instant(old(m), old(f), old(closed)), Instant(m, f, closed),
                     before.others, [sample], capacity, channels)
    {
      hide Valid;
      Interfere(before.others);
      sample := Load(from, i, before.pick);
    }

    /** One slot load of the copy loop. What the acquired `write` published is seen; of that slot's
        stores the load returns the last of those or, as many laps on as picked, a later one. */
    method Load(from: nat, i: nat, pick: nat) returns (sample: Sample)
      requires Valid() && m.consumer.Copying?
      requires i == |m.consumer.out| < m.consumer.need
      requires word > 0 && from == Wrap(m.read, word)
      modifies this`m, this`trace, this`view
      ensures Valid()
      ensures m == old(m).(consumer := m.consumer) && m.consumer.Copying?
      ensures m.consumer.need == old(m.consumer.need)
      ensures m.consumer.out == old(m.consumer.out) + [sample]
      ensures var k := Loaded(old(m), KnownLaps(old(m)) + pick);
        k < |m.log| ==> sample == m.log[k]
    {
      hide Good, Step, Enabled, Inv, Loaded, Times, Wrap, Quotient, And, Pow2;
      Constants();
      LoadGood(buf[..], Now());
      AnyStore(buf[..], Now(), pick);
      var at := WrappingAdd(from, i, word);
      SlotOf(m.read, i);
      var slot := And(at, sampleMask);
      var oldest := Divide(write[view.write].stored - 1 - slot, buf.Length);
      var k := Min(oldest + pick, |buf[slot]| - 1);
      var cell := buf[slot][k];
      ghost var laps := k - Quotient(m.read + i, buf.Length);
      LoadCellGood(buf[..], Now(), slot, k, laps);
      sample := cell.sample;
      view := view.(copy := Max(view.copy, cell.batch));
      m, trace := Step(m, LoadSlot(laps)), trace + [LoadSlot(laps)];
    }

    /** The frame indices are ordered, and positions are frames times channels. */
    lemma InOrder()
      requires Valid()
      ensures f.read <= f.seen <= f.write <= f.reserved && f.fenced <= f.reserved
      ensures m.read == Times(f.read, channels)
    {
      Ordered(Now().p);
    }

    lemma Constants()
      requires Shape()
      ensures channels > 0 && word > capacity && buf.Length == sampleMask + 1 == Times(capacity, channels)
    {
    }

    // ---- Words, masks and slots ----

    /** The masked, wrapped slot index is the unbounded position modulo the number of slots. */
    lemma SlotOf(x: nat, i: nat)
      requires Shape()
      ensures word > 0 && And(Wrap(Wrap(x, word) + i, word), sampleMask) == Wrap(x + i, buf.Length) < buf.Length
    {
      WrapAdd(x, i, word);
      var y := Wrap(x + i, word);
      AndMask(y, bits);
      WrapIsRemainder(y, buf.Length);
      WrapOfMultiple(x + i, buf.Length, Pow2(spareBits));
    }
  }

  // ---- What each step does to the abstract state ----

  /** The machine `m` is where `trace` leads from an empty ring. */
  ghost predicate Reached(m: Ring, trace: seq<Action>)
  {
    m.capacity > 0 && ValidRun(Init(m.capacity), trace) && m == Run(Init(m.capacity), trace)
  }

  /** Frame indices as they would be without wrapping. */
  datatype Frames = Frames(read: nat, seen: nat, fenced: nat, write: nat, reserved: nat)

  /** The machine with the run that led there, the frame indices, and the words of the program. */
  datatype Point = Point(m: Ring, trace: seq<Action>, f: Frames,
                         channels: nat, word: nat, read: nat, write: seq<Publication>, reserved: seq<nat>)

  /** The newest words are the wrapped frame indices of the machine. */
  ghost predicate OnWords(p: Point)
  {
    && p.channels > 0 && p.word > 0 && |p.write| > 0 && |p.reserved| > 0
    && p.m.read == Times(p.f.read, p.channels) && p.read == Wrap(p.f.read, p.word)
    && p.m.seen == Times(p.f.seen, p.channels) && p.m.fenced == Times(p.f.fenced, p.channels)
    && p.m.Write() == Times(p.f.write, p.channels)
    && p.write[|p.write| - 1].index == Wrap(p.f.write, p.word)
    && p.m.Reserved() == Times(p.f.reserved, p.channels)
    && p.reserved[|p.reserved| - 1] == Wrap(p.f.reserved, p.word)
  }

  ghost predicate Refines(p: Point)
  {
    Reached(p.m, p.trace) && OnWords(p)
  }

  /** One step further. */
  function Next(p: Point, a: Action, f: Frames): Point
    requires Enabled(p.m, a)
  {
    p.(m := Step(p.m, a), trace := p.trace + [a], f := f)
  }

  /** All that changes in the ring but the slots and the closed flag. */
  datatype Image = Image(p: Point, frames: seq<nat>, call: Call, stores: nat, view: View)

  /** The program's locations, registers and slots are those of the machine. */
  ghost predicate Good(slots: seq<seq<Cell>>, x: Image)
  {
    && Refines(x.p)
    && Histories(x.p.m.ends, x.p.m.producer.Idle?, x.frames, x.p.channels, x.p.word, x.p.reserved, x.p.write)
    && Registers(x.p, x.call, x.stores)
    && HoldAll(slots, x.p.m.log, x.p.m.ends)
    && Knows(x.p.m, x.view)
    && x.p.m.capacity == |slots|
  }

  lemma ShapeOf(capacityBits: nat, channelBits: nat, spareBits: nat)
    requires spareBits > 0
    ensures var samples := Times(Pow2(capacityBits), Pow2(channelBits));
      && samples == Pow2(capacityBits + channelBits) > 0
      && Times(Pow2(spareBits), samples) == Pow2(capacityBits + channelBits + spareBits) > Pow2(capacityBits)
  {
    Pow2Add(capacityBits, channelBits);
    TimesIsProduct(Pow2(capacityBits), Pow2(channelBits));
    Pow2Add(spareBits, capacityBits + channelBits);
    TimesIsProduct(Pow2(spareBits), Pow2(capacityBits + channelBits));
    Pow2Grows(capacityBits, channelBits + spareBits);
  }

  lemma NewRing(slots: seq<seq<Cell>>, samples: nat, channels: nat, word: nat)
    requires samples > 0 && channels > 0 && word > 0 && |slots| == samples
    requires forall s :: 0 <= s < |slots| ==> slots[s] == []
    ensures var f := Frames(0, 0, 0, 0, 0);
      var p := Point(Init(samples), [], f, channels, word, 0, [Publication(0, 0)], [0]);
      Good(slots, Image(p, [0], NoCall, 0, View(0, 0, 0)))
  {
  }

  ghost predicate Ahead(f: Frames, g: Frames, most: int)
  {
    && g.read == f.read && g.seen == f.seen && g.fenced == f.fenced
    && f.write <= g.write && f.reserved <= g.reserved <= f.reserved + most
  }

  ghost predicate Begun(s: Ring, t: Ring, batch: seq<Sample>)
  {
    && t == s.(ends := s.ends + [s.Reserved() + |batch|], producer := Writing(batch, 0))
    && t.Write() == s.Write() && t.Reserved() == s.Reserved() + |batch|
  }

  /** Every value `reserved` ever held is a wrapped frame index; those published are the values of
      `write`, each with the number of slot stores before it. */
  ghost predicate Histories(ends: seq<nat>, idle: bool, frames: seq<nat>, channels: nat, word: nat,
                            reserved: seq<nat>, write: seq<Publication>)
  {
    && word > 0
    && |ends| == |frames| == |reserved| > 0
    && |write| == (if idle then |ends| else |ends| - 1) && |write| > 0
    && (forall j :: 0 <= j < |frames| ==> ends[j] == Times(frames[j], channels))
    && (forall j :: 0 <= j < |frames| ==> reserved[j] == Wrap(frames[j], word))
    && (forall j :: 0 <= j < |write| ==> write[j] == Publication(reserved[j], ends[j]))
  }

  /** A load of `write` at position `j` of its modification order. */
  lemma KnowsWrite(m: Ring, t: Ring, view: View, j: nat)
    requires Knows(m, view) && t.ends == m.ends && t.producer == m.producer && t.fenced == m.fenced
    requires j < |m.Published()| && t.seen == m.Published()[j]
    requires m.consumer.AtRest? && t.consumer.AtRest?
    ensures Knows(t, view.(write := j))
  {
  }

  /** The load of `write` that a copy may follow. */
  lemma KnowsStart(m: Ring, t: Ring, view: View, j: nat)
    requires Knows(m, view) && t.ends == m.ends && t.producer == m.producer && t.fenced == m.fenced
    requires j < |m.Published()| && t.seen == m.Published()[j]
    requires |m.ends| > 0 && m.ends[0] == 0 && (t.consumer.Copying? ==> t.consumer.floor == 0)
    ensures Knows(t, view.(write := j, copy := 0))
  {
  }

  /** A load of `reserved` at position `j` ends the copy. */
  lemma KnowsReserved(m: Ring, t: Ring, view: View, j: nat)
    requires Knows(m, view) && t.ends == m.ends && t.producer == m.producer && t.seen == m.seen
    requires j < |m.ends| && t.fenced == m.ends[j] && t.consumer.AtRest?
    ensures Knows(t, view.(reserved := j))
  {
  }

  /** The producer thread's registers. */
  ghost predicate Registers(p: Point, call: Call, stores: nat)
  {
    && p.word > 0 && |p.reserved| > 0
    && stores == |p.m.log|
    && match call
       case NoCall => p.m.producer.Idle? && p.f.write == p.f.reserved
       case InCall(batch, stored, base, end) =>
         && p.m.producer == Writing(batch, stored)
         && base == Wrap(Times(p.f.write, p.channels), p.word)
         && end == p.reserved[|p.reserved| - 1]
  }

  /** The positions the reader knows are those the machine remembers. */
  ghost predicate Knows(m: Ring, view: View)
  {
    && view.write < |m.Published()| && m.seen == m.Published()[view.write]
    && view.reserved < |m.ends| && m.fenced == m.ends[view.reserved]
    && view.copy < |m.ends| && (m.consumer.Copying? ==> m.consumer.floor == m.ends[view.copy])
  }

  /** `x - y` on words. */
  function Minus(x: nat, y: nat, word: nat): int { if x >= y then x - y else x + word - y }

  lemma Ordered(p: Point)
    requires Refines(p)
    ensures Inv(p.m) && p.f.read <= p.f.seen <= p.f.write <= p.f.reserved && p.f.fenced <= p.f.reserved
    ensures p.read < p.word && |p.write| > 0 && |p.reserved| > 0
    ensures p.m.read <= p.m.Write() <= |p.m.log| <= p.m.Reserved()
  {
    InitInv(p.m.capacity);
    RunInv(Init(p.m.capacity), p.trace);
    IndexOrder(p.m);
    TimesOrder(p.f.read, p.f.seen, p.channels);
    TimesOrder(p.f.seen, p.f.write, p.channels);
    TimesOrder(p.f.write, p.f.reserved, p.channels);
    TimesOrder(p.f.fenced, p.f.reserved, p.channels);
  }

  /** What a load of `write` that returns the wrapped `g` means. */
  lemma LoadedWrite(p: Point, g: nat)
    requires Inv(p.m) && OnWords(p) && LoadsWrite(p.m, Times(g, p.channels))
    ensures p.f.read <= p.f.seen <= g <= p.f.write
    ensures Wrap(g - p.f.read, p.word) == Minus(Wrap(g, p.word), p.read, p.word)
  {
    PublishedAtMost(p.m, Times(g, p.channels));
    TimesOrder(p.f.read, p.f.seen, p.channels);
    TimesOrder(p.f.seen, g, p.channels);
    TimesOrder(g, p.f.write, p.channels);
    WrapSub(g, p.f.read, p.word);
  }

  lemma BeginStep(p: Point, batch: seq<Sample>, frames: nat)
    requires Refines(p)
    requires p.m.producer.Idle? && |batch| == Times(frames, p.channels) && 0 < frames <= |batch| <= p.m.capacity
    ensures Enabled(p.m, Begin(batch)) && Begun(p.m, Step(p.m, Begin(batch)), batch)
    ensures var end := p.f.write + frames;
      && Refines(Next(p, Begin(batch), p.f.(reserved := end)).(reserved := p.reserved + [Wrap(end, p.word)]))
      && Step(p.m, Begin(batch)).ends == p.m.ends + [Times(end, p.channels)]
      && |p.write| > 0 && Wrap(p.write[|p.write| - 1].index + frames, p.word) == Wrap(end, p.word)
    ensures Wrap(Times(p.write[|p.write| - 1].index, p.channels), p.word) == Wrap(Times(p.f.write, p.channels), p.word)
    ensures forall view :: Knows(p.m, view) ==> Knows(Step(p.m, Begin(batch)), view)
  {
    hide Reached, Inv, Times, Wrap;
    Ordered(p);
    Extend(p.m, p.trace, Begin(batch));
    var t := Step(p.m, Begin(batch));
    assert t.ends[..|t.ends| - 1] == p.m.ends;
    TimesAdd(p.f.write, frames, p.channels);
    WrapAdd(p.f.write, frames, p.word);
    WrapTimes(p.f.write, p.channels, p.word);
  }

  lemma StoreStep(p: Point)
    requires Refines(p)
    requires p.m.producer.Writing? && p.m.producer.done < |p.m.producer.batch|
    ensures Enabled(p.m, Store) && Refines(Next(p, Store, p.f))
    ensures |p.m.log| == Times(p.f.write, p.channels) + p.m.producer.done
    ensures |p.m.ends| > 1 && p.m.ends[|p.m.ends| - 2] <= |p.m.log| < p.m.ends[|p.m.ends| - 1]
    ensures forall view :: Knows(p.m, view) ==> Knows(Step(p.m, Store), view)
    ensures Step(p.m, Store) == p.m.(log := p.m.log + [p.m.producer.batch[p.m.producer.done]],
                                     producer := p.m.producer.(done := p.m.producer.done + 1))
  {
    hide Reached, Times, Wrap;
    Ordered(p);
    Extend(p.m, p.trace, Store);
  }

  lemma PublishStep(p: Point)
    requires Refines(p)
    requires p.m.producer.Writing? && p.m.producer.done == |p.m.producer.batch|
    ensures Enabled(p.m, Publish) && |p.reserved| > 0
    ensures var newest := Publication(p.reserved[|p.reserved| - 1], |p.m.log|);
      Refines(Next(p, Publish, p.f.(write := p.f.reserved)).(write := p.write + [newest]))
    ensures var t := Step(p.m, Publish);
      && t == p.m.(producer := Idle) && t.Write() == t.Reserved() == |p.m.log|
      && forall view :: Knows(p.m, view) ==> Knows(t, view)
  {
    hide Reached, Times, Wrap;
    Ordered(p);
    Extend(p.m, p.trace, Publish);
  }

  lemma AvailableStep(p: Point, g: nat)
    requires Refines(p)
    requires p.m.consumer.AtRest? && LoadsWrite(p.m, Times(g, p.channels))
    ensures p.f.read <= p.f.seen <= g <= p.f.write && p.read < p.word
    ensures Wrap(g - p.f.read, p.word) == Minus(Wrap(g, p.word), p.read, p.word)
    ensures var a := Available(Times(g, p.channels));
      && Enabled(p.m, a) && Refines(Next(p, a, p.f.(seen := g)))
      && Step(p.m, a) == p.m.(seen := Times(g, p.channels))
  {
    hide Reached, Inv, Times, Wrap, LoadsWrite, OnWords, Minus;
    Ordered(p);
    LoadedWrite(p, g);
    var a := Available(Times(g, p.channels));
    Extend(p.m, p.trace, a);
    ReaderIs(p);
    ReaderMoves(p, Next(p, a, p.f.(seen := g)));
  }

  lemma SkipStep(p: Point, g: nat, n: nat)
    requires Refines(p)
    requires p.m.consumer.AtRest? && LoadsWrite(p.m, Times(g, p.channels)) && p.f.read + n <= g
    ensures var a := Skip(Times(n, p.channels), Times(g, p.channels));
      && Enabled(p.m, a)
      && Refines(Next(p, a, p.f.(seen := g, read := p.f.read + n)).(read := Wrap(p.read + n, p.word)))
      && Step(p.m, a) == p.m.(seen := Times(g, p.channels), read := p.m.read + a.count,
                              ops := p.m.ops + [Drop(a.count)])
  {
    hide Reached, Inv, Times, Wrap, LoadsWrite, OnWords;
    Ordered(p);
    ReaderIs(p);
    var a := Skip(Times(n, p.channels), Times(g, p.channels));
    Extend(p.m, p.trace, a);
    TimesAdd(p.f.read, n, p.channels);
    TimesOrder(p.f.read + n, g, p.channels);
    WrapAdd(p.f.read, n, p.word);
    ReaderMoves(p, Next(p, a, p.f.(seen := g, read := p.f.read + n)).(read := Wrap(p.read + n, p.word)));
  }

  lemma StartStep(p: Point, g: nat, need: nat)
    requires Refines(p) && p.m.consumer.AtRest? && LoadsWrite(p.m, Times(g, p.channels))
    requires need > 0 && p.f.reserved - p.f.read < p.word
    ensures p.f.read <= p.f.seen <= g <= p.f.write && p.read < p.word
    ensures g - p.f.read == Minus(Wrap(g, p.word), p.read, p.word)
    ensures Wrap(Times(p.read, p.channels), p.word) == Wrap(p.m.read, p.word)
    ensures |p.m.ends| > 0 && p.m.ends[0] == 0
    ensures var a := StartRead(Times(need, p.channels), Times(g, p.channels));
      && Enabled(p.m, a) && Refines(Next(p, a, p.f.(seen := g)))
      && Step(p.m, a) == if g - p.f.read < need then p.m.(seen := Times(g, p.channels))
                         else p.m.(seen := Times(g, p.channels), consumer := Copying(a.need, [], 0))
  {
    hide Reached, Inv, Times, Wrap, LoadsWrite, OnWords, Minus;
    Ordered(p);
    ReaderIs(p);
    LoadedWrite(p, g);
    FirstEnd(p.m);
    WrapSmall(g - p.f.read, p.word);
    var a := StartRead(Times(need, p.channels), Times(g, p.channels));
    Extend(p.m, p.trace, a);
    Covers(need, p.f.read, g, p.channels);
    WrapTimes(p.f.read, p.channels, p.word);
    ReaderMoves(p, Next(p, a, p.f.(seen := g)));
  }

  /** Enough frames are enough samples. */
  lemma Covers(need: nat, read: nat, g: nat, channels: nat)
    requires need > 0 && read <= g && channels > 0
    ensures Times(need, channels) > 0
    ensures Times(g, channels) - Times(read, channels) < Times(need, channels) <==> g - read < need
  {
    hide Times;
    TimesOrder(need, g - read, channels);
    TimesOrder(read, g, channels);
    TimesAtLeast(need, channels);
  }

  lemma LoadStep(p: Point, laps: nat)
    requires Refines(p)
    requires p.m.consumer.Copying? && |p.m.consumer.out| < p.m.consumer.need && Loaded(p.m, laps) < |p.m.log|
    ensures |p.m.ends| > 0 && p.m.ends[|p.m.ends| - 1] > Loaded(p.m, laps)
    ensures var (a, c) := (LoadSlot(laps), p.m.consumer);
      && Enabled(p.m, a) && Refines(Next(p, a, p.f))
      && Step(p.m, a) == p.m.(consumer := Copying(c.need, c.out + [p.m.log[Loaded(p.m, laps)]],
                                                  Max(c.floor, EndOf(p.m.ends, Loaded(p.m, laps)))))
  {
    hide Reached, Inv, Times, Wrap, EndOf, OnWords;
    Ordered(p);
    Extend(p.m, p.trace, LoadSlot(laps));
    ReaderIs(p);
    ReaderMoves(p, Next(p, LoadSlot(laps), p.f));
  }

  /** `v` frames is a value that the load of `reserved` after a copy may return. */
  predicate LoadsReserved(m: Ring, channels: nat, v: nat)
  {
    && m.consumer.Copying? && |m.consumer.out| == m.consumer.need
    && Times(v, channels) in m.ends && m.consumer.floor <= Times(v, channels) && m.fenced <= Times(v, channels)
  }

  /** What a load of `reserved` that returns the wrapped `v` means to the lap check. */
  lemma LoadedReserved(p: Point, capacity: nat, v: nat)
    requires Inv(p.m) && OnWords(p) && LoadsReserved(p.m, p.channels, v)
    requires p.m.capacity == Times(capacity, p.channels) && p.f.reserved - p.f.read < p.word
    ensures p.f.read <= v <= p.f.reserved && p.f.fenced <= v
    ensures v - p.f.read == Minus(Wrap(v, p.word), p.read, p.word)
    ensures Times(v, p.channels) - p.m.read > p.m.capacity <==> v - p.f.read > capacity
  {
    hide Inv, Times, Wrap;
    EndsAtMost(p.m, Times(v, p.channels));
    FloorPastRead(p.m);
    TimesOrder(p.f.read, v, p.channels);
    TimesOrder(v, p.f.reserved, p.channels);
    TimesOrder(p.f.fenced, v, p.channels);
    WrapSub(v, p.f.read, p.word);
    WrapSmall(v - p.f.read, p.word);
    TimesOrder(v - p.f.read, capacity, p.channels);
  }

  lemma FinishStep(p: Point, need: nat, capacity: nat, v: nat)
    requires Refines(p) && LoadsReserved(p.m, p.channels, v) && p.m.consumer.need == Times(need, p.channels)
    requires p.m.capacity == Times(capacity, p.channels) && p.f.reserved - p.f.read < p.word
    ensures p.f.read <= v <= p.f.reserved && p.f.fenced <= v && p.read < p.word
    ensures v - p.f.read == Minus(Wrap(v, p.word), p.read, p.word)
    ensures var (a, c) := (FinishRead(Times(v, p.channels)), p.m.consumer);
      && Enabled(p.m, a)
      && if v - p.f.read > capacity then
           && Refines(Next(p, a, p.f.(fenced := v)))
           && Step(p.m, a) == p.m.(fenced := a.v, consumer := AtRest)
         else
           && Refines(Next(p, a, p.f.(fenced := v, read := p.f.read + need)).(read := Wrap(p.read + need, p.word)))
           && Step(p.m, a) == p.m.(fenced := a.v, consumer := AtRest, read := p.m.read + c.need,
                                   taken := p.m.taken + c.out, ops := p.m.ops + [Take(c.need)])
           && p.m.read + c.need <= |p.m.log| && c.out == p.m.log[p.m.read..p.m.read + c.need]
  {
    hide Reached, Inv, Times, Wrap, Minus, OnWords;
    Ordered(p);
    LoadedReserved(p, capacity, v);
    ReaderIs(p);
    var a := FinishRead(Times(v, p.channels));
    Extend(p.m, p.trace, a);
    if v - p.f.read > capacity {
      ReaderMoves(p, Next(p, a, p.f.(fenced := v)));
    } else {
      TornReadFreedom(p.m, a.v);
      TimesAdd(p.f.read, need, p.channels);
      WrapAdd(p.f.read, need, p.word);
      ReaderMoves(p, Next(p, a, p.f.(fenced := v, read := p.f.read + need)).(read := Wrap(p.read + need, p.word)));
    }
  }

  lemma ReaderIs(p: Point)
    requires OnWords(p)
    ensures p.channels > 0 && p.word > 0
    ensures p.m.read == Times(p.f.read, p.channels) && p.read == Wrap(p.f.read, p.word)
    ensures p.m.seen == Times(p.f.seen, p.channels) && p.m.fenced == Times(p.f.fenced, p.channels)
  {
  }

  /** Steps of the reader leave the producer's words alone. */
  lemma ReaderMoves(p: Point, q: Point)
    requires OnWords(p)
    requires q.m.ends == p.m.ends && q.m.producer == p.m.producer
    requires q.f.write == p.f.write && q.f.reserved == p.f.reserved
    requires q.channels == p.channels && q.word == p.word && q.write == p.write && q.reserved == p.reserved
    requires q.m.read == Times(q.f.read, q.channels) && q.read == Wrap(q.f.read, q.word)
    requires q.m.seen == Times(q.f.seen, q.channels) && q.m.fenced == Times(q.f.fenced, q.channels)
    ensures OnWords(q)
  {
    hide Times, Wrap;
  }

  /** Appending one enabled step to the trace of a reachable machine. */
  lemma Extend(m: Ring, trace: seq<Action>, a: Action)
    requires Reached(m, trace) && Inv(m) && Enabled(m, a)
    ensures Reached(Step(m, a), trace + [a])
  {
    hide Inv, Enabled, Step;
    assert [a][1..] == [];
    NoStep(Step(m, a));
    Cons(m, [a]);
    StepKeepsCapacity(m, a);
    RunAppend(Init(m.capacity), trace, [a]);
  }

  lemma StepKeepsCapacity(m: Ring, a: Action)
    requires Enabled(m, a)
    ensures Step(m, a).capacity == m.capacity
  {
  }

  // ---- What each access does to all of it ----

  lemma Sizes(slots: seq<seq<Cell>>, x: Image)
    requires Good(slots, x)
    ensures x.p.word > 0 && x.p.channels > 0 && |x.p.reserved| == |x.p.m.ends| == |x.frames| > 0
    ensures 0 < |x.p.write| == |x.p.m.Published()| <= |x.frames|
    ensures x.view.write < |x.p.write| && x.view.reserved < |x.p.reserved| && x.view.copy < |x.p.reserved|
    ensures x.p.m.capacity == |slots|
  {
  }

  lemma CallIs(slots: seq<seq<Cell>>, x: Image)
    requires Good(slots, x)
    ensures x.p.channels > 0 && x.p.m.Write() <= x.p.m.Reserved() && x.p.f.write <= x.p.f.reserved
    ensures match x.call
      case NoCall => x.p.m.producer.Idle? && x.p.f.write == x.p.f.reserved
      case InCall(batch, stored, _, _) => x.p.m.producer == Writing(batch, stored) && stored <= |batch|
  {
    Ordered(x.p);
    hide Refines, Histories, HoldAll, Knows;
  }

  lemma BeginGood(slots: seq<seq<Cell>>, x: Image, batch: seq<Sample>, frames: nat)
    requires Good(slots, x) && x.call.NoCall?
    requires |batch| == Times(frames, x.p.channels) && 0 < frames <= |batch| <= |slots|
    ensures x.p.f.write == x.p.f.reserved && x.p.m.producer.Idle? && |x.p.write| > 0 && x.p.word > 0
    ensures Enabled(x.p.m, Begin(batch)) && Begun(x.p.m, Step(x.p.m, Begin(batch)), batch)
    ensures var (a, w, now) := (Begin(batch), x.p.write[|x.p.write| - 1].index, x.p.f.write + frames);
      var end := Wrap(w + frames, x.p.word);
      var p := x.p.(m := Step(x.p.m, a), trace := x.p.trace + [a], f := x.p.f.(reserved := now),
                    reserved := x.p.reserved + [end]);
      Good(slots, Image(p, x.frames + [now], InCall(batch, 0, Wrap(Times(w, x.p.channels), x.p.word), end),
                        x.stores, x.view))
  {
    hide Refines, Step, Enabled, HoldAll, Histories, Knows, Times, Wrap;
    BeginStep(x.p, batch, frames);
    HistoriesBegin(x.p.m.ends, x.frames, x.p.channels, x.p.word, x.p.reserved, x.p.write, x.p.f.write + frames);
    HoldAllGrows(slots, x.p.m.log, x.p.m.ends, Times(x.p.f.write + frames, x.p.channels));
  }

  lemma StoreGood(slots: seq<seq<Cell>>, x: Image)
    requires Good(slots, x) && x.call.InCall? && x.call.stored < |x.call.batch|
    ensures |slots| > 0 && |x.p.reserved| > 0 && x.p.word > 0 && Enabled(x.p.m, Store)
    ensures x.call.base == Wrap(Times(x.p.f.write, x.p.channels), x.p.word)
    ensures Step(x.p.m, Store) == x.p.m.(log := x.p.m.log + [x.call.batch[x.call.stored]],
                                         producer := Writing(x.call.batch, x.call.stored + 1))
    ensures var s := Wrap(Times(x.p.f.write, x.p.channels) + x.call.stored, |slots|);
      var cell := Cell(x.call.batch[x.call.stored], |x.p.reserved| - 1);
      var p := x.p.(m := Step(x.p.m, Store), trace := x.p.trace + [Store]);
      Good(slots[s := slots[s] + [cell]],
           x.(p := p, call := x.call.(stored := x.call.stored + 1), stores := x.stores + 1))
  {
    hide Refines, Step, Enabled, HoldAll, Knows, Times, Wrap;
    NotEmpty(slots, x.p.m.log, x.p.m.ends);
    StoreStep(x.p);
    KeepAll(slots, x.p.m.log, x.p.m.ends, x.call.batch[x.call.stored], |x.p.reserved| - 1);
  }

  lemma NotEmpty(slots: seq<seq<Cell>>, log: seq<Sample>, ends: seq<nat>)
    requires HoldAll(slots, log, ends)
    ensures |slots| > 0
  {
  }

  lemma PublishGood(slots: seq<seq<Cell>>, x: Image)
    requires Good(slots, x) && x.call.InCall? && x.call.stored == |x.call.batch|
    ensures Enabled(x.p.m, Publish)
    ensures Step(x.p.m, Publish) == x.p.m.(producer := Idle)
    ensures Step(x.p.m, Publish).Write() == Step(x.p.m, Publish).Reserved()
    ensures var p := x.p.(m := Step(x.p.m, Publish), trace := x.p.trace + [Publish],
                          f := x.p.f.(write := x.p.f.reserved),
                          write := x.p.write + [Publication(x.call.end, x.stores)]);
      Good(slots, x.(p := p, call := NoCall))
  {
    hide Refines, Step, Enabled, HoldAll, Histories, Knows, Times, Wrap;
    PublishStep(x.p);
    HistoriesPublishes(x);
  }

  lemma HistoriesPublishes(x: Image)
    requires Registers(x.p, x.call, x.stores) && x.call.InCall? && |x.p.m.log| == x.p.m.Reserved()
    requires Histories(x.p.m.ends, false, x.frames, x.p.channels, x.p.word, x.p.reserved, x.p.write)
    ensures Histories(x.p.m.ends, true, x.frames, x.p.channels, x.p.word, x.p.reserved,
                      x.p.write + [Publication(x.call.end, x.stores)])
  {
    hide Times, Wrap;
  }

  lemma GoodIs(slots: seq<seq<Cell>>, x: Image)
    requires Good(slots, x)
    ensures Refines(x.p) && Knows(x.p.m, x.view) && HoldAll(slots, x.p.m.log, x.p.m.ends)
    ensures x.p.m.capacity == |slots|
  {
  }

  /** The reader moves on. */
  lemma ReaderGood(slots: seq<seq<Cell>>, x: Image, y: Image)
    requires Good(slots, x) && Refines(y.p) && Knows(y.p.m, y.view)
    requires y.frames == x.frames && y.call == x.call && y.stores == x.stores
    requires y.p.m.ends == x.p.m.ends && y.p.m.producer == x.p.m.producer && y.p.m.log == x.p.m.log
    requires y.p.m.capacity == x.p.m.capacity && y.p.f.write == x.p.f.write && y.p.f.reserved == x.p.f.reserved
    requires y.p == x.p.(m := y.p.m, trace := y.p.trace, f := y.p.f, read := y.p.read)
    ensures Good(slots, y)
  {
    hide Refines, Knows, HoldAll, Histories, Times, Wrap;
  }

  /** The value of a load of `write`; past the end of its order it is the newest. */
  lemma LoadOfWrite(slots: seq<seq<Cell>>, x: Image, j: nat, pick: nat)
    requires Good(slots, x) && j == Min(x.view.write + pick, |x.p.write| - 1) < |x.frames|
    ensures LoadsWrite(x.p.m, Times(x.frames[j], x.p.channels)) && j < |x.p.write|
    ensures x.p.write[j].index == Wrap(x.frames[j], x.p.word)
    ensures j < |x.p.m.Published()| && x.p.m.Published()[j] == Times(x.frames[j], x.p.channels)
    ensures pick >= |x.p.m.ends| ==> x.frames[j] == x.p.f.write
  {
    hide Times, Wrap, HoldAll, Run, ValidRun;
    InitInv(x.p.m.capacity);
    RunInv(Init(x.p.m.capacity), x.p.trace);
    SameFrames(x.frames[j], x.p.f.write, x.p.channels);
  }

  /** The value of a load of `reserved` after the copy; past the end of its order the newest. */
  lemma LoadOfReserved(slots: seq<seq<Cell>>, x: Image, j: nat, pick: nat)
    requires Good(slots, x) && x.p.m.consumer.Copying? && |x.p.m.consumer.out| == x.p.m.consumer.need
    requires j == Min(Max(x.view.reserved, x.view.copy) + pick, |x.p.reserved| - 1) < |x.frames|
    ensures LoadsReserved(x.p.m, x.p.channels, x.frames[j])
    ensures j < |x.p.m.ends| == |x.p.reserved| && x.p.m.ends[j] == Times(x.frames[j], x.p.channels)
    ensures x.p.reserved[j] == Wrap(x.frames[j], x.p.word)
    ensures pick >= |x.p.m.ends| ==> x.frames[j] == x.p.f.reserved
  {
    hide Times, Wrap, HoldAll, Run, ValidRun;
    InitInv(x.p.m.capacity);
    RunInv(Init(x.p.m.capacity), x.p.trace);
    SameFrames(x.frames[j], x.p.f.reserved, x.p.channels);
  }

  lemma AvailableGood(slots: seq<seq<Cell>>, x: Image, j: nat, pick: nat)
    requires Good(slots, x) && x.p.m.consumer.AtRest?
    requires j == Min(x.view.write + pick, |x.p.write| - 1) < |x.frames|
    ensures j < |x.p.write| && x.p.word > 0 && x.p.read < x.p.word && x.p.write[j].index < x.p.word
    ensures x.p.f.read <= x.p.f.seen <= x.frames[j] <= x.p.f.write
    ensures Wrap(x.frames[j] - x.p.f.read, x.p.word)
      == var w := x.p.write[j].index; if w >= x.p.read then w - x.p.read else w + x.p.word - x.p.read
    ensures pick >= |x.p.m.ends| ==> x.frames[j] == x.p.f.write
    ensures var a := Available(Times(x.frames[j], x.p.channels));
      && Enabled(x.p.m, a) && Step(x.p.m, a) == x.p.m.(seen := Times(x.frames[j], x.p.channels))
      && Good(slots, x.(p := x.p.(m := Step(x.p.m, a), trace := x.p.trace + [a], f := x.p.f.(seen := x.frames[j])),
                        view := x.view.(write := j)))
  {
    hide Good, Knows, Refines, HoldAll, LoadsWrite, Enabled, Step, Times, Wrap;
    GoodIs(slots, x);
    LoadOfWrite(slots, x, j, pick);
    var g := x.frames[j];
    var a := Available(Times(g, x.p.channels));
    AvailableStep(x.p, g);
    KnowsWrite(x.p.m, Step(x.p.m, a), x.view, j);
    ReaderGood(slots, x, x.(p := Next(x.p, a, x.p.f.(seen := g)), view := x.view.(write := j)));
  }

  /** What a load of `write` returns is a published position, and the newest if picked past the end. */
  lemma PublishedOne(slots: seq<seq<Cell>>, x: Image, j: nat, pick: nat)
    requires Good(slots, x) && x.p.m.consumer.AtRest?
    requires j == Min(x.view.write + pick, |x.p.write| - 1) < |x.frames|
    ensures Times(x.frames[j], x.p.channels) in x.p.m.Published()
    ensures pick >= |x.p.m.ends| ==> Times(x.frames[j], x.p.channels) == x.p.m.Write()
  {
    hide Good, Knows, Refines, HoldAll, LoadsWrite, Step, Times, Wrap;
    AvailableGood(slots, x, j, pick);
    LoadIsPublished(x.p.m, Times(x.frames[j], x.p.channels));
    GoodIs(slots, x);
    WriteIs(x.p);
  }

  lemma LoadIsPublished(m: Ring, w: nat)
    requires Enabled(m, Available(w))
    ensures w in m.Published()
  {
  }

  lemma WriteIs(p: Point)
    requires Refines(p)
    ensures p.m.Write() == Times(p.f.write, p.channels)
  {
  }

  lemma SkipGood(slots: seq<seq<Cell>>, x: Image, j: nat, pick: nat, n: nat)
    requires Good(slots, x) && x.p.m.consumer.AtRest?
    requires j == Min(x.view.write + pick, |x.p.write| - 1) < |x.frames| && x.p.f.read + n <= x.frames[j]
    ensures x.p.word > 0
    ensures var a := Skip(Times(n, x.p.channels), Times(x.frames[j], x.p.channels));
      && Enabled(x.p.m, a)
      && Step(x.p.m, a) == x.p.m.(seen := Times(x.frames[j], x.p.channels), read := x.p.m.read + a.count,
                                  ops := x.p.m.ops + [Drop(a.count)])
      && Good(slots, x.(p := x.p.(m := Step(x.p.m, a), trace := x.p.trace + [a],
                                  f := x.p.f.(seen := x.frames[j], read := x.p.f.read + n),
                                  read := Wrap(x.p.read + n, x.p.word)),
                        view := x.view.(write := j)))
  {
    hide Good, Knows, Refines, HoldAll, LoadsWrite, Enabled, Step, Times, Wrap;
    GoodIs(slots, x);
    LoadOfWrite(slots, x, j, pick);
    var g := x.frames[j];
    var a := Skip(Times(n, x.p.channels), Times(g, x.p.channels));
    SkipStep(x.p, g, n);
    KnowsWrite(x.p.m, Step(x.p.m, a), x.view, j);
    var p := Next(x.p, a, x.p.f.(seen := g, read := x.p.f.read + n)).(read := Wrap(x.p.read + n, x.p.word));
    ReaderGood(slots, x, x.(p := p, view := x.view.(write := j)));
  }

  lemma StartGood(slots: seq<seq<Cell>>, x: Image, j: nat, pick: nat, need: nat)
    requires Good(slots, x) && x.p.m.consumer.AtRest? && need > 0 && x.p.f.reserved - x.p.f.read < x.p.word
    requires j == Min(x.view.write + pick, |x.p.write| - 1) < |x.frames|
    ensures j < |x.p.write| && x.p.word > 0 && x.p.read < x.p.word && x.p.write[j].index < x.p.word
    ensures x.p.f.read <= x.p.f.seen <= x.frames[j] <= x.p.f.write && x.p.f.fenced <= x.p.f.reserved
    ensures x.frames[j] - x.p.f.read
      == var w := x.p.write[j].index; if w >= x.p.read then w - x.p.read else w + x.p.word - x.p.read
    ensures pick >= |x.p.m.ends| ==> x.frames[j] == x.p.f.write
    ensures Wrap(Times(x.p.read, x.p.channels), x.p.word) == Wrap(x.p.m.read, x.p.word)
    ensures var (g, a) := (x.frames[j], StartRead(Times(need, x.p.channels), Times(x.frames[j], x.p.channels)));
      && Enabled(x.p.m, a)
      && Step(x.p.m, a) == (if g - x.p.f.read < need then x.p.m.(seen := Times(g, x.p.channels))
                            else x.p.m.(seen := Times(g, x.p.channels), consumer := Copying(a.need, [], 0)))
      && Good(slots, x.(p := x.p.(m := Step(x.p.m, a), trace := x.p.trace + [a], f := x.p.f.(seen := g)),
                        view := x.view.(write := j, copy := 0)))
  {
    hide Good, Knows, Refines, HoldAll, LoadsWrite, Enabled, Step, Times, Wrap, Inv;
    GoodIs(slots, x);
    Ordered(x.p);
    LoadOfWrite(slots, x, j, pick);
    var g := x.frames[j];
    var a := StartRead(Times(need, x.p.channels), Times(g, x.p.channels));
    StartStep(x.p, g, need);
    KnowsStart(x.p.m, Step(x.p.m, a), x.view, j);
    ReaderGood(slots, x, x.(p := Next(x.p, a, x.p.f.(seen := g)), view := x.view.(write := j, copy := 0)));
  }

  lemma FinishBounds(slots: seq<seq<Cell>>, x: Image, j: nat, pick: nat, capacity: nat)
    requires Good(slots, x) && x.p.m.consumer.Copying? && |x.p.m.consumer.out| == x.p.m.consumer.need
    requires |slots| == Times(capacity, x.p.channels) && x.p.f.reserved - x.p.f.read < x.p.word
    requires j == Min(Max(x.view.reserved, x.view.copy) + pick, |x.p.reserved| - 1) < |x.frames|
    ensures j < |x.p.reserved| == |x.p.m.ends| && x.p.word > 0 && x.p.read < x.p.word && x.p.reserved[j] < x.p.word
    ensures x.p.f.read <= x.frames[j] <= x.p.f.reserved && x.p.f.fenced <= x.frames[j]
    ensures x.frames[j] - x.p.f.read
      == var v := x.p.reserved[j]; if v >= x.p.read then v - x.p.read else v + x.p.word - x.p.read
    ensures pick >= |x.p.m.ends| ==> x.frames[j] == x.p.f.reserved
    ensures LoadsReserved(x.p.m, x.p.channels, x.frames[j])
    ensures x.p.m.ends[j] == Times(x.frames[j], x.p.channels)
  {
    LoadOfReserved(slots, x, j, pick);
    Ordered(x.p);
    hide Good, Refines, LoadsReserved, Times, Wrap, Inv;
    GoodIs(slots, x);
    WordsOf(x.p);
    LoadedReserved(x.p, capacity, x.frames[j]);
  }

  lemma WordsOf(p: Point)
    requires Refines(p)
    ensures OnWords(p)
  {
  }

  lemma FinishGood(slots: seq<seq<Cell>>, x: Image, j: nat, need: nat, capacity: nat)
    requires Good(slots, x) && x.p.m.consumer.Copying? && x.p.m.consumer.need == Times(need, x.p.channels)
    requires |slots| == Times(capacity, x.p.channels) && x.p.f.reserved - x.p.f.read < x.p.word
    requires j < |x.frames| == |x.p.m.ends| && x.p.m.ends[j] == Times(x.frames[j], x.p.channels)
    requires LoadsReserved(x.p.m, x.p.channels, x.frames[j])
    ensures x.p.word > 0 && Enabled(x.p.m, FinishRead(Times(x.frames[j], x.p.channels)))
    ensures var (v, a, c) := (x.frames[j], FinishRead(Times(x.frames[j], x.p.channels)), x.p.m.consumer);
      var (t, view) := (Step(x.p.m, a), x.view.(reserved := j));
      if v - x.p.f.read > capacity then
        && t == x.p.m.(fenced := a.v, consumer := AtRest)
        && Good(slots, x.(p := x.p.(m := t, trace := x.p.trace + [a], f := x.p.f.(fenced := v)), view := view))
      else
        && t == x.p.m.(fenced := a.v, consumer := AtRest, read := x.p.m.read + c.need,
                       taken := x.p.m.taken + c.out, ops := x.p.m.ops + [Take(c.need)])
        && x.p.m.read + c.need <= |x.p.m.log| && c.out == x.p.m.log[x.p.m.read..x.p.m.read + c.need]
        && Good(slots, x.(p := x.p.(m := t, trace := x.p.trace + [a],
                                    f := x.p.f.(fenced := v, read := x.p.f.read + need),
                                    read := Wrap(x.p.read + need, x.p.word)),
                          view := view))
  {
    hide Good, Knows, Refines, HoldAll, LoadsReserved, Enabled, Step, Times, Wrap;
    GoodIs(slots, x);
    var v := x.frames[j];
    var a := FinishRead(Times(v, x.p.channels));
    FinishStep(x.p, need, capacity, v);
    KnowsReserved(x.p.m, Step(x.p.m, a), x.view, j);
    if v - x.p.f.read > capacity {
      ReaderGood(slots, x, x.(p := Next(x.p, a, x.p.f.(fenced := v)), view := x.view.(reserved := j)));
    } else {
      var p := Next(x.p, a, x.p.f.(fenced := v, read := x.p.f.read + need));
      ReaderGood(slots, x, x.(p := p.(read := Wrap(x.p.read + need, x.p.word)), view := x.view.(reserved := j)));
    }
  }

  /** The slot about to be loaded holds a store that the acquired `write` published. */
  lemma LoadGood(slots: seq<seq<Cell>>, x: Image)
    requires Good(slots, x) && x.p.m.consumer.Copying? && |x.p.m.consumer.out| < x.p.m.consumer.need
    ensures |slots| > 0 && x.p.m.capacity == |slots| && x.p.word > 0
    ensures x.view.write < |x.p.write| && x.p.write[x.view.write].stored == x.p.m.seen
    ensures Bounded(slots, x.p.m.read + |x.p.m.consumer.out|, x.p.m.seen)
  {
    hide Times, Wrap, Quotient;
    SlotBounds(x.p, slots);
  }

  /** How many laps past the wanted position the last store is that the reader knows published. */
  function KnownLaps(m: Ring): nat
    requires m.consumer.Copying?
  {
    var x := m.read + |m.consumer.out|;
    if x < m.seen && m.capacity > 0 then (m.seen - 1 - x) / m.capacity else 0
  }

  /** Any store to the slot from that one on is there to be returned. */
  lemma AnyStore(slots: seq<seq<Cell>>, x: Image, pick: nat)
    requires Good(slots, x) && x.p.m.consumer.Copying? && |x.p.m.consumer.out| < x.p.m.consumer.need
    requires Bounded(slots, x.p.m.read + |x.p.m.consumer.out|, x.p.m.seen)
    ensures var m := x.p.m;
      var s := Wrap(m.read + |m.consumer.out|, |slots|);
      var (k, cell) := (Loaded(m, KnownLaps(m) + pick), Quotient(m.seen - 1 - s, |slots|) + pick);
      k < |m.log| ==> cell < |slots[s]| && slots[s][cell].sample == m.log[k]
  {
    hide Times, Wrap, Quotient, Good, HoldAll, Bounded;
    GoodIs(slots, x);
    var m, at := x.p.m, x.p.m.read + |x.p.m.consumer.out|;
    KnownBefore(slots, at, m.seen);
    StoreOfLap(slots, m.log, m.ends, at, m.seen, KnownLaps(m) + pick, pick);
  }

  lemma KnownBefore(slots: seq<seq<Cell>>, x: nat, known: nat)
    requires Bounded(slots, x, known)
    ensures x < known && |slots| > 0
  {
  }

  lemma StoreOfLap(slots: seq<seq<Cell>>, log: seq<Sample>, ends: seq<nat>, x: nat, known: nat, laps: nat, pick: nat)
    requires HoldAll(slots, log, ends) && |slots| > 0 && x < known
    requires laps == (known - 1 - x) / |slots| + pick
    ensures var s := Wrap(x, |slots|);
      s < known && (x + laps * |slots| < |log| ==>
        var cell := Quotient(known - 1 - s, |slots|) + pick;
        cell < |slots[s]| && slots[s][cell].sample == log[x + laps * |slots|])
  {
    hide Times, Wrap, Quotient, HoldAll;
    LastKnown(x, known, |slots|);
    LapsKnown(x, known, |slots|);
    PlaceOfLap(x, |slots|, laps);
    if x + laps * |slots| < |log| {
      InSlot(slots, log, ends, x + laps * |slots|);
      CellAfter(slots, log, ends, x, laps);
    }
  }

  lemma InSlot(slots: seq<seq<Cell>>, log: seq<Sample>, ends: seq<nat>, k: nat)
    requires HoldAll(slots, log, ends) && k < |log|
    ensures |slots| > 0 && Quotient(k, |slots|) < |slots[Wrap(k, |slots|)]|
  {
    hide Holds, Quotient, Wrap;
  }

  lemma LapsKnown(x: nat, known: nat, n: nat)
    requires n > 0 && x < known
    ensures var s := Wrap(x, n);
      s < known && Quotient(x, n) + (known - 1 - x) / n == Quotient(known - 1 - s, n)
  {
    hide Times, Wrap, Quotient;
    var (s, q) := (Wrap(x, n), Quotient(x, n));
    LastKnown(x, known, n);
    Position(x, n);
    var oldest := Quotient(known - 1 - s, n);
    QuotientIsDivision(known - 1 - s, n);
    TimesOrder(q, oldest, n);
    QuotientIs(oldest - q, Wrap(known - 1 - s, n), n);
    QuotientIsDivision(known - 1 - x, n);
  }

  lemma PlaceOfLap(x: nat, n: nat, laps: nat)
    requires n > 0
    ensures Wrap(x + laps * n, n) == Wrap(x, n) && Quotient(x + laps * n, n) == Quotient(x, n) + laps
  {
    hide Times, Wrap, Quotient;
    Position(x, n);
    TimesAdd(Quotient(x, n), laps, n);
    TimesIsProduct(laps, n);
    AtPosition(Wrap(x, n), Quotient(x, n) + laps, n);
  }

  lemma LoadCellGood(slots: seq<seq<Cell>>, x: Image, s: nat, k: nat, laps: nat)
    requires Good(slots, x) && Finds(x.p.m, slots, s, k, laps)
    ensures Enabled(x.p.m, LoadSlot(laps)) && x.p.m.consumer.Copying? && s < |slots| && k < |slots[s]|
    ensures var (a, c, cell) := (LoadSlot(laps), x.p.m.consumer, slots[s][k]);
      var copy := Max(x.view.copy, cell.batch);
      && copy < |x.p.m.ends|
      && Step(x.p.m, a) == x.p.m.(consumer := Copying(c.need, c.out + [cell.sample], x.p.m.ends[copy]))
      && Good(slots, x.(p := x.p.(m := Step(x.p.m, a), trace := x.p.trace + [a]), view := x.view.(copy := copy)))
  {
    FindsIs(x.p.m, slots, s, k, laps);
    hide Good, Knows, Refines, HoldAll, Finds, Enabled, Step, Times, Wrap, Quotient;
    GoodIs(slots, x);
    LoadCellStep(x.p, x.view, slots, s, k, laps);
    var view := x.view.(copy := Max(x.view.copy, slots[s][k].batch));
    ReaderGood(slots, x, x.(p := Next(x.p, LoadSlot(laps), x.p.f), view := view));
  }

  lemma FindsIs(m: Ring, slots: seq<seq<Cell>>, s: nat, k: nat, laps: nat)
    requires Finds(m, slots, s, k, laps)
    ensures m.consumer.Copying? && s < |slots| && k < |slots[s]|
  {
  }

  // ---- Slots ----

  /** A cell is the store of position `k` of the log, in its batch. */
  ghost predicate Holds(cell: Cell, log: seq<Sample>, ends: seq<nat>, k: nat)
  {
    && k < |log| && cell.sample == log[k]
    && 0 < cell.batch < |ends| && ends[cell.batch - 1] <= k < ends[cell.batch]
  }

  /** Slot `s` holds the stores of positions `s`, `s + n`, `s + 2n`, and so on, and no others. */
  ghost predicate HoldAll(slots: seq<seq<Cell>>, log: seq<Sample>, ends: seq<nat>)
  {
    && |slots| > 0
    && (forall k :: 0 <= k < |log| ==> Quotient(k, |slots|) < |slots[Wrap(k, |slots|)]|)
    && (forall s, j :: 0 <= s < |slots| && 0 <= j < |slots[s]| ==>
          Holds(slots[s][j], log, ends, s + Times(j, |slots|)))
  }

  /** A store to the slot of the next position. */
  lemma KeepAll(slots: seq<seq<Cell>>, log: seq<Sample>, ends: seq<nat>, v: Sample, batch: nat)
    requires HoldAll(slots, log, ends)
    requires 0 < batch < |ends| && ends[batch - 1] <= |log| < ends[batch]
    ensures var s := Wrap(|log|, |slots|);
      HoldAll(slots[s := slots[s] + [Cell(v, batch)]], log + [v], ends)
  {
    var n, k := |slots|, |log|;
    var s, q := Wrap(k, n), Quotient(k, n);
    var grown := slots[s := slots[s] + [Cell(v, batch)]];
    Position(k, n);
    NextCell(slots, log, ends);
    forall j | 0 <= j < |log + [v]| ensures Quotient(j, n) < |grown[Wrap(j, n)]| {
    }
    forall r, j | 0 <= r < n && 0 <= j < |grown[r]|
      ensures Holds(grown[r][j], log + [v], ends, r + Times(j, n))
    {
      if r != s || j < |slots[r]| { assert Holds(slots[r][j], log, ends, r + Times(j, n)); }
    }
  }

  /** The next store to the slot of the next position is its last so far. */
  lemma NextCell(slots: seq<seq<Cell>>, log: seq<Sample>, ends: seq<nat>)
    requires HoldAll(slots, log, ends)
    ensures |slots[Wrap(|log|, |slots|)]| == Quotient(|log|, |slots|)
  {
    hide Times, Wrap, Quotient;
    var n, k := |slots|, |log|;
    var s, q := Wrap(k, n), Quotient(k, n);
    Position(k, n);
    if slots[s] != [] {
      var last := |slots[s]| - 1;
      assert Holds(slots[s][last], log, ends, s + Times(last, n));
      TimesOrder(q, last, n);
    }
    if q > 0 {
      TimesLess(q - 1, q, n);
      AtPosition(s, q - 1, n);
      assert Quotient(s + Times(q - 1, n), n) < |slots[Wrap(s + Times(q - 1, n), n)]|;
    }
  }

  lemma CellKnown(slots: seq<seq<Cell>>, log: seq<Sample>, ends: seq<nat>, x: nat, known: nat)
    requires HoldAll(slots, log, ends) && x < known <= |log|
    ensures Bounded(slots, x, known)
  {
    hide Times, Wrap, Quotient;
    var n, s := |slots|, Wrap(x, |slots|);
    LastKnown(x, known, n);
    var last := s + Times(Quotient(known - 1 - s, n), n);
    assert Quotient(last, n) < |slots[Wrap(last, n)]|;
  }

  lemma LastKnown(x: nat, known: nat, n: nat)
    requires n > 0 && x < known
    ensures var s := Wrap(x, n);
      && s < known && Quotient(x, n) <= Quotient(known - 1 - s, n)
      && var last := s + Times(Quotient(known - 1 - s, n), n);
      last < known && Wrap(last, n) == s && Quotient(last, n) == Quotient(known - 1 - s, n)
  {
    hide Times, Wrap, Quotient;
    var s := Wrap(x, n);
    Position(x, n);
    Position(known - 1 - s, n);
    AtPosition(s, Quotient(known - 1 - s, n), n);
    AtPosition(0, Quotient(x, n), n);
    QuotientOrder(x - s, known - 1 - s, n);
  }

  /** The cell `laps` after that of `x` holds the store `laps` whole laps after `x`. */
  lemma CellAfter(slots: seq<seq<Cell>>, log: seq<Sample>, ends: seq<nat>, x: nat, laps: nat)
    requires HoldAll(slots, log, ends) && Quotient(x, |slots|) + laps < |slots[Wrap(x, |slots|)]|
    ensures Holds(slots[Wrap(x, |slots|)][Quotient(x, |slots|) + laps], log, ends, x + laps * |slots|)
  {
    var n, s, q := |slots|, Wrap(x, |slots|), Quotient(x, |slots|);
    hide Holds;
    Position(x, n);
    TimesAdd(q, laps, n);
    TimesIsProduct(laps, n);
    assert Holds(slots[s][q + laps], log, ends, s + Times(q + laps, n));
  }

  lemma Position(k: nat, n: nat)
    requires n > 0
    ensures k == Wrap(k, n) + Times(Quotient(k, n), n)
  {
    QuotientIsDivision(k, n);
  }

  lemma {:induction false} AtPosition(s: nat, j: nat, n: nat)
    requires s < n
    ensures Wrap(s + Times(j, n), n) == s && Quotient(s + Times(j, n), n) == j
  {
    if j > 0 { AtPosition(s, j - 1, n); }
  }

  lemma TimesLess(a: nat, b: nat, c: nat)
    requires a < b
    ensures Times(a, c) + c <= Times(b, c)
  {
    TimesAdd(a + 1, b - a - 1, c);
  }

  lemma {:induction false} QuotientOrder(x: nat, y: nat, n: nat)
    requires n > 0 && x <= y
    ensures Quotient(x, n) <= Quotient(y, n)
  {
    if x >= n { QuotientOrder(x - n, y - n, n); }
  }

  /** The batch of a position, found from its end. */
  lemma {:induction false} EndOfBatch(ends: seq<nat>, k: nat, b: nat)
    requires Increasing(ends) && 0 < b < |ends| && ends[b - 1] <= k < ends[b]
    ensures ends[|ends| - 1] > k && EndOf(ends, k) == ends[b]
  {
    var n := |ends| - 1;
    if b < n {
      assert ends[b] <= ends[n - 1];
      EndOfBatch(ends[..n], k, b);
    }
  }

  /** More of `reserved` leaves the cells as they are. */
  lemma HoldAllGrows(slots: seq<seq<Cell>>, log: seq<Sample>, ends: seq<nat>, e: nat)
    requires HoldAll(slots, log, ends)
    ensures HoldAll(slots, log, ends + [e])
  {
    forall s, j | 0 <= s < |slots| && 0 <= j < |slots[s]|
      ensures Holds(slots[s][j], log, ends + [e], s + Times(j, |slots|))
    {
      assert Holds(slots[s][j], log, ends, s + Times(j, |slots|));
    }
  }

  lemma HistoriesBegin(ends: seq<nat>, frames: seq<nat>, channels: nat, word: nat, reserved: seq<nat>,
                       write: seq<Publication>, g: nat)
    requires Histories(ends, true, frames, channels, word, reserved, write)
    ensures Histories(ends + [Times(g, channels)], false, frames + [g], channels, word,
                      reserved + [Wrap(g, word)], write)
  {
    hide Times, Wrap;
  }

  /** Of the first `known` stores, the last to the slot of `x` is that of `x` or a later one. */
  ghost predicate Bounded(slots: seq<seq<Cell>>, x: nat, known: nat)
  {
    && |slots| > 0 && x < known
    && var s := Wrap(x, |slots|);
    s < known && Quotient(x, |slots|) <= Quotient(known - 1 - s, |slots|) < |slots[s]|
  }

  lemma SlotBounds(p: Point, slots: seq<seq<Cell>>)
    requires Refines(p)
    requires p.m.consumer.Copying? && |p.m.consumer.out| < p.m.consumer.need && HoldAll(slots, p.m.log, p.m.ends)
    ensures Bounded(slots, p.m.read + |p.m.consumer.out|, p.m.seen)
  {
    hide Refines, HoldAll, Bounded;
    Ordered(p);
    CellKnown(slots, p.m.log, p.m.ends, p.m.read + |p.m.consumer.out|, p.m.seen);
  }

  /** A load of the copy finds cell `k` of slot `s`, `laps` whole laps after the wanted one. */
  ghost predicate Finds(m: Ring, slots: seq<seq<Cell>>, s: nat, k: nat, laps: nat)
  {
    && m.consumer.Copying? && |m.consumer.out| < m.consumer.need && |slots| > 0
    && s == Wrap(m.read + |m.consumer.out|, |slots|) && k == Quotient(m.read + |m.consumer.out|, |slots|) + laps
    && s < |slots| && k < |slots[s]|
  }

  /** Loading any cell from there on is a step of the machine. */
  lemma LoadCellStep(p: Point, view: View, slots: seq<seq<Cell>>, s: nat, k: nat, laps: nat)
    requires Refines(p) && Knows(p.m, view) && Finds(p.m, slots, s, k, laps)
    requires HoldAll(slots, p.m.log, p.m.ends) && p.m.capacity == |slots|
    ensures Enabled(p.m, LoadSlot(laps)) && Refines(Next(p, LoadSlot(laps), p.f))
    ensures var (c, cell) := (p.m.consumer, slots[s][k]);
      var copy := Max(view.copy, cell.batch);
      && copy < |p.m.ends|
      && Step(p.m, LoadSlot(laps)) == p.m.(consumer := Copying(c.need, c.out + [cell.sample], p.m.ends[copy]))
      && Knows(Step(p.m, LoadSlot(laps)), view.(copy := copy))
  {
    hide Refines, HoldAll, Step, Enabled, Times, Wrap, Quotient, EndOf;
    Ordered(p);
    var x, n := p.m.read + |p.m.consumer.out|, |slots|;
    CellAfter(slots, p.m.log, p.m.ends, x, laps);
    EndOfBatch(p.m.ends, x + laps * n, slots[s][k].batch);
    LoadStep(p, laps);
  }

  /** How a machine looks after steps of threads other than the reader. */
  ghost predicate OthersRan(s: Ring, t: Ring)
  {
    && s.log <= t.log && |s.ends| <= |t.ends| && s.Write() <= t.Write() && s.Reserved() <= t.Reserved()
    && t.read == s.read && t.seen == s.seen && t.fenced == s.fenced && t.consumer == s.consumer
    && t.taken == s.taken && t.ops == s.ops && t.capacity == s.capacity
  }

  lemma Unmoved(s: Ring, f: Frames)
    ensures OthersRan(s, s) && OthersRan(s, s.(consumer := s.consumer)) && Ahead(f, f, 0)
  {
  }

  lemma OthersRanOn(s: Ring, t: Ring, u: Ring)
    requires OthersRan(s, t.(consumer := s.consumer)) && OthersRan(t, u.(consumer := t.consumer))
    ensures OthersRan(s, u.(consumer := s.consumer)) && u.read == t.read
    ensures OthersRan(s, t) && OthersRan(t, u) ==> OthersRan(s, u)
  {
  }

  lemma AheadOn(f: Frames, g: Frames, h: Frames, m: int, n: int)
    requires Ahead(f, g, m) && Ahead(g, h, n)
    ensures Ahead(f, h, m + n)
  {
  }

  /** The source's two slicings of its argument keep exactly the newest whole frames. */
  lemma KeptIsTail(bytes: seq<u8>, capacity: nat, channels: nat)
    requires channels > 0
    ensures var n := KeptFrames(bytes, capacity, channels);
      var from := Times(Quotient(|bytes|, 2 * channels) - n, channels * 2);
      && from + Times(n, channels * 2) <= |bytes|
      && Kept(bytes, capacity, channels) == Decode(bytes[from..][..Times(n, channels * 2)])
  {
    hide Decode, Times, Quotient;
    var frames := Quotient(|bytes|, 2 * channels);
    var n := KeptFrames(bytes, capacity, channels);
    WholeFrames(|bytes|, channels);
    TimesAdd(frames - n, n, channels);
    TimesTwice(frames - n, channels);
    TimesTwice(n, channels);
    DecodeSlice(bytes, Times(frames - n, channels), Times(n, channels));
  }

  function Low(v: Sample): u8 { v as int % 0x100 }

  function High(v: Sample): u8 { v as int % 0x1_0000 / 0x100 }

  /** Samples as the sink delivers them: two bytes each, the low byte first, in two's complement. */
  function ToLE(samples: seq<Sample>): (bytes: seq<u8>)
    ensures |bytes| == 2 * |samples|
  {
    seq(2 * |samples|, i requires 0 <= i < 2 * |samples| =>
      if i % 2 == 0 then Low(samples[i / 2]) else High(samples[i / 2]))
  }

  /** Whatever samples are written, in whole frames and with part of a frame after them, the newest
      frames that fit are kept, sample by sample as they were. */
  lemma KeptAreTheSamples(samples: seq<Sample>, part: seq<u8>, n: nat, capacity: nat, channels: nat)
    requires channels > 0 && |samples| == Times(n, channels) && |part| < 2 * channels
    ensures var kept := Times(Min(n, capacity), channels);
      && kept <= |samples|
      && Kept(ToLE(samples) + part, capacity, channels) == samples[|samples| - kept..]
  {
    hide Times, Quotient, Decode, ToLE;
    var bytes := ToLE(samples) + part;
    TimesTwice(n, channels);
    QuotientIs(n, |part|, 2 * channels);
    assert KeptFrames(bytes, capacity, channels) == Min(n, capacity);
    TimesOrder(Min(n, capacity), n, channels);
    assert bytes[..2 * Times(n, channels)] == ToLE(samples);
    DecodeSamples(samples);
  }

  lemma {:induction false} QuotientIs(n: nat, rest: nat, d: nat)
    requires rest < d
    ensures Quotient(Times(n, d) + rest, d) == n
  {
    if n > 0 { QuotientIs(n - 1, rest, d); }
  }

  lemma DecodeSamples(samples: seq<Sample>)
    ensures Decode(ToLE(samples)) == samples
  {
    hide FromLE, Low, High;
    forall i | 0 <= i < |samples| ensures Decode(ToLE(samples))[i] == samples[i] {
      SampleAt(samples, i);
      SampleReads(samples[i]);
    }
  }

  lemma SampleAt(samples: seq<Sample>, i: nat)
    requires i < |samples|
    ensures ToLE(samples)[2 * i] == Low(samples[i]) && ToLE(samples)[2 * i + 1] == High(samples[i])
  {
    hide Low, High;
    assert 2 * i / 2 == i && 2 * i % 2 == 0 && (2 * i + 1) / 2 == i && (2 * i + 1) % 2 == 1;
  }

  lemma SampleReads(v: Sample)
    ensures FromLE(Low(v), High(v)) == v
  {
  }

  lemma DecodeSlice(bytes: seq<u8>, i: nat, n: nat)
    requires 2 * (i + n) <= |bytes|
    ensures Decode(bytes[..2 * (i + n)])[i..] == Decode(bytes[2 * i..][..2 * n])
  {
  }

  lemma {:induction false} Pow2Grows(j: nat, k: nat)
    requires k > 0
    ensures Pow2(j) < Pow2(j + k)
  {
    if j > 0 { Pow2Grows(j - 1, k); }
    else { assert Pow2(k) == 2 * Pow2(k - 1); }
  }

  /** The lap check of `read_frames` on words, for any true lag of the reader: it agrees with
      the unbounded check exactly when the lag is within the capacity or still exceeds it after
      wrapping. Below one whole word that is always so; a lag of exactly one word goes unnoticed. */
  lemma LapCheckOnWords(e: nat, r: nat, capacity: nat, word: nat)
    requires r <= e && capacity < word
    ensures var wrapped := (e % word - r % word) % word;
      && ((wrapped > capacity <==> e - r > capacity)
          <==> (e - r <= capacity || (e - r) % word > capacity))
      && (e - r < word ==> (wrapped > capacity <==> e - r > capacity))
      && (e - r == word ==> wrapped <= capacity)
  {
    ModSub(e, r, word);
    if e - r < word { ModUnique(e - r, word, 0, e - r); }
    if e - r == word { ModUnique(word, word, 1, 0); }
  }
}
