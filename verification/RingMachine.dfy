/** The lock-free audio ring as an interleaving of atomic steps, on unbounded sample positions.

    The producer overwrites slots without waiting for the reader. Its state here is the log of
    every sample it ever stored and the list of every value `reserved` ever held. The reader's
    loads are as weak as the source's orderings allow: a load of a slot may return the sample it
    wants or any later sample already stored over it, a load of `write` may return any value
    published since the newest one this reader has seen, and the load of `reserved` is only
    bounded below by the batches whose samples were seen (release fence before the stores,
    acquire fence after the loads) and by the values this reader loaded from it before. Sequential
    consistency is the special case in which every load returns the newest value.

    Positions count samples: a frame index of the source times the number of channels. */
module RingMachine {
  type Sample = x: int | -0x8000 <= x < 0x8000

  datatype Producer = Idle | Writing(batch: seq<Sample>, done: nat)

  /** `floor` is the newest batch end whose samples the current copy has seen. */
  datatype Consumer = AtRest | Copying(need: nat, out: seq<Sample>, floor: nat)

  /** What the reader has done to the stream, for comparison with a plain log and a cursor. */
  datatype Op = Take(count: nat) | Drop(count: nat)

  datatype Ring = Ring(
    capacity: nat,
    log: seq<Sample>,
    ends: seq<nat>,
    producer: Producer,
    read: nat,
    seen: nat,
    fenced: nat,
    consumer: Consumer,
    taken: seq<Sample>,
    ops: seq<Op>)
  {
    function Reserved(): nat { if |ends| == 0 then 0 else ends[|ends| - 1] }

    function Published(): seq<nat>
    {
      if producer.Idle? || |ends| == 0 then ends else ends[..|ends| - 1]
    }

    function Write(): nat { if |Published()| == 0 then 0 else Published()[|Published()| - 1] }
  }

  datatype Action =
    | Begin(batch: seq<Sample>)
    | Store
    | Publish
    | StartRead(need: nat, w: nat)
    | LoadSlot(laps: nat)
    | FinishRead(v: nat)
    | Skip(count: nat, w: nat)
    | Available(w: nat)

  function Init(capacity: nat): Ring
  {
    Ring(capacity, [], [0], Idle, 0, 0, 0, AtRest, [], [])
  }

  /** End of the batch that stored position `k`: the first reserved value beyond it. */
  function EndOf(ends: seq<nat>, k: nat): (e: nat)
    requires |ends| > 0 && ends[|ends| - 1] > k
    ensures e in ends && e > k
  {
    var n := |ends| - 1;
    if n == 0 || ends[n - 1] <= k then ends[n] else EndOf(ends[..n], k)
  }

  /** A load of `write` returns a published value, never older than one already returned. */
  predicate LoadsWrite(s: Ring, w: nat)
  {
    w in s.Published() && s.read <= s.seen <= w
  }

  /** The position whose sample a slot load returns after `laps` overwrites of the slot. */
  function Loaded(s: Ring, laps: nat): nat
    requires s.consumer.Copying?
  {
    s.read + |s.consumer.out| + laps * s.capacity
  }

  predicate Enabled(s: Ring, a: Action)
  {
    match a
    case Begin(batch) => s.producer.Idle? && 0 < |batch| <= s.capacity
    case Store => s.producer.Writing? && s.producer.done < |s.producer.batch|
    case Publish => s.producer.Writing? && s.producer.done == |s.producer.batch|
    case StartRead(need, w) => s.consumer.AtRest? && LoadsWrite(s, w)
    case LoadSlot(laps) =>
      && s.consumer.Copying?
      && |s.consumer.out| < s.consumer.need
      && Loaded(s, laps) < |s.log| <= s.Reserved()
    case FinishRead(v) =>
      && s.consumer.Copying?
      && |s.consumer.out| == s.consumer.need
      && v in s.ends && s.consumer.floor <= v && s.fenced <= v
    case Skip(_, w) => s.consumer.AtRest? && LoadsWrite(s, w)
    case Available(w) => s.consumer.AtRest? && LoadsWrite(s, w)
  }

  function Max(a: nat, b: nat): nat { if a < b then b else a }

  function Min(a: nat, b: nat): nat { if a < b then a else b }

  function Step(s: Ring, a: Action): Ring
    requires Enabled(s, a)
  {
    match a
    case Begin(batch) =>
      s.(ends := s.ends + [s.Reserved() + |batch|], producer := Writing(batch, 0))
    case Store =>
      s.(log := s.log + [s.producer.batch[s.producer.done]],
         producer := s.producer.(done := s.producer.done + 1))
    case Publish => s.(producer := Idle)
    case StartRead(need, w) =>
      if need == 0 then s
      else if w - s.read < need then s.(seen := w)
      else s.(seen := w, consumer := Copying(need, [], 0))
    case LoadSlot(laps) =>
      var k := Loaded(s, laps);
      var c := s.consumer;
      s.(consumer := c.(out := c.out + [s.log[k]], floor := Max(c.floor, EndOf(s.ends, k))))
    case FinishRead(v) =>
      var c := s.consumer;
      if v - s.read > s.capacity then s.(fenced := v, consumer := AtRest)
      else s.(fenced := v, consumer := AtRest, read := s.read + c.need,
              taken := s.taken + c.out, ops := s.ops + [Take(c.need)])
    case Skip(count, w) =>
      var n := Min(count, w - s.read);
      s.(seen := w, read := s.read + n, ops := s.ops + [Drop(n)])
    case Available(w) => s.(seen := w)
  }

  predicate ValidRun(s: Ring, run: seq<Action>)
    decreases |run|
  {
    run == [] || (Enabled(s, run[0]) && ValidRun(Step(s, run[0]), run[1..]))
  }

  function Run(s: Ring, run: seq<Action>): Ring
    requires ValidRun(s, run)
    decreases |run|
  {
    if run == [] then s else Run(Step(s, run[0]), run[1..])
  }

  // ---- The reference: a log and a cursor ----

  function Cursor(ops: seq<Op>): nat
  {
    if ops == [] then 0 else Cursor(ops[..|ops| - 1]) + ops[|ops| - 1].count
  }

  /** What a reader with an unbounded log gets: each `Take` the next samples, each `Drop` none. */
  function Replay(log: seq<Sample>, ops: seq<Op>): seq<Sample>
    requires Cursor(ops) <= |log|
  {
    if ops == [] then [] else
      var before, last := ops[..|ops| - 1], ops[|ops| - 1];
      Replay(log, before) + if last.Take? then log[Cursor(before)..Cursor(ops)] else []
  }

  lemma {:induction false} ReplayIgnoresNewSamples(log: seq<Sample>, ops: seq<Op>, more: seq<Sample>)
    requires Cursor(ops) <= |log|
    ensures Replay(log + more, ops) == Replay(log, ops)
  {
    if ops != [] {
      var before := ops[..|ops| - 1];
      ReplayIgnoresNewSamples(log, before, more);
      assert (log + more)[Cursor(before)..Cursor(ops)] == log[Cursor(before)..Cursor(ops)];
    }
  }

  // ---- The invariant ----

  predicate Increasing(ends: seq<nat>)
  {
    forall i, j :: 0 <= i < j < |ends| ==> ends[i] < ends[j]
  }

  ghost predicate ProducerInv(s: Ring)
  {
    && s.capacity > 0
    && |s.ends| > 0 && s.ends[0] == 0 && Increasing(s.ends)
    && match s.producer
       case Idle => |s.log| == s.Reserved()
       case Writing(batch, done) =>
         && |s.ends| > 1
         && done <= |batch| <= s.capacity
         && s.Write() + |batch| == s.Reserved()
         && |s.log| == s.Write() + done
         && s.log[s.Write()..] == batch[..done]
  }

  /** Sample `i` of the copy in progress came from its own place in the log or from one some
      whole laps later, and the batch it came from ends at or below `floor`. */
  ghost predicate CameFrom(s: Ring, i: nat, laps: nat)
    requires s.consumer.Copying? && i < |s.consumer.out|
  {
    var k := s.read + i + laps * s.capacity;
    k < |s.log| && s.consumer.out[i] == s.log[k] && k < s.consumer.floor
  }

  ghost predicate Justified(s: Ring, i: nat)
    requires s.consumer.Copying? && i < |s.consumer.out|
  {
    exists laps: nat :: CameFrom(s, i, laps)
  }

  ghost predicate CopyInv(s: Ring)
  {
    s.consumer.Copying? ==>
      && 0 < s.consumer.need <= s.seen - s.read
      && |s.consumer.out| <= s.consumer.need
      && s.consumer.floor <= s.Reserved()
      && forall i :: 0 <= i < |s.consumer.out| ==> Justified(s, i)
  }

  ghost predicate ReaderInv(s: Ring)
  {
    && s.read <= s.seen <= s.Write() && s.fenced <= s.Reserved()
    && Cursor(s.ops) == s.read <= |s.log|
    && s.taken == Replay(s.log, s.ops)
  }

  ghost predicate Inv(s: Ring)
  {
    ProducerInv(s) && ReaderInv(s) && CopyInv(s)
  }

  lemma InitInv(capacity: nat)
    requires capacity > 0
    ensures Inv(Init(capacity))
  {
  }

  /** The indices are ordered, and the producer never reserves more than one capacity ahead of
      what it has published. */
  lemma IndexOrder(s: Ring)
    requires Inv(s)
    ensures s.read <= s.Write() <= |s.log| <= s.Reserved() <= s.Write() + s.capacity
  {
  }

  lemma PublishedAtMost(s: Ring, w: nat)
    requires Inv(s) && w in s.Published()
    ensures w <= s.Write()
  {
  }

  lemma FirstEnd(s: Ring)
    requires Inv(s)
    ensures |s.ends| > 0 && s.ends[0] == 0
  {
  }

  lemma EndsAtMost(s: Ring, v: nat)
    requires Inv(s) && v in s.ends
    ensures v <= s.Reserved()
  {
  }

  /** A finished copy has seen a batch that ends beyond the first sample asked for. */
  lemma FloorPastRead(s: Ring)
    requires Inv(s) && s.consumer.Copying? && |s.consumer.out| == s.consumer.need
    ensures s.read < s.consumer.floor
  {
    assert Justified(s, 0);
    var laps: nat :| CameFrom(s, 0, laps);
    AtLeastOneLap(laps, s.capacity);
  }

  /** A producer step leaves a copy in progress justified: the log only grows. */
  lemma CopyKept(s: Ring, t: Ring)
    requires CopyInv(s) && s.log <= t.log && s.Reserved() <= t.Reserved()
    requires t.consumer == s.consumer && t.read == s.read && t.seen == s.seen
    requires t.capacity == s.capacity
    ensures CopyInv(t)
  {
    if t.consumer.Copying? {
      forall i | 0 <= i < |t.consumer.out| ensures Justified(t, i) {
        assert Justified(s, i);
        var laps: nat :| CameFrom(s, i, laps);
        assert CameFrom(t, i, laps);
      }
    }
  }

  lemma BeginInv(s: Ring, batch: seq<Sample>)
    requires Inv(s) && Enabled(s, Begin(batch))
    ensures Inv(Step(s, Begin(batch)))
  {
    var t := Step(s, Begin(batch));
    assert t.ends[..|t.ends| - 1] == s.ends;
    assert t.log[t.Write()..] == [];
    CopyKept(s, t);
  }

  lemma StoreInv(s: Ring)
    requires Inv(s) && Enabled(s, Store)
    ensures Inv(Step(s, Store))
  {
    var t := Step(s, Store);
    var batch, done := s.producer.batch, s.producer.done;
    assert t.log[t.Write()..] == s.log[s.Write()..] + [batch[done]];
    assert batch[..done + 1] == batch[..done] + [batch[done]];
    ReplayIgnoresNewSamples(s.log, s.ops, [batch[done]]);
    CopyKept(s, t);
  }

  lemma PublishInv(s: Ring)
    requires Inv(s) && Enabled(s, Publish)
    ensures Inv(Step(s, Publish))
  {
    CopyKept(s, Step(s, Publish));
  }

  lemma StartReadInv(s: Ring, need: nat, w: nat)
    requires Inv(s) && Enabled(s, StartRead(need, w))
    ensures Inv(Step(s, StartRead(need, w)))
  {
    if need > 0 && w - s.read >= need { StartsCopy(s, need, w); }
  }

  lemma StartsCopy(s: Ring, need: nat, w: nat)
    requires Inv(s) && LoadsWrite(s, w) && 0 < need <= w - s.read
    ensures Inv(s.(seen := w, consumer := Copying(need, [], 0)))
  {
  }

  lemma AvailableInv(s: Ring, w: nat)
    requires Inv(s) && Enabled(s, Available(w))
    ensures Inv(Step(s, Available(w)))
  {
  }

  lemma LoadSlotInv(s: Ring, laps: nat)
    requires Inv(s) && Enabled(s, LoadSlot(laps))
    ensures Inv(Step(s, LoadSlot(laps)))
  {
    var t := Step(s, LoadSlot(laps));
    var n := |s.consumer.out|;
    forall i | 0 <= i < |t.consumer.out| ensures Justified(t, i) {
      if i < n {
        assert Justified(s, i);
        var l: nat :| CameFrom(s, i, l);
        assert CameFrom(t, i, l);
      } else {
        assert CameFrom(t, n, laps);
      }
    }
  }

  /** Torn-read freedom. If the lap check passes against any admissible `reserved` value, the
      copy is exactly the requested stretch of the log, whatever the producer did meanwhile. */
  lemma TornReadFreedom(s: Ring, v: nat)
    requires Inv(s) && Enabled(s, FinishRead(v))
    requires v - s.read <= s.capacity
    ensures s.read + s.consumer.need <= |s.log|
    ensures s.consumer.out == s.log[s.read..s.read + s.consumer.need]
  {
    var out := s.consumer.out;
    forall i | 0 <= i < |out| ensures out[i] == s.log[s.read + i] {
      NotLapped(s, v, i);
    }
  }

  lemma NotLapped(s: Ring, v: nat, i: nat)
    requires CopyInv(s) && s.consumer.Copying? && i < |s.consumer.out|
    requires s.consumer.floor <= v <= s.read + s.capacity
    ensures s.read + i < |s.log| && s.consumer.out[i] == s.log[s.read + i]
  {
    assert Justified(s, i);
    var laps: nat :| CameFrom(s, i, laps);
    AtLeastOneLap(laps, s.capacity);
  }

  lemma AtLeastOneLap(laps: nat, capacity: nat)
    ensures laps == 0 || laps * capacity >= capacity
  {
  }

  lemma Delivers(s: Ring, v: nat)
    requires Inv(s) && s.consumer.Copying? && |s.consumer.out| == s.consumer.need
    requires s.consumer.out == s.log[s.read..s.read + s.consumer.need] && v <= s.Reserved()
    ensures Inv(s.(fenced := v, consumer := AtRest, read := s.read + s.consumer.need,
                   taken := s.taken + s.consumer.out, ops := s.ops + [Take(s.consumer.need)]))
  {
    var all := s.ops + [Take(s.consumer.need)];
    assert all[..|all| - 1] == s.ops;
  }

  lemma Refuses(s: Ring, v: nat)
    requires Inv(s) && v <= s.Reserved()
    ensures Inv(s.(fenced := v, consumer := AtRest))
  {
  }

  lemma FinishReadInv(s: Ring, v: nat)
    requires Inv(s) && Enabled(s, FinishRead(v))
    ensures Inv(Step(s, FinishRead(v)))
  {
    hide Inv;
    EndsAtMost(s, v);
    if v - s.read <= s.capacity {
      TornReadFreedom(s, v);
      Delivers(s, v);
    } else {
      Refuses(s, v);
    }
  }

  lemma SkipInv(s: Ring, count: nat, w: nat)
    requires Inv(s) && Enabled(s, Skip(count, w))
    ensures Inv(Step(s, Skip(count, w)))
  {
    var t := Step(s, Skip(count, w));
    assert t.ops[..|t.ops| - 1] == s.ops;
  }

  lemma StepInv(s: Ring, a: Action)
    requires Inv(s) && Enabled(s, a)
    ensures Inv(Step(s, a))
  {
    match a
    case Begin(batch) => BeginInv(s, batch);
    case Store => StoreInv(s);
    case Publish => PublishInv(s);
    case StartRead(need, w) => StartReadInv(s, need, w);
    case LoadSlot(laps) => LoadSlotInv(s, laps);
    case FinishRead(v) => FinishReadInv(s, v);
    case Skip(count, w) => SkipInv(s, count, w);
    case Available(w) => AvailableInv(s, w);
  }

  lemma {:induction false} RunInv(s: Ring, run: seq<Action>)
    requires Inv(s) && ValidRun(s, run)
    ensures Inv(Run(s, run))
    decreases |run|
  {
    if run != [] {
      StepInv(s, run[0]);
      RunInv(Step(s, run[0]), run[1..]);
    }
  }

  /** Whole runs from an empty ring: everything ever delivered, in order, is what a reader with
      an unbounded log and a cursor gets from the same takes and drops; and the indices keep
      their order throughout. */
  lemma RunsRefineTheLog(capacity: nat, run: seq<Action>)
    requires capacity > 0 && ValidRun(Init(capacity), run)
    ensures var s := Run(Init(capacity), run);
      && Cursor(s.ops) == s.read <= s.Write() <= |s.log| <= s.Reserved() <= s.Write() + s.capacity
      && s.taken == Replay(s.log, s.ops)
  {
    InitInv(capacity);
    RunInv(Init(capacity), run);
    IndexOrder(Run(Init(capacity), run));
  }

  /** Every outcome of a read: refused at its start for an empty request or too few published
      samples, refused at its end only when the producer really has reserved beyond a whole lap,
      and otherwise it delivers the next `need` samples of the log. A refusal moves nothing. */
  lemma ReadOutcomes(s: Ring, a: Action)
    requires Inv(s) && Enabled(s, a) && (a.StartRead? || a.FinishRead?)
    ensures var t := Step(s, a);
      match a
      case StartRead(need, w) =>
        && t.read == s.read && t.taken == s.taken && t.ops == s.ops && t.log == s.log
        && (t.consumer.AtRest? <==> need == 0 || w < s.read + need)
      case FinishRead(v) =>
        if v - s.read > s.capacity then
          && t.read == s.read && t.taken == s.taken && t.ops == s.ops && t.log == s.log
          && s.Reserved() - s.read > s.capacity
        else
          && t.read == s.read + s.consumer.need <= |s.log|
          && t.taken == s.taken + s.log[s.read..t.read]
  {
    if a.FinishRead? {
      assert a.v <= s.Reserved();
      if a.v - s.read <= s.capacity { TornReadFreedom(s, a.v); }
    }
  }

  /** Why `reserved` exists: checked against `write` alone, this run would deliver a sample of
      the batch in flight (2) in place of the one asked for (1). */
  lemma WriteAloneWouldTear()
    ensures ValidRun(Init(1), FirstBatch() + SecondBatch())
    ensures var s := Run(Init(1), FirstBatch() + SecondBatch());
      && s.consumer == Copying(1, [2], 2) && s.log == [1, 2]
      && s.read == 0 && s.Write() - s.read <= s.capacity
  {
    TornHead();
    TornTail();
    RunAppend(Init(1), FirstBatch(), SecondBatch());
  }

  function FirstBatch(): seq<Action> { [Begin([1]), Store, Publish] }

  function SecondBatch(): seq<Action> { [StartRead(1, 1), Begin([2]), Store, LoadSlot(1)] }

  function Published1(): Ring { Ring(1, [1], [0, 1], Idle, 0, 0, 0, AtRest, [], []) }

  lemma TornHead()
    ensures ValidRun(Init(1), FirstBatch()) && Run(Init(1), FirstBatch()) == Published1()
  {
    var s1 := Ring(1, [], [0, 1], Writing([1], 0), 0, 0, 0, AtRest, [], []);
    var s2 := s1.(log := [1], producer := Writing([1], 1));
    assert Step(s2, Publish) == Published1();
    Cons(s2, FirstBatch()[2..]);
    Cons(s1, FirstBatch()[1..]);
    Cons(Init(1), FirstBatch());
  }

  lemma TornTail()
    ensures ValidRun(Published1(), SecondBatch())
    ensures Run(Published1(), SecondBatch())
      == Ring(1, [1, 2], [0, 1, 2], Writing([2], 1), 0, 1, 0, Copying(1, [2], 2), [], [])
  {
    hide Run, ValidRun;
    var s3, run := Published1(), SecondBatch();
    var s4 := s3.(seen := 1, consumer := Copying(1, [], 0));
    var s5 := s4.(ends := [0, 1, 2], producer := Writing([2], 0));
    var s6 := s5.(log := [1, 2], producer := Writing([2], 1));
    assert s6.consumer.out + [s6.log[1]] == [2];
    assert run[3..][1..] == [] && run[2..][1..] == run[3..] && run[1..][1..] == run[2..];
    assert Step(s4, run[1]) == s5 && Step(s5, run[2]) == s6;
    NoStep(Step(s6, run[3]));
    Cons(s6, run[3..]);
    Cons(s5, run[2..]);
    Cons(s4, run[1..]);
    assert 1 in s3.Published() && Step(s3, run[0]) == s4;
    Cons(s3, run);
  }

  lemma {:induction false} RunAppend(s: Ring, run: seq<Action>, more: seq<Action>)
    requires ValidRun(s, run) && ValidRun(Run(s, run), more)
    ensures ValidRun(s, run + more) && Run(s, run + more) == Run(Run(s, run), more)
    decreases |run|
  {
    hide Enabled, Step;
    if run == [] {
      assert run + more == more;
    } else {
      RunAppend(Step(s, run[0]), run[1..], more);
      assert (run + more)[1..] == run[1..] + more;
    }
  }

  lemma NoStep(s: Ring)
    ensures ValidRun(s, []) && Run(s, []) == s
  {
  }

  lemma Cons(s: Ring, run: seq<Action>)
    requires run != [] && Enabled(s, run[0]) && ValidRun(Step(s, run[0]), run[1..])
    ensures ValidRun(s, run) && Run(s, run) == Run(Step(s, run[0]), run[1..])
  {
  }

  // ---- Whole calls ----

  /** The run leads from one state to the other. */
  ghost predicate Leads(s: Ring, run: seq<Action>, t: Ring)
  {
    ValidRun(s, run) && Run(s, run) == t
  }

  lemma LeadsStep(s: Ring, a: Action)
    requires Enabled(s, a)
    ensures Leads(s, [a], Step(s, a))
  {
    hide Enabled, Step, Run, ValidRun;
    assert [a][1..] == [];
    NoStep(Step(s, a));
    Cons(s, [a]);
  }

  lemma LeadsThen(s: Ring, run: seq<Action>, t: Ring, more: seq<Action>, u: Ring)
    requires Leads(s, run, t) && Leads(t, more, u)
    ensures Leads(s, run + more, u)
  {
    RunAppend(s, run, more);
  }

  function Stores(n: nat): (run: seq<Action>)
    ensures |run| == n
  {
    seq(n, i => Store)
  }

  /** Loads of samples that nothing has overwritten. */
  function Loads(n: nat): (run: seq<Action>)
    ensures |run| == n
  {
    seq(n, i => LoadSlot(0))
  }

  lemma {:induction false} StoresLead(s: Ring, n: nat)
    requires s.producer.Writing? && s.producer.done + n <= |s.producer.batch|
    ensures var (b, d) := (s.producer.batch, s.producer.done);
      Leads(s, Stores(n), s.(log := s.log + b[d..d + n], producer := Writing(b, d + n)))
  {
    var (b, d) := (s.producer.batch, s.producer.done);
    if n == 0 {
      assert s.log + b[d..d] == s.log;
    } else {
      StoresLead(s, n - 1);
      var t := s.(log := s.log + b[d..d + n - 1], producer := Writing(b, d + n - 1));
      LeadsStep(t, Store);
      LeadsThen(s, Stores(n - 1), t, [Store], Step(t, Store));
      assert Stores(n - 1) + [Store] == Stores(n);
      assert s.log + b[d..d + n] == (s.log + b[d..d + n - 1]) + [b[d + n - 1]];
    }
  }

  /** One undisturbed call of `write_s16le` with that much to keep. */
  function Batch(batch: seq<Sample>): seq<Action>
  {
    [Begin(batch)] + Stores(|batch|) + [Publish]
  }

  lemma BatchLeads(s: Ring, batch: seq<Sample>)
    requires s.producer.Idle? && 0 < |batch| <= s.capacity
    ensures Leads(s, Batch(batch), s.(log := s.log + batch, ends := s.ends + [s.Reserved() + |batch|]))
  {
    var t := Step(s, Begin(batch));
    LeadsStep(s, Begin(batch));
    StoresLead(t, |batch|);
    assert batch[0..|batch|] == batch;
    var u := t.(log := t.log + batch, producer := Writing(batch, |batch|));
    LeadsThen(s, [Begin(batch)], t, Stores(|batch|), u);
    LeadsStep(u, Publish);
    hide Leads;
    LeadsThen(s, [Begin(batch)] + Stores(|batch|), u, [Publish], Step(u, Publish));
  }

  lemma LoadLeads(s: Ring) returns (floor: nat)
    requires s.consumer.Copying? && |s.consumer.out| < s.consumer.need && s.consumer.floor <= s.Reserved()
    requires s.read + |s.consumer.out| < |s.log| <= s.Reserved() && Increasing(s.ends)
    ensures floor <= s.Reserved()
    ensures Leads(s, [LoadSlot(0)],
      s.(consumer := Copying(s.consumer.need, s.consumer.out + [s.log[s.read + |s.consumer.out|]], floor)))
  {
    hide EndOf;
    LeadsStep(s, LoadSlot(0));
    floor := Step(s, LoadSlot(0)).consumer.floor;
  }

  /** Copying samples that are still in place. */
  lemma {:induction false} LoadsLead(s: Ring, n: nat) returns (floor: nat)
    requires s.consumer.Copying? && |s.consumer.out| + n <= s.consumer.need && s.consumer.floor <= s.Reserved()
    requires s.read + |s.consumer.out| + n <= |s.log| <= s.Reserved() && Increasing(s.ends)
    ensures floor <= s.Reserved()
    ensures var from := s.read + |s.consumer.out|;
      Leads(s, Loads(n), s.(consumer := Copying(s.consumer.need, s.consumer.out + s.log[from..from + n], floor)))
  {
    var from := s.read + |s.consumer.out|;
    if n == 0 {
      floor := s.consumer.floor;
      assert s.consumer.out + s.log[from..from] == s.consumer.out;
      NoStep(s);
    } else {
      hide Leads, Increasing, Loads;
      var f := LoadsLead(s, n - 1);
      var t := s.(consumer := Copying(s.consumer.need, s.consumer.out + s.log[from..from + n - 1], f));
      floor := LoadLeads(t);
      var u := s.(consumer := Copying(s.consumer.need, s.consumer.out + s.log[from..from + n], floor));
      assert t.read + |t.consumer.out| == from + n - 1;
      assert t.consumer.out + [s.log[from + n - 1]] == u.consumer.out;
      LeadsThen(s, Loads(n - 1), t, [LoadSlot(0)], u);
      LoadsNext(n);
    }
  }

  lemma LoadsNext(n: nat)
    requires n > 0
    ensures Loads(n) == Loads(n - 1) + [LoadSlot(0)]
  {
  }

  /** The accesses of the reader in a run. */
  function ReaderSide(run: seq<Action>): seq<Action>
  {
    if run == [] then []
    else ReaderSide(run[..|run| - 1])
         + var a := run[|run| - 1]; if a.Begin? || a.Store? || a.Publish? then [] else [a]
  }

  lemma {:induction false} ReaderSideAppend(a: seq<Action>, b: seq<Action>)
    ensures ReaderSide(a + b) == ReaderSide(a) + ReaderSide(b)
  {
    if b == [] {
      assert a + b == a;
    } else {
      ReaderSideAppend(a, b[..|b| - 1]);
      assert (a + b)[..|a + b| - 1] == a + b[..|b| - 1];
    }
  }

  lemma {:induction false} ReaderSideOf(n: nat)
    ensures ReaderSide(Stores(n)) == [] && ReaderSide(Loads(n)) == Loads(n)
  {
    if n > 0 {
      ReaderSideOf(n - 1);
      assert Stores(n)[..n - 1] == Stores(n - 1) && Loads(n)[..n - 1] == Loads(n - 1);
    }
  }

  lemma ReaderSideOne(a: Action)
    ensures ReaderSide([a]) == if a.Begin? || a.Store? || a.Publish? then [] else [a]
  {
    assert [a][..0] == [] && ReaderSide([]) == [];
  }

  lemma ReaderSideOfBatch(batch: seq<Sample>)
    ensures ReaderSide(Batch(batch)) == []
  {
    ReaderSideOne(Begin(batch));
    ReaderSideOne(Publish);
    ReaderSideOf(|batch|);
    ReaderSideAppend([Begin(batch)], Stores(|batch|));
    ReaderSideAppend([Begin(batch)] + Stores(|batch|), [Publish]);
  }
}
