/** The end of a session: three threads and the order in which the main thread lets go of them.

    The main thread drops the mirroring session (STOP and two CLOSEs are enqueued), drops the
    channel (the dispatcher is told to stop and joined) and joins the session monitor. The monitor
    waits on messages forwarded by the dispatcher and ends when one closes the session or when the
    dispatcher is gone. `MonitorFirst` is the order the program avoids. */
module Teardown {

  datatype Msg = Stop | CloseApp | ClosePlatform | Earlier(id: nat)

  const FAREWELL: seq<Msg> := [Stop, CloseApp, ClosePlatform]

  datatype Order = ChannelFirst | MonitorFirst

  /** Main thread: `sent` farewell messages enqueued; then the flag; then the joins. */
  datatype Main = Farewell(sent: nat) | RaiseStop | JoinDispatcher | JoinMonitor | Done

  /** Dispatcher thread: at its loop head, writing what is enqueued, in the final flush, past it,
      and gone with its channel ends dropped. */
  datatype Dispatcher = Head | Outbound | Flush | Leaving | Gone

  datatype Monitor = Waiting | Reporting | Ended

  /** `intact`: no write has failed. `early`: the dispatcher left its loop for another reason than
      the stop flag. `earlier`: what was enqueued before the teardown. `heard`: what the monitor has
      taken, true for a message that closes the session. */
  datatype State = State(
    order: Order,
    main: Main,
    dispatcher: Dispatcher,
    monitor: Monitor,
    stop: bool,
    sessionStop: bool,
    outbound: seq<Msg>,
    incoming: seq<bool>,
    heard: seq<bool>,
    enqueued: seq<Msg>,
    written: seq<Msg>,
    earlier: seq<Msg>,
    intact: bool,
    early: bool)

  /** One atomic step of a thread. A read forwards messages (true: one that closes the session) and
      may find the framing broken. */
  datatype Action =
    | MainStep
    | Read(forwarded: seq<bool>, broken: bool)
    | ReadEnds
    | SeeStop
    | Write(ok: bool)
    | NothingToWrite(silent: bool)
    | FlushWrite(ok: bool)
    | FlushDone
    | Leave
    | MonitorTakes
    | MonitorAlone
    | MonitorReports

  predicate Enabled(s: State, a: Action)
  {
    match a
    case MainStep =>
      (match s.main
       case Farewell(n) => n < |FAREWELL|
       case RaiseStop => true
       case JoinDispatcher => s.dispatcher.Gone?
       case JoinMonitor => s.monitor.Ended?
       case Done => false)
    case Read(_, _) => s.dispatcher.Head? && !s.stop
    case ReadEnds => s.dispatcher.Head? && !s.stop
    case SeeStop => s.dispatcher.Head? && s.stop
    case Write(_) => s.dispatcher.Outbound? && s.outbound != []
    case NothingToWrite(_) => s.dispatcher.Outbound? && s.outbound == []
    case FlushWrite(_) => s.dispatcher.Flush? && s.outbound != []
    case FlushDone => s.dispatcher.Flush? && s.outbound == []
    case Leave => s.dispatcher.Leaving?
    case MonitorTakes => s.monitor.Waiting? && s.incoming != []
    case MonitorAlone => s.monitor.Waiting? && s.incoming == [] && s.dispatcher.Gone?
    case MonitorReports => s.monitor.Reporting?
  }

  function StepMain(s: State): State
    requires Enabled(s, MainStep)
  {
    match s.main
    case Farewell(n) =>
      var t := if s.dispatcher.Gone? then s
               else s.(outbound := s.outbound + [FAREWELL[n]], enqueued := s.enqueued + [FAREWELL[n]]);
      t.(main := if n + 1 < |FAREWELL| then Farewell(n + 1)
                 else if s.order.ChannelFirst? then RaiseStop else JoinMonitor)
    case RaiseStop => s.(stop := true, main := JoinDispatcher)
    case JoinDispatcher => s.(main := if s.order.ChannelFirst? then JoinMonitor else Done)
    case JoinMonitor => s.(main := if s.order.ChannelFirst? then Done else RaiseStop)
  }

  function Step(s: State, a: Action): State
    requires Enabled(s, a)
  {
    match a
    case MainStep => StepMain(s)
    case Read(forwarded, broken) =>
      s.(incoming := s.incoming + forwarded,
         dispatcher := if broken then Flush else Outbound, early := s.early || broken)
    case ReadEnds => s.(dispatcher := Flush, early := true)
    case SeeStop => s.(dispatcher := Flush)
    case Write(ok) =>
      if ok then s.(outbound := s.outbound[1..], written := s.written + [s.outbound[0]])
      else s.(outbound := s.outbound[1..], intact := false, stop := true, dispatcher := Head)
    case NothingToWrite(silent) =>
      s.(dispatcher := if silent then Flush else Head, early := s.early || silent)
    case FlushWrite(ok) =>
      if ok then s.(outbound := s.outbound[1..], written := s.written + [s.outbound[0]])
      else s.(outbound := s.outbound[1..], intact := false, dispatcher := Leaving)
    case FlushDone => s.(dispatcher := Leaving)
    case Leave => s.(dispatcher := Gone)
    case MonitorTakes =>
      s.(incoming := s.incoming[1..], heard := s.heard + [s.incoming[0]],
         monitor := if s.incoming[0] then Reporting else Waiting)
    case MonitorAlone => s.(monitor := Reporting)
    case MonitorReports => s.(sessionStop := true, monitor := Ended)
  }

  /** The session runs: the dispatcher is in its loop, what was enqueued is written or waiting. The
      main thread may take its first step, the STOP, at any time from here on, also after the
      dispatcher or the monitor has ended for its own reasons. */
  predicate Running(s: State)
  {
    && s.main == Farewell(0) && (s.dispatcher.Head? || s.dispatcher.Outbound?) && s.monitor.Waiting?
    && !s.stop && !s.sessionStop && s.intact && !s.early && NoneCloses(s.heard)
    && s.enqueued == s.written + s.outbound == s.earlier
  }

  predicate NoneCloses(messages: seq<bool>)
  {
    forall i :: 0 <= i < |messages| ==> !messages[i]
  }

  predicate ValidRun(s: State, run: seq<Action>)
    decreases |run|
  {
    run == [] || (Enabled(s, run[0]) && ValidRun(Step(s, run[0]), run[1..]))
  }

  function Run(s: State, run: seq<Action>): State
    requires ValidRun(s, run)
    decreases |run|
  {
    if run == [] then s else Run(Step(s, run[0]), run[1..])
  }

  // ---- The invariant ----

  function SentCount(s: State): nat
  {
    match s.main
    case Farewell(n) => if n <= |FAREWELL| then n else |FAREWELL|
    case _ => |FAREWELL|
  }

  predicate PastStop(s: State)
  {
    s.main.JoinDispatcher? || (s.order.ChannelFirst? && s.main.JoinMonitor?) || s.main.Done?
  }

  predicate PastDispatcher(s: State)
  {
    (s.order.ChannelFirst? && s.main.JoinMonitor?) || s.main.Done?
  }

  predicate PastMonitor(s: State)
  {
    s.main.Done? || (s.order.MonitorFirst? && (s.main.RaiseStop? || s.main.JoinDispatcher?))
  }

  predicate InLoop(s: State) { s.dispatcher.Head? || s.dispatcher.Outbound? }

  /** Who may be where. */
  predicate Ordered(s: State)
  {
    && (s.main.Farewell? ==> s.main.sent < |FAREWELL|)
    && (PastStop(s) ==> s.stop)
    && (PastDispatcher(s) ==> s.dispatcher.Gone?)
    && (s.intact && s.stop ==> PastStop(s))
    && (s.intact && !InLoop(s) ==> s.early || PastStop(s))
    && (!s.intact && InLoop(s) ==> s.stop && !s.dispatcher.Outbound?)
    && (PastMonitor(s) ==> s.monitor.Ended?)
    && (s.early ==> !InLoop(s))
  }

  /** Nothing enqueued is lost or repeated. */
  predicate Conserved(s: State)
  {
    s.intact && !s.early ==>
      && s.enqueued == s.earlier + FAREWELL[..SentCount(s)]
      && s.enqueued == s.written + s.outbound
      && (s.dispatcher.Leaving? || s.dispatcher.Gone? ==> s.outbound == [])
  }

  /** Why the monitor is where it is: it waits until it has taken a message that closes the session,
      or until the dispatcher is gone with nothing left to take; and it takes none after that. */
  predicate Minded(s: State)
  {
    var n := |s.heard|;
    && (s.monitor.Waiting? ==> NoneCloses(s.heard))
    && (!s.monitor.Waiting? ==>
          || (n > 0 && s.heard[n - 1] && NoneCloses(s.heard[..n - 1]))
          || (NoneCloses(s.heard) && s.dispatcher.Gone? && s.incoming == []))
    && (s.sessionStop <==> s.monitor.Ended?)
  }

  predicate Inv(s: State)
  {
    Ordered(s) && Conserved(s) && Minded(s)
  }

  lemma StepMinded(s: State, a: Action)
    requires Minded(s) && Enabled(s, a)
    ensures Minded(Step(s, a))
  {
    hide NoneCloses;
    if a.MonitorTakes? {
      assert (s.heard + [s.incoming[0]])[..|s.heard|] == s.heard;
      NoneClosesSnoc(s.heard, s.incoming[0]);
    } else if !a.MonitorAlone? && !a.MonitorReports? {
      hide Step, Enabled;
      MonitorKept(s, a);
    }
  }

  lemma MonitorKept(s: State, a: Action)
    requires Enabled(s, a) && !a.MonitorTakes? && !a.MonitorAlone? && !a.MonitorReports?
    ensures var t := Step(s, a);
      && t.heard == s.heard && t.monitor == s.monitor && t.sessionStop == s.sessionStop
      && (s.dispatcher.Gone? ==> t.dispatcher.Gone? && t.incoming == s.incoming)
  {
  }

  lemma NoneClosesSnoc(messages: seq<bool>, closes: bool)
    ensures NoneCloses(messages + [closes]) <==> NoneCloses(messages) && !closes
  {
    assert (messages + [closes])[|messages|] == closes;
    assert forall i :: 0 <= i < |messages| ==> (messages + [closes])[i] == messages[i];
  }

  /** What the monitor takes is what was forwarded, in order, over any run. */
  lemma {:induction false} NothingUnheard(s: State, run: seq<Action>)
    requires ValidRun(s, run)
    ensures var t := Run(s, run);
      t.heard + t.incoming == s.heard + s.incoming + Forwarded(run)
    decreases |run|
  {
    if run != [] {
      hide Step, Enabled;
      OneHeard(s, run[0]);
      NothingUnheard(Step(s, run[0]), run[1..]);
      var new_ := if run[0].Read? then run[0].forwarded else [];
      assert s.heard + s.incoming + new_ + Forwarded(run[1..]) == s.heard + s.incoming + (new_ + Forwarded(run[1..]));
    } else {
      assert s.heard + s.incoming + [] == s.heard + s.incoming;
    }
  }

  lemma OneHeard(s: State, a: Action)
    requires Enabled(s, a)
    ensures var t := Step(s, a);
      t.heard + t.incoming == s.heard + s.incoming + if a.Read? then a.forwarded else []
  {
    var t := Step(s, a);
    if a.Read? {
      assert s.heard + (s.incoming + a.forwarded) == s.heard + s.incoming + a.forwarded;
    } else {
      assert s.heard + s.incoming + [] == s.heard + s.incoming;
      if a.MonitorTakes? { assert s.incoming == [s.incoming[0]] + s.incoming[1..]; }
    }
  }

  function Forwarded(run: seq<Action>): seq<bool>
  {
    if run == [] then [] else (if run[0].Read? then run[0].forwarded else []) + Forwarded(run[1..])
  }

  /** Over any run from a running session: the monitor ends the session exactly when it has taken a
      message that closes it, the first of all that were forwarded, or when the dispatcher is gone
      and has forwarded none. */
  lemma MonitorMeaning(s: State, run: seq<Action>)
    requires Running(s) && ValidRun(s, run)
    ensures var t := Run(s, run);
      var all := s.heard + s.incoming + Forwarded(run);
      && t.heard + t.incoming == all
      && Minded(t)
      && (t.monitor.Waiting? && t.incoming != [] ==> Enabled(t, MonitorTakes))
      && (t.monitor.Waiting? && t.incoming == [] ==> (Enabled(t, MonitorAlone) <==> t.dispatcher.Gone?))
  {
    RunningInv(s);
    RunInv(s, run);
    NothingUnheard(s, run);
    hide Inv, Minded, Run;
    InvMinded(Run(s, run));
  }

  lemma InvMinded(s: State)
    requires Inv(s)
    ensures Minded(s)
  {
  }

  lemma StepOrdered(s: State, a: Action)
    requires Ordered(s) && Enabled(s, a)
    ensures Ordered(Step(s, a))
  {
  }

  lemma StepInv(s: State, a: Action)
    requires Inv(s) && Enabled(s, a)
    ensures Inv(Step(s, a))
  {
    hide Enabled, Step, Ordered, Conserved, Minded;
    StepOrdered(s, a);
    StepMinded(s, a);
    if a.MainStep? { MainConserves(s); } else { OthersConserve(s, a); }
  }

  lemma MainConserves(s: State)
    requires Inv(s) && Enabled(s, MainStep)
    ensures Conserved(Step(s, MainStep))
  {
    if s.main.Farewell? {
      var n := s.main.sent;
      assert FAREWELL[..n + 1] == FAREWELL[..n] + [FAREWELL[n]];
    }
  }

  lemma OthersConserve(s: State, a: Action)
    requires Inv(s) && Enabled(s, a) && !a.MainStep?
    ensures Conserved(Step(s, a))
  {
    hide Ordered, Minded;
    assert Step(s, a).enqueued == s.enqueued && SentCount(Step(s, a)) == SentCount(s);
    assert s.outbound == [] || s.outbound == [s.outbound[0]] + s.outbound[1..];
  }

  lemma {:induction false} RunInv(s: State, run: seq<Action>)
    requires Inv(s) && ValidRun(s, run)
    ensures Inv(Run(s, run))
    decreases |run|
  {
    if run != [] {
      StepInv(s, run[0]);
      RunInv(Step(s, run[0]), run[1..]);
    }
  }

  /** When both threads are joined and the dispatcher ran until it was told to stop and no write
      failed, STOP and the two CLOSEs were written once each, in that order, after everything
      enqueued before them. */
  lemma FarewellsWritten(s: State, run: seq<Action>)
    requires Running(s) && ValidRun(s, run) && Run(s, run).main.Done?
    requires Run(s, run).intact && !Run(s, run).early
    ensures Run(s, run).written == s.earlier + [Stop, CloseApp, ClosePlatform]
  {
    RunningInv(s);
    RunInv(s, run);
    EarlierStays(s, run);
    assert FAREWELL[..|FAREWELL|] == FAREWELL;
  }

  lemma {:induction false} EarlierStays(s: State, run: seq<Action>)
    requires ValidRun(s, run)
    ensures Run(s, run).earlier == s.earlier && Run(s, run).order == s.order
    decreases |run|
  {
    if run != [] { EarlierStays(Step(s, run[0]), run[1..]); }
  }

  /** What ends the dispatcher's loop: a read that fails or breaks the framing, a silent peer, and the
      stop flag at the loop's head; of these only the last is not early. */
  lemma LoopEndsIff(s: State, a: Action)
    requires InLoop(s) && Enabled(s, a)
    ensures !InLoop(Step(s, a)) <==> a.ReadEnds? || a.SeeStop? || a == NothingToWrite(true) || (a.Read? && a.broken)
    ensures !InLoop(Step(s, a)) && !s.early ==> (Step(s, a).early <==> !a.SeeStop?)
  {
  }

  /** At its loop's head the dispatcher reads whatever the peer sends, to any end, exactly until the stop
      flag is up, and then it leaves. */
  lemma HeadIff(s: State, forwarded: seq<bool>, broken: bool)
    requires s.dispatcher.Head?
    ensures (Enabled(s, Read(forwarded, broken)) <==> !s.stop) && (Enabled(s, ReadEnds) <==> !s.stop)
    ensures Enabled(s, SeeStop) <==> s.stop
  {
  }

  /** The dispatcher goes on from its writes only when nothing waits or a write has failed. */
  lemma OutboundDrained(s: State, a: Action)
    requires s.dispatcher.Outbound? && Enabled(s, a) && !Step(s, a).dispatcher.Outbound?
    ensures s.outbound == [] || (!Step(s, a).intact && Step(s, a).stop)
  {
  }

  /** However the loop ended, what was enqueued before is drained: from any state of a session in
      which the dispatcher is in its loop to any in which it is past its drain, everything written
      by then and everything that waited is written, in order, unless a write failed. */
  lemma DrainedHowever(s: State, run: seq<Action>)
    requires InLoop(s) && s.intact && ValidRun(s, run)
    requires Run(s, run).intact && (Run(s, run).dispatcher.Leaving? || Run(s, run).dispatcher.Gone?)
    ensures s.written + s.outbound <= Run(s, run).written
  {
    StillDrains(s, s.written + s.outbound, run);
  }

  ghost predicate Drains(s: State, due: seq<Msg>)
  {
    s.intact ==> due <= s.written + s.outbound && (s.dispatcher.Leaving? || s.dispatcher.Gone? ==> due <= s.written)
  }

  lemma {:induction false} StillDrains(s: State, due: seq<Msg>, run: seq<Action>)
    requires Drains(s, due) && ValidRun(s, run)
    ensures Drains(Run(s, run), due)
    decreases |run|
  {
    if run != [] {
      hide Drains, Step, Enabled;
      StepDrains(s, due, run[0]);
      StillDrains(Step(s, run[0]), due, run[1..]);
    }
  }

  lemma StepDrains(s: State, due: seq<Msg>, a: Action)
    requires Drains(s, due) && Enabled(s, a)
    ensures Drains(Step(s, a), due)
  {
    var t := Step(s, a);
    if t.intact {
      assert s.intact;
      match a {
        case MainStep => assert s.outbound <= t.outbound;
        case Write(_) => assert t.written + t.outbound == s.written + s.outbound;
        case FlushWrite(_) => assert t.written + t.outbound == s.written + s.outbound;
        case FlushDone => assert s.written + [] == s.written;
        case _ => assert t.written == s.written && t.outbound == s.outbound;
      }
    }
  }

  /** As long as the dispatcher is there each farewell is enqueued, whatever has failed; and at most
      two writes ever fail: one in the loop, which it ends, and one in the drain, which it ends. */
  ghost predicate Tallied(s: State)
  {
    && (!s.dispatcher.Gone? ==> s.enqueued == s.earlier + FAREWELL[..SentCount(s)])
    && s.enqueued <= s.earlier + FAREWELL
    && |s.written| + |s.outbound| <= |s.enqueued| <= |s.written| + |s.outbound| + Failures(s)
  }

  function Failures(s: State): nat
  {
    if s.intact then 0 else if InLoop(s) || s.dispatcher.Flush? then 1 else 2
  }

  lemma {:induction false} RunTallied(s: State, run: seq<Action>)
    requires Inv(s) && Tallied(s) && ValidRun(s, run)
    ensures Tallied(Run(s, run))
    decreases |run|
  {
    if run != [] {
      hide Inv, Tallied, Step, Enabled;
      StepInv(s, run[0]);
      StepTallied(s, run[0]);
      RunTallied(Step(s, run[0]), run[1..]);
    }
  }

  lemma StepTallied(s: State, a: Action)
    requires Inv(s) && Tallied(s) && Enabled(s, a)
    ensures Tallied(Step(s, a))
  {
    hide Conserved, Minded;
    if a.MainStep? { MainTallied(s); } else { OthersTallied(s, a); }
  }

  lemma MainTallied(s: State)
    requires Ordered(s) && Tallied(s) && Enabled(s, MainStep)
    ensures Tallied(StepMain(s))
  {
    if s.main.Farewell? { NextFarewell(s.earlier, s.main.sent); }
  }

  lemma NextFarewell(earlier: seq<Msg>, n: nat)
    requires n < |FAREWELL|
    ensures (earlier + FAREWELL[..n]) + [FAREWELL[n]] == earlier + FAREWELL[..n + 1] <= earlier + FAREWELL
  {
    assert FAREWELL[..n + 1] == FAREWELL[..n] + [FAREWELL[n]];
    assert FAREWELL == FAREWELL[..n + 1] + FAREWELL[n + 1..];
  }

  lemma OthersTallied(s: State, a: Action)
    requires Ordered(s) && Tallied(s) && Enabled(s, a) && !a.MainStep?
    ensures Tallied(Step(s, a))
  {
    var t := Step(s, a);
    assert t.enqueued == s.enqueued && t.earlier == s.earlier && SentCount(t) == SentCount(s);
  }

  /** Whatever fails and whenever: the farewells are enqueued as long as the dispatcher is there, and
      of all that is enqueued at most two messages are neither written nor still waiting. */
  lemma AtMostTwoLost(s: State, run: seq<Action>)
    requires Running(s) && ValidRun(s, run)
    ensures var t := Run(s, run);
      && t.enqueued <= s.earlier + [Stop, CloseApp, ClosePlatform]
      && (!t.dispatcher.Gone? ==> t.enqueued == s.earlier + [Stop, CloseApp, ClosePlatform][..SentCount(t)])
      && |t.enqueued| <= |t.written| + |t.outbound| + 2
  {
    RunningInv(s);
    assert FAREWELL[..0] == [] && s.earlier + [] == s.earlier;
    RunTallied(s, run);
    EarlierStays(s, run);
  }

  // ---- Completion ----

  /** Some thread that the main thread does not have to wait for can always step. */
  function NextStep(s: State): Action
  {
    if Enabled(s, MainStep) then MainStep
    else match s.dispatcher
      case Head => if s.stop then SeeStop else ReadEnds
      case Outbound => if s.outbound == [] then NothingToWrite(false) else Write(true)
      case Flush => if s.outbound == [] then FlushDone else FlushWrite(true)
      case Leaving => Leave
      case Gone =>
        if s.monitor.Reporting? then MonitorReports
        else if s.incoming == [] then MonitorAlone else MonitorTakes
  }

  /** No reachable state short of the end is stuck; and where the main thread cannot step, what it
      waits for can, without help from the peer once the stop flag is up. */
  lemma NeverStuck(s: State)
    requires Inv(s) && s.order.ChannelFirst? && !s.main.Done?
    ensures Enabled(s, NextStep(s))
    ensures !Enabled(s, MainStep) ==> s.stop && (s.main.JoinDispatcher? || s.dispatcher.Gone?)
  {
  }

  function MainRank(m: Main): nat
  {
    match m
    case Farewell(n) => if n < |FAREWELL| then 7 - n else 4
    case RaiseStop => 3
    case JoinDispatcher => 2
    case JoinMonitor => 1
    case Done => 0
  }

  function DispatcherRank(d: Dispatcher): nat
  {
    match d
    case Outbound => 4 case Head => 3 case Flush => 2 case Leaving => 1 case Gone => 0
  }

  function MonitorRank(m: Monitor): nat
  {
    match m case Waiting => 2 case Reporting => 1 case Ended => 0
  }

  predicate Less(s: State, t: State)
  {
    var (a, b) := (MainRank(s.main), MainRank(t.main));
    var (c, d) := (DispatcherRank(s.dispatcher), DispatcherRank(t.dispatcher));
    var (e, f) := (MonitorRank(s.monitor), MonitorRank(t.monitor));
    a < b || (a == b && (c < d || (c == d && (|s.outbound| < |t.outbound|
      || (|s.outbound| == |t.outbound| && (e < f || (e == f && |s.incoming| < |t.incoming|)))))))
  }

  /** Once the stop flag is up every step of any thread makes progress. */
  lemma StepsProgress(s: State, a: Action)
    requires s.order.ChannelFirst? && s.stop && Inv(s) && Enabled(s, a)
    ensures Less(Step(s, a), s) && Step(s, a).stop
  {
  }

  ghost predicate Execution(run: nat -> State)
  {
    && Running(run(0)) && run(0).order.ChannelFirst?
    && forall i :: Moves(run, i)
  }

  /** As long as anything can step, something does. */
  ghost predicate Moves(run: nat -> State, i: nat)
  {
    (exists a :: Takes(run, i, a)) || (run(i + 1) == run(i) && forall a :: !Enabled(run(i), a))
  }

  predicate Takes(run: nat -> State, i: nat, a: Action)
  {
    Enabled(run(i), a) && run(i + 1) == Step(run(i), a)
  }

  /** The scheduler runs the main thread again as long as it is not waiting in a join. */
  ghost predicate FairToMain(run: nat -> State)
  {
    forall i :: MainRank(run(i).main) > 2 ==> exists j :: j > i && run(j).main != run(i).main
  }

  lemma RunningInv(s: State)
    requires Running(s)
    ensures Inv(s)
  {
    assert FAREWELL[..0] == [];
  }

  lemma {:induction false} ExecutionInv(run: nat -> State, i: nat)
    requires Execution(run)
    ensures Inv(run(i)) && run(i).order.ChannelFirst?
  {
    hide Inv, Enabled, Step, Running;
    if i == 0 {
      RunningInv(run(0));
    } else {
      var k: nat := i - 1;
      ExecutionInv(run, k);
      assert Moves(run, k);
      if a :| Takes(run, k, a) {
        StepInv(run(k), a);
        StepRank(run(k), a);
      }
    }
  }

  lemma StepRank(s: State, a: Action)
    requires s.order.ChannelFirst? && Inv(s) && Enabled(s, a)
    ensures Step(s, a).order == s.order
    ensures Step(s, a).main != s.main ==> MainRank(Step(s, a).main) < MainRank(s.main)
  {
    hide Conserved, Minded;
    if a.MainStep? { MainStepRank(s); } else { assert Step(s, a).main == s.main; }
  }

  lemma MainStepRank(s: State)
    requires s.order.ChannelFirst? && Ordered(s) && Enabled(s, MainStep)
    ensures StepMain(s).order == s.order && MainRank(StepMain(s).main) < MainRank(s.main)
  {
  }

  lemma {:induction false} MainRankFalls(run: nat -> State, i: nat, j: nat)
    requires Execution(run) && i <= j
    ensures MainRank(run(j).main) <= MainRank(run(i).main)
    ensures run(j).main != run(i).main ==> MainRank(run(j).main) < MainRank(run(i).main)
  {
    hide Inv, Enabled, Step, MainRank, Running;
    if i < j {
      MainRankFalls(run, i, j - 1);
      ExecutionInv(run, j - 1);
      var k: nat := j - 1;
      assert Moves(run, k);
      if a :| Takes(run, k, a) { StepRank(run(k), a); }
    }
  }

  lemma {:induction false} FinishesFromStop(run: nat -> State, i: nat) returns (end: nat)
    requires Execution(run) && run(i).stop
    ensures i <= end && run(end).main.Done? && run(end).dispatcher.Gone? && run(end).monitor.Ended?
    decreases MainRank(run(i).main), DispatcherRank(run(i).dispatcher), |run(i).outbound|,
              MonitorRank(run(i).monitor), |run(i).incoming|
  {
    ExecutionInv(run, i);
    if run(i).main.Done? {
      return i;
    }
    NeverStuck(run(i));
    assert Moves(run, i);
    var a :| Takes(run, i, a);
    StepsProgress(run(i), a);
    end := FinishesFromStop(run, i + 1);
  }

  /** Every execution that keeps scheduling the main thread ends with both threads joined. */
  lemma {:induction false} TeardownCompletes(run: nat -> State, i: nat) returns (end: nat)
    requires Execution(run) && FairToMain(run)
    ensures i <= end && run(end).main.Done? && run(end).dispatcher.Gone? && run(end).monitor.Ended?
    decreases MainRank(run(i).main)
  {
    ExecutionInv(run, i);
    if run(i).stop {
      end := FinishesFromStop(run, i);
    } else {
      var j: nat :| j > i && run(j).main != run(i).main;
      MainRankFalls(run, i, j);
      end := TeardownCompletes(run, j);
    }
  }

  // ---- The other order ----

  /** The main thread waits for a monitor that waits for a dispatcher nobody stops. */
  predicate Deadlocked(s: State)
  {
    && s.order.MonitorFirst? && s.main.JoinMonitor? && s.monitor.Waiting? && s.incoming == []
    && InLoop(s) && !s.stop && s.outbound == []
  }

  /** A connection that stays up with nothing for the caller: the peer keeps answering heartbeats
      (ten seconds without any data would end the dispatcher) and sends nothing else. */
  predicate Quiet(a: Action)
  {
    (a.Read? ==> a.forwarded == [] && !a.broken) && !a.ReadEnds? && a != NothingToWrite(true)
  }

  /** Joining the monitor first reaches a state from which, on a quiet connection, no thread ever
      gets out: only the dispatcher can step, and it only goes round its loop. */
  lemma {:induction false} MonitorFirstDeadlocks(s: State, run: seq<Action>)
    requires Deadlocked(s) && ValidRun(s, run) && forall a :: a in run ==> Quiet(a)
    ensures Deadlocked(Run(s, run))
    decreases |run|
  {
    if run != [] {
      assert Quiet(run[0]);
      assert s.incoming + [] == [];
      MonitorFirstDeadlocks(Step(s, run[0]), run[1..]);
    }
  }

  ghost predicate Reaches(s: State)
  {
    exists run :: ValidRun(s, run) && Deadlocked(Run(s, run))
  }

  /** One way there: say farewell, go and join the monitor, and let the dispatcher write it all. */
  lemma MonitorFirstReaches(s: State)
    requires Running(s) && s.order.MonitorFirst? && s.dispatcher.Head? && s.incoming == [] && s.outbound == []
    ensures Reaches(s)
  {
    hide Reaches, Deadlocked;
    var s1 := Step(s, MainStep);
    var s2 := Step(s1, MainStep);
    var s3 := Step(s2, MainStep);
    var s4 := Step(s3, Read([], false));
    assert s4.outbound == FAREWELL && s4.incoming == [];
    var s5 := Step(s4, Write(true));
    var s6 := Step(s5, Write(true));
    var s7 := Step(s6, Write(true));
    IsDeadlocked(s7);
    ReachesBefore(s6, Write(true));
    ReachesBefore(s5, Write(true));
    ReachesBefore(s4, Write(true));
    ReachesBefore(s3, Read([], false));
    ReachesBefore(s2, MainStep);
    ReachesBefore(s1, MainStep);
    ReachesBefore(s, MainStep);
  }

  lemma IsDeadlocked(s: State)
    requires s.order.MonitorFirst? && s.main.JoinMonitor? && s.monitor.Waiting? && s.incoming == []
    requires s.dispatcher.Outbound? && !s.stop && s.outbound == []
    ensures Reaches(s)
  {
    assert ValidRun(s, []) && Deadlocked(Run(s, []));
  }

  lemma ReachesBefore(s: State, a: Action)
    requires Enabled(s, a) && Reaches(Step(s, a))
    ensures Reaches(s)
  {
    var run :| ValidRun(Step(s, a), run) && Deadlocked(Run(Step(s, a), run));
    assert ([a] + run)[1..] == run;
    assert ValidRun(s, [a] + run) && Deadlocked(Run(s, [a] + run));
  }
}
