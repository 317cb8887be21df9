/** The dispatcher: the one thread that owns the connection. It drains frames out of its buffer,
    answers heartbeats itself, forwards every other message, and writes what callers enqueue. */
module Dispatcher {
  import opened Words
  import opened CastMessages
  import opened Framing

  function Ascii(s: string): Text
    requires |s| < 256
  {
    seq(|s|, i requires 0 <= i < |s| => s[i] as int % 256)
  }

  const NS_HEARTBEAT: Text := Ascii("urn:x-cast:com.google.cast.tp.heartbeat")
  const PLATFORM_RECEIVER_ID: Text := Ascii("receiver-0")
  const PING: Text := Ascii("{\"type\":\"PING\"}")
  const PONG: Text := Ascii("{\"type\":\"PONG\"}")

  /** This sender's identity, the conversion of received bytes to strings, and the JSON test
      `payload_type_is(_, "PING")`. */
  datatype Env = Env(localId: Text, lossy: seq<u8> -> Text, isPing: Text -> bool)

  function Pong(env: Env, peer: Text): CastMessage
  {
    CastMessage(env.localId, peer, NS_HEARTBEAT, PONG)
  }

  function Ping(env: Env): CastMessage
  {
    CastMessage(env.localId, PLATFORM_RECEIVER_ID, NS_HEARTBEAT, PING)
  }

  /** What one received body leads to. */
  function Forwards(env: Env, body: seq<u8>): seq<CastMessage>
  {
    match Decode(env.lossy, body)
    case Some(m) => if m.namespace == NS_HEARTBEAT then [] else [m]
    case None => []
  }

  function Answers(env: Env, body: seq<u8>): seq<CastMessage>
  {
    match Decode(env.lossy, body)
    case Some(m) =>
      if m.namespace == NS_HEARTBEAT && env.isPing(m.payload) then [Pong(env, m.source)] else []
    case None => []
  }

  function AllForwards(env: Env, bodies: seq<seq<u8>>): seq<CastMessage>
  {
    if bodies == [] then []
    else AllForwards(env, bodies[..|bodies| - 1]) + Forwards(env, bodies[|bodies| - 1])
  }

  function AllAnswers(env: Env, bodies: seq<seq<u8>>): seq<CastMessage>
  {
    if bodies == [] then []
    else AllAnswers(env, bodies[..|bodies| - 1]) + Answers(env, bodies[|bodies| - 1])
  }

  lemma AllSnoc(env: Env, bodies: seq<seq<u8>>, body: seq<u8>)
    ensures AllForwards(env, bodies + [body]) == AllForwards(env, bodies) + Forwards(env, body)
    ensures AllAnswers(env, bodies + [body]) == AllAnswers(env, bodies) + Answers(env, body)
  {
    hide Forwards, Answers;
    assert (bodies + [body])[..|bodies|] == bodies;
  }

  // ---- End to end ----

  function EncodeAll(ms: seq<CastMessage>): (bodies: seq<seq<u8>>)
    ensures |bodies| == |ms|
  {
    if ms == [] then [] else EncodeAll(ms[..|ms| - 1]) + [Encode(ms[|ms| - 1])]
  }

  function NotHeartbeats(ms: seq<CastMessage>): seq<CastMessage>
  {
    if ms == [] then []
    else NotHeartbeats(ms[..|ms| - 1])
         + if ms[|ms| - 1].namespace == NS_HEARTBEAT then [] else [ms[|ms| - 1]]
  }

  function PongsFor(env: Env, ms: seq<CastMessage>): seq<CastMessage>
  {
    if ms == [] then []
    else PongsFor(env, ms[..|ms| - 1])
         + if ms[|ms| - 1].namespace == NS_HEARTBEAT && env.isPing(ms[|ms| - 1].payload)
           then [Pong(env, ms[|ms| - 1].source)] else []
  }

  function PingsOf(env: Env, ms: seq<CastMessage>): seq<CastMessage>
  {
    if ms == [] then []
    else PingsOf(env, ms[..|ms| - 1])
         + if ms[|ms| - 1].namespace == NS_HEARTBEAT && env.isPing(ms[|ms| - 1].payload)
           then [ms[|ms| - 1]] else []
  }

  /** One PONG for each PING, in order: from us, to where the PING came from, on the same namespace. */
  ghost predicate AnswersEach(env: Env, answers: seq<CastMessage>, pings: seq<CastMessage>)
  {
    && |answers| == |pings|
    && forall i :: 0 <= i < |pings| ==>
         && answers[i].source == env.localId && answers[i].destination == pings[i].source
         && answers[i].namespace == pings[i].namespace && answers[i].payload == PONG
  }

  lemma {:induction false} PongsAnswer(env: Env, ms: seq<CastMessage>)
    ensures AnswersEach(env, PongsFor(env, ms), PingsOf(env, ms))
  {
    if ms != [] { PongsAnswer(env, ms[..|ms| - 1]); }
  }

  /** On any wire: what is forwarded and answered is that of the bodies that decode. */
  lemma {:induction false} HandlesDecoded(env: Env, bodies: seq<seq<u8>>)
    ensures var ms := DecodeAll(env.lossy, bodies);
      && AllForwards(env, bodies) == NotHeartbeats(ms)
      && AllAnswers(env, bodies) == PongsFor(env, ms)
      && AnswersEach(env, AllAnswers(env, bodies), PingsOf(env, ms))
  {
    PongsAnswer(env, DecodeAll(env.lossy, bodies));
    hide AnswersEach, PingsOf;
    if bodies != [] {
      var n := |bodies| - 1;
      HandlesDecoded(env, bodies[..n]);
      HandlesOne(env, DecodeAll(env.lossy, bodies[..n]), bodies[n]);
    }
  }

  lemma HandlesOne(env: Env, before: seq<CastMessage>, body: seq<u8>)
    ensures var ms := before + match Decode(env.lossy, body) case None => [] case Some(m) => [m];
      && NotHeartbeats(ms) == NotHeartbeats(before) + Forwards(env, body)
      && PongsFor(env, ms) == PongsFor(env, before) + Answers(env, body)
  {
    hide Decode;
    match Decode(env.lossy, body) {
      case None => assert before + [] == before;
      case Some(m) => assert (before + [m])[..|before|] == before;
    }
  }

  /** Two dispatchers that face each other: our PING, addressed to the platform receiver, is answered
      there by one PONG to us, which is neither answered nor forwarded. */
  lemma HeartbeatExchange(env: Env, peer: Env)
    requires peer.localId == PLATFORM_RECEIVER_ID && peer.isPing(PING) && !env.isPing(PONG)
    requires Clean(peer.lossy, Ping(env)) && Clean(env.lossy, Pong(peer, env.localId))
    ensures Ping(env).source == env.localId && Ping(env).destination == peer.localId
    ensures var answers := Answers(peer, Encode(Ping(env)));
      && |answers| == 1 && Forwards(peer, Encode(Ping(env))) == []
      && answers[0].source == peer.localId && answers[0].destination == env.localId
      && answers[0].payload == Ascii("{\"type\":\"PONG\"}")
      && Answers(env, Encode(answers[0])) == [] && Forwards(env, Encode(answers[0])) == []
  {
    CodecRoundTrip(peer.lossy, Ping(env));
    CodecRoundTrip(env.lossy, Pong(peer, env.localId));
    hide Encode, Decode, Clean;
  }

  lemma {:induction false} HandlesEncoded(env: Env, ms: seq<CastMessage>)
    requires forall m :: m in ms ==> Clean(env.lossy, m)
    ensures AllForwards(env, EncodeAll(ms)) == NotHeartbeats(ms)
    ensures AllAnswers(env, EncodeAll(ms)) == PongsFor(env, ms)
  {
    if ms != [] {
      hide Encode, Decode;
      var before, m := ms[..|ms| - 1], ms[|ms| - 1];
      HandlesEncoded(env, before);
      CodecRoundTrip(env.lossy, m);
      hide AllForwards, AllAnswers;
      AllSnoc(env, EncodeAll(before), Encode(m));
    }
  }

  /** From the peer's messages to ours: however TCP splits the bytes of a list of framed messages,
      exactly the messages that are not heartbeats are forwarded, in order, each PING is answered
      once, to its source, and no byte is left over. */
  lemma EndToEnd(env: Env, ms: seq<CastMessage>, chunks: seq<seq<u8>>)
    requires forall m :: m in ms ==> Clean(env.lossy, m)
    requires Small(EncodeAll(ms)) && Flatten(chunks) == Wire(EncodeAll(ms))
    ensures var f := Feed([], chunks);
      && AllForwards(env, f.bodies) == NotHeartbeats(ms)
      && AllAnswers(env, f.bodies) == PongsFor(env, ms)
      && AnswersEach(env, AllAnswers(env, f.bodies), PingsOf(env, ms))
      && f.rest == [] && !f.failed && f.unread == []
  {
    ChunkingIndependent([], chunks);
    assert [] + Flatten(chunks) == Flatten(chunks);
    WireDrains(EncodeAll(ms));
    HandlesEncoded(env, ms);
    PongsAnswer(env, ms);
  }

  lemma {:induction false} AllForwardsAppend(env: Env, a: seq<seq<u8>>, b: seq<seq<u8>>)
    ensures AllForwards(env, a + b) == AllForwards(env, a) + AllForwards(env, b)
    ensures AllAnswers(env, a + b) == AllAnswers(env, a) + AllAnswers(env, b)
  {
    hide AllForwards, AllAnswers, Forwards, Answers;
    if b == [] {
      AllForwardsNone(env);
      assert a + b == a;
    } else {
      var n := |b| - 1;
      AllForwardsAppend(env, a, b[..n]);
      AllForwardsNext(env, a + b[..n], b[n]);
      AllForwardsNext(env, b[..n], b[n]);
      assert a + b == (a + b[..n]) + [b[n]] && b == b[..n] + [b[n]];
    }
  }

  lemma AllForwardsNone(env: Env)
    ensures AllForwards(env, []) == [] && AllAnswers(env, []) == []
  {
  }

  lemma AllForwardsNext(env: Env, bodies: seq<seq<u8>>, body: seq<u8>)
    ensures AllForwards(env, bodies + [body]) == AllForwards(env, bodies) + Forwards(env, body)
    ensures AllAnswers(env, bodies + [body]) == AllAnswers(env, bodies) + Answers(env, body)
  {
    hide Forwards, Answers;
    assert (bodies + [body])[..|bodies|] == bodies;
  }

  lemma {:induction false} FeedSnoc(acc: seq<u8>, chunks: seq<seq<u8>>, chunk: seq<u8>)
    requires !Feed(acc, chunks).failed
    ensures var (f, d) := (Feed(acc, chunks), Drain(Feed(acc, chunks).rest + chunk));
      Feed(acc, chunks + [chunk]) == Fed(f.bodies + d.bodies, d.rest, d.failed, [])
    decreases |chunks|
  {
    hide Take;
    if chunks == [] {
      assert [] + [chunk] == [chunk] && [chunk][1..] == [];
      var d := Drain(acc + chunk);
      assert d.bodies + [] == d.bodies && [] + d.bodies == d.bodies;
    } else {
      var first := Drain(acc + chunks[0]);
      FeedSnoc(first.rest, chunks[1..], chunk);
      assert (chunks + [chunk])[1..] == chunks[1..] + [chunk];
      var f := Feed(first.rest, chunks[1..]);
      var d := Drain(f.rest + chunk);
      assert first.bodies + (f.bodies + d.bodies) == (first.bodies + f.bodies) + d.bodies;
    }
  }

  // ---- What is written ----

  datatype Origin = Caller | Answer | Heartbeat

  /** One call of `write_message`: how many bytes of the frame went out, and whether it reported
      success. A flush can fail after all of them. */
  datatype Attempt = Attempt(origin: Origin, m: CastMessage, out: nat, ok: bool)
  {
    function Frame(): seq<u8> { Framed(Encode(m)) }

    predicate Whole() { out >= |Frame()| }

    /** Cut off in the middle. */
    predicate Torn() { 0 < out < |Frame()| }

    function Bytes(): (b: seq<u8>)
      ensures |b| <= out
    {
      if Whole() then Frame() else Frame()[..out]
    }
  }

  /** The bytes on the wire. */
  function Sent(ws: seq<Attempt>): seq<u8>
  {
    if ws == [] then [] else Sent(ws[..|ws| - 1]) + ws[|ws| - 1].Bytes()
  }

  /** The messages of which all bytes went out. */
  function WholeOf(ws: seq<Attempt>): seq<CastMessage>
  {
    if ws == [] then []
    else WholeOf(ws[..|ws| - 1]) + if ws[|ws| - 1].Whole() then [ws[|ws| - 1].m] else []
  }

  /** The bytes of the last write that put any out, if it was torn. */
  function Tail(ws: seq<Attempt>): seq<u8>
  {
    if ws == [] then []
    else if ws[|ws| - 1].out == 0 then Tail(ws[..|ws| - 1])
    else if ws[|ws| - 1].Whole() then []
    else ws[|ws| - 1].Bytes()
  }

  /** Nothing follows a torn write. */
  ghost predicate NothingAfterTorn(ws: seq<Attempt>)
  {
    forall i, j :: 0 <= i < j < |ws| ==> ws[i].Torn() ==> ws[j].out == 0
  }

  ghost predicate NoneTorn(ws: seq<Attempt>)
  {
    forall i :: 0 <= i < |ws| ==> !ws[i].Torn()
  }

  function TornBytes(ws: seq<Attempt>): nat
  {
    if ws == [] then 0
    else TornBytes(ws[..|ws| - 1]) + if ws[|ws| - 1].Torn() then ws[|ws| - 1].out else 0
  }

  lemma FrameNotEmpty(a: Attempt)
    ensures |a.Frame()| >= 4
  {
  }

  lemma {:induction false} NoneTornIff(ws: seq<Attempt>)
    ensures NoneTorn(ws) <==> TornBytes(ws) == 0
    ensures NoneTorn(ws) ==> Tail(ws) == []
  {
    hide Attempt.Frame, Attempt.Bytes;
    if ws != [] {
      var before := ws[..|ws| - 1];
      NoneTornIff(before);
      assert NoneTorn(ws) <==> NoneTorn(before) && !ws[|ws| - 1].Torn();
    }
  }

  /** The wire is as long as the whole frames and what was torn off others. */
  lemma {:induction false} WireLength(ws: seq<Attempt>)
    ensures |Sent(ws)| == |Wire(EncodeAll(WholeOf(ws)))| + TornBytes(ws)
  {
    if ws != [] {
      var before, last := ws[..|ws| - 1], ws[|ws| - 1];
      hide Attempt.Frame, Encode, Framed, Wire, EncodeAll, WholeOf;
      WireLength(before);
      FrameNotEmpty(last);
      WholeNext(before, last);
      assert ws == before + [last];
    }
  }

  lemma WholeNext(before: seq<Attempt>, last: Attempt)
    ensures var ws := before + [last];
      Wire(EncodeAll(WholeOf(ws))) == Wire(EncodeAll(WholeOf(before))) + if last.Whole() then last.Frame() else []
  {
    hide Encode, Framed;
    var ws := before + [last];
    assert ws[..|before|] == before;
    if last.Whole() {
      var ms := WholeOf(before);
      assert (ms + [last.m])[..|ms|] == ms;
      WireAppend(EncodeAll(ms), Encode(last.m));
    } else {
      assert WholeOf(before) + [] == WholeOf(before);
    }
  }

  lemma {:induction false} TailLength(ws: seq<Attempt>)
    ensures |Tail(ws)| <= TornBytes(ws)
    ensures |Tail(ws)| == TornBytes(ws) <==> NothingAfterTorn(ws)
  {
    hide Attempt.Frame;
    if ws != [] {
      var before, last := ws[..|ws| - 1], ws[|ws| - 1];
      TailLength(before);
      NoneTornIff(before);
      assert NothingAfterTorn(ws) <==> NothingAfterTorn(before) && (last.out == 0 || NoneTorn(before)) by {
        if NothingAfterTorn(ws) { assert forall i :: 0 <= i < |before| ==> ws[i] == before[i]; }
      }
    }
  }

  lemma SentNext(ws: seq<Attempt>, w: Attempt)
    ensures Sent(ws + [w]) == Sent(ws) + w.Bytes()
  {
    hide Attempt.Bytes;
    assert (ws + [w])[..|ws|] == ws;
  }

  lemma TailNext(ws: seq<Attempt>, w: Attempt)
    ensures Tail(ws + [w]) == if w.out == 0 then Tail(ws) else if w.Whole() then [] else w.Bytes()
  {
    hide Attempt.Bytes, Attempt.Whole;
    assert (ws + [w])[..|ws|] == ws;
  }

  lemma BytesAre(w: Attempt, frame: seq<u8>, count: nat)
    requires frame == w.Frame() && count == w.out <= |frame|
    ensures frame[..count] == w.Bytes()
  {
    hide Attempt.Frame;
    assert frame[..|frame|] == frame;
  }

  lemma OneWrite(w: Attempt)
    ensures w.out == 0 ==> w.Bytes() == [] && !w.Whole()
    ensures w.Whole() ==> w.Bytes() == w.Frame() && w.out > 0
    ensures w.out > 0 && !w.Whole() ==> w.Torn()
  {
    FrameNotEmpty(w);
  }

  lemma NothingAfterTornBefore(ws: seq<Attempt>, w: Attempt)
    requires NothingAfterTorn(ws + [w])
    ensures NothingAfterTorn(ws) && (w.out > 0 ==> NoneTorn(ws))
  {
    hide Attempt.Torn;
    var all := ws + [w];
    assert forall i :: 0 <= i < |ws| ==> all[i] == ws[i];
    assert all[|ws|] == w;
  }

  lemma {:induction false} CleanWire(ws: seq<Attempt>)
    requires NothingAfterTorn(ws)
    ensures Sent(ws) == Wire(EncodeAll(WholeOf(ws))) + Tail(ws)
  {
    if ws != [] {
      var before, last := ws[..|ws| - 1], ws[|ws| - 1];
      assert ws == before + [last];
      hide Attempt.Frame, Attempt.Bytes, Attempt.Whole, Attempt.Torn;
      hide Sent, Tail, WholeOf, EncodeAll, Wire, NothingAfterTorn, NoneTorn;
      OneWrite(last);
      NothingAfterTornBefore(before, last);
      CleanWire(before);
      SentNext(before, last);
      TailNext(before, last);
      WholeNext(before, last);
      NoneTornIff(before);
      OneMore(Sent(before), Wire(EncodeAll(WholeOf(before))), Tail(before), last.Bytes(), last.out > 0, last.Whole());
    }
  }

  /** Whole frames and a tail, and one more write: after a tail it puts nothing out. */
  lemma OneMore(sent: seq<u8>, wire: seq<u8>, tail: seq<u8>, bytes: seq<u8>, some: bool, whole: bool)
    requires sent == wire + tail && (if some then tail == [] else bytes == [] && !whole)
    ensures sent + bytes
      == (wire + if whole then bytes else []) + if !some then tail else if whole then [] else bytes
  {
    assert wire + [] == wire && (wire + bytes) + [] == wire + bytes;
  }

  /** When the wire carries the framing: it is the whole frames in order and at most one torn tail
      if and only if nothing went out after a torn write. */
  lemma WireTornIff(ws: seq<Attempt>)
    ensures Sent(ws) == Wire(EncodeAll(WholeOf(ws))) + Tail(ws) <==> NothingAfterTorn(ws)
  {
    WireLength(ws);
    TailLength(ws);
    if NothingAfterTorn(ws) { CleanWire(ws); }
  }

  /** Every message tried fits the limit. */
  ghost predicate Within(ws: seq<Attempt>)
  {
    forall i :: 0 <= i < |ws| ==> |Encode(ws[i].m)| <= MAX_BODY_SIZE
  }

  /** No more than its prefix has arrived of a frame. */
  lemma {:induction false} TailWaits(ws: seq<Attempt>)
    requires Within(ws)
    ensures Drain(Tail(ws)) == Drained([], Tail(ws), false)
  {
    if ws != [] {
      var last := ws[|ws| - 1];
      if last.out == 0 { TailWaits(ws[..|ws| - 1]); }
      else if last.Torn() { PrefixWaits(Encode(last.m), last.out); }
    }
  }

  lemma PrefixWaits(body: seq<u8>, n: nat)
    requires |body| <= MAX_BODY_SIZE && n < |Framed(body)|
    ensures Drain(Framed(body)[..n]) == Drained([], Framed(body)[..n], false)
  {
    hide BE32, ToBE32;
    if n >= 4 { assert Framed(body)[..n][..4] == ToBE32(|body|); }
  }

  lemma {:induction false} SmallWhole(ws: seq<Attempt>)
    requires Within(ws)
    ensures Small(EncodeAll(WholeOf(ws)))
  {
    hide Encode, Attempt.Whole;
    if ws != [] {
      var ms, last := WholeOf(ws[..|ws| - 1]), ws[|ws| - 1].m;
      SmallWhole(ws[..|ws| - 1]);
      SmallNext(ms, last);
      assert ms + [] == ms;
    }
  }

  lemma SmallNext(ms: seq<CastMessage>, m: CastMessage)
    requires Small(EncodeAll(ms)) && |Encode(m)| <= MAX_BODY_SIZE
    ensures Small(EncodeAll(ms + [m]))
  {
    hide Encode;
    assert (ms + [m])[..|ms|] == ms;
  }

  /** What the peer makes of our wire: if nothing went out after a torn write and all bodies are
      within the limit, it takes off and decodes exactly the messages written whole, in order, and
      waits on the torn tail. */
  lemma PeerReads(lossy: seq<u8> -> Text, ws: seq<Attempt>)
    requires NothingAfterTorn(ws) && Within(ws)
    requires forall w :: w in ws ==> Clean(lossy, w.m)
    ensures Drain(Sent(ws)) == Drained(EncodeAll(WholeOf(ws)), Tail(ws), false)
    ensures DecodeAll(lossy, Drain(Sent(ws)).bodies) == WholeOf(ws)
  {
    hide Encode, Decode, Attempt.Frame;
    var bodies := EncodeAll(WholeOf(ws));
    CleanWire(ws);
    SmallWhole(ws);
    WireDrains(bodies);
    TailWaits(ws);
    DrainAppend(Wire(bodies), Tail(ws));
    assert [] + Tail(ws) == Tail(ws) && bodies + [] == bodies;
    WholeClean(lossy, ws);
    DecodesAll(lossy, WholeOf(ws));
  }

  /** The messages that a list of bodies decodes to; bodies that do not decode are dropped. */
  function DecodeAll(lossy: seq<u8> -> Text, bodies: seq<seq<u8>>): seq<CastMessage>
  {
    if bodies == [] then []
    else DecodeAll(lossy, bodies[..|bodies| - 1])
         + match Decode(lossy, bodies[|bodies| - 1]) case None => [] case Some(m) => [m]
  }

  lemma {:induction false} DecodesAll(lossy: seq<u8> -> Text, ms: seq<CastMessage>)
    requires forall m :: m in ms ==> Clean(lossy, m)
    ensures DecodeAll(lossy, EncodeAll(ms)) == ms
  {
    hide Encode, Decode, Clean, DecodeAll;
    if ms != [] {
      var before, m := ms[..|ms| - 1], ms[|ms| - 1];
      assert forall k :: k in before ==> k in ms;
      DecodesAll(lossy, before);
      CodecRoundTrip(lossy, m);
      DecodeNext(lossy, EncodeAll(before), Encode(m));
      assert ms == before + [m];
    } else {
      DecodesNone(lossy);
    }
  }

  lemma DecodesNone(lossy: seq<u8> -> Text)
    ensures DecodeAll(lossy, []) == []
  {
  }

  lemma DecodeNext(lossy: seq<u8> -> Text, bodies: seq<seq<u8>>, body: seq<u8>)
    ensures DecodeAll(lossy, bodies + [body])
      == DecodeAll(lossy, bodies) + match Decode(lossy, body) case None => [] case Some(m) => [m]
  {
    hide Decode;
    assert (bodies + [body])[..|bodies|] == bodies;
  }

  lemma {:induction false} WholeClean(lossy: seq<u8> -> Text, ws: seq<Attempt>)
    requires forall w :: w in ws ==> Clean(lossy, w.m)
    ensures forall m :: m in WholeOf(ws) ==> Clean(lossy, m)
  {
    hide Clean, Attempt.Frame;
    if ws != [] { WholeClean(lossy, ws[..|ws| - 1]); }
  }

  /** The messages of one origin, in the order tried. */
  function Of(ws: seq<Attempt>, origin: Origin): seq<CastMessage>
  {
    if ws == [] then []
    else Of(ws[..|ws| - 1], origin)
         + if ws[|ws| - 1].origin == origin then [ws[|ws| - 1].m] else []
  }

  lemma OfSnoc(ws: seq<Attempt>, w: Attempt, origin: Origin)
    ensures Of(ws + [w], origin) == Of(ws, origin) + if w.origin == origin then [w.m] else []
  {
    assert (ws + [w])[..|ws|] == ws;
  }

  /** The write of an enqueued message failed. */
  predicate FailedCaller(ws: seq<Attempt>)
  {
    exists i :: 0 <= i < |ws| && ws[i].origin == Caller && !ws[i].ok
  }

  lemma FailedSnoc(ws: seq<Attempt>, w: Attempt)
    ensures FailedCaller(ws + [w]) <==> FailedCaller(ws) || (w.origin == Caller && !w.ok)
  {
    var all := ws + [w];
    if FailedCaller(ws) {
      var i :| 0 <= i < |ws| && ws[i].origin == Caller && !ws[i].ok;
      assert all[i] == ws[i];
    }
    assert all[|ws|] == w;
  }

  // ---- The loop, as functions of its state ----

  datatype Incoming = Data(bytes: seq<u8>) | Nothing | Closed

  /** What one turn of the session loop meets: messages enqueued and a stop requested before it, the
      outcome of its read, whether every `CastChannel` handle is gone, whether a PING is due and
      whether the peer has been silent too long. */
  datatype Turn = Turn(enqueued: seq<CastMessage>, stop: bool, read: Incoming, disconnected: bool,
                       pingDue: bool, silent: bool)

  /** The dispatcher's variables. `failures` are the outcomes of the writes to come, each nothing or
      the number of bytes that go out before an error; `attempts` are the writes tried. */
  datatype State = State(
    acc: seq<u8>,
    outbound: seq<CastMessage>,
    incoming: seq<CastMessage>,
    stop: bool,
    failures: seq<Option<nat>>,
    attempts: seq<Attempt>)

  function Fresh(failures: seq<Option<nat>>): State
  {
    State([], [], [], false, failures, [])
  }

  function Tried(s: State, origin: Origin, m: CastMessage): Attempt
  {
    if s.failures == [] || s.failures[0].None? then Attempt(origin, m, |Framed(Encode(m))|, true)
    else if s.failures[0].value <= |Framed(Encode(m))| then Attempt(origin, m, s.failures[0].value, false)
    else Attempt(origin, m, |Framed(Encode(m))|, false)
  }

  function Write(s: State, origin: Origin, m: CastMessage): State
  {
    s.(failures := if s.failures == [] then [] else s.failures[1..],
       attempts := s.attempts + [Tried(s, origin, m)])
  }

  function Handle(env: Env, s: State, body: seq<u8>): State
  {
    match Decode(env.lossy, body)
    case None => s
    case Some(m) =>
      if m.namespace != NS_HEARTBEAT then s.(incoming := s.incoming + [m])
      else if env.isPing(m.payload) then Write(s, Answer, Pong(env, m.source))
      else s
  }

  function HandleAll(env: Env, s: State, bodies: seq<seq<u8>>): State
  {
    if bodies == [] then s
    else Handle(env, HandleAll(env, s, bodies[..|bodies| - 1]), bodies[|bodies| - 1])
  }

  function Receive(env: Env, s: State, bytes: seq<u8>): State
  {
    var d := Drain(s.acc + bytes);
    HandleAll(env, s, d.bodies).(acc := d.rest)
  }

  function DrainOutbound(s: State, disconnected: bool): State
    decreases |s.outbound|
  {
    if s.outbound == [] then s.(stop := s.stop || disconnected) else
      var t := Write(s.(outbound := s.outbound[1..]), Caller, s.outbound[0]);
      if t.attempts[|s.attempts|].ok then DrainOutbound(t, disconnected) else t.(stop := true)
  }

  /** The drain after the loop, before the connection closes. */
  function Flush(s: State): State
    decreases |s.outbound|
  {
    if s.outbound == [] then s else
      var t := Write(s.(outbound := s.outbound[1..]), Caller, s.outbound[0]);
      if t.attempts[|s.attempts|].ok then Flush(t) else t
  }

  /** What a turn leaves: the state, whether the session is over, and whether the turn got as far
      as its read and as its writes. */
  datatype TurnEnd = TurnEnd(s: State, ended: bool, readMade: bool, wrote: bool)

  function Enqueue(s: State, turn: Turn): State
  {
    s.(outbound := s.outbound + turn.enqueued, stop := s.stop || turn.stop)
  }

  function TakeTurn(env: Env, s0: State, turn: Turn): TurnEnd
  {
    var s := Enqueue(s0, turn);
    if s.stop then TurnEnd(s, true, false, false)
    else match turn.read
      case Closed => TurnEnd(s, true, true, false)
      case Nothing => TurnEnd(WriteOut(env, s, turn), turn.silent, true, true)
      case Data(bytes) =>
        if bytes == [] then TurnEnd(s, true, true, false) else
          var t := Receive(env, s, bytes);
          if Drain(s.acc + bytes).failed then TurnEnd(t, true, true, false)
          else TurnEnd(WriteOut(env, t, turn), turn.silent, true, true)
  }

  function WriteOut(env: Env, s: State, turn: Turn): State
  {
    var t := DrainOutbound(s, turn.disconnected);
    if turn.pingDue then Write(t, Heartbeat, Ping(env)) else t
  }

  /** A session: how many turns were taken, how many of them made their read and how many wrote. */
  datatype Session = Session(s: State, ended: bool, taken: nat, heard: nat, wrote: nat)

  /** The loop over some turns; it is left at the first that ends it. */
  function Loop(env: Env, failures: seq<Option<nat>>, turns: seq<Turn>): (r: Session)
    ensures r.taken <= |turns| && r.heard <= r.taken <= r.heard + 1 && r.wrote <= r.taken <= r.wrote + 1
    ensures !r.ended ==> r.taken == r.heard == r.wrote == |turns|
  {
    if turns == [] then Session(Fresh(failures), false, 0, 0, 0) else
      var r := Loop(env, failures, turns[..|turns| - 1]);
      if r.ended then r else
        var t := TakeTurn(env, r.s, turns[|turns| - 1]);
        Session(t.s, t.ended, |turns|, if t.readMade then |turns| else |turns| - 1,
                if t.wrote then |turns| else |turns| - 1)
  }

  function Run(env: Env, failures: seq<Option<nat>>, turns: seq<Turn>): (r: Session)
    ensures r.taken <= |turns| && r.heard <= r.taken && r.wrote <= r.taken
  {
    var r := Loop(env, failures, turns);
    if r.ended then r.(s := Flush(r.s)) else r
  }

  // ---- What each part does ----

  lemma WriteMeaning(s: State, origin: Origin, m: CastMessage)
    ensures var t := Write(s, origin, m);
      && (forall o: Origin :: Of(t.attempts, o) == Of(s.attempts, o) + if o == origin then [m] else [])
      && (FailedCaller(t.attempts) <==>
            FailedCaller(s.attempts) || (origin == Caller && !t.attempts[|s.attempts|].ok))
  {
    var w := Tried(s, origin, m);
    assert w.m == m && w.origin == origin;
    hide Tried;
    FailedSnoc(s.attempts, w);
    forall o: Origin { OfSnoc(s.attempts, w, o); }
  }

  lemma {:induction false} HandleMeaning(env: Env, s: State, bodies: seq<seq<u8>>)
    ensures var t := HandleAll(env, s, bodies);
      && t == s.(incoming := s.incoming + AllForwards(env, bodies), failures := t.failures, attempts := t.attempts)
      && Of(t.attempts, Answer) == Of(s.attempts, Answer) + AllAnswers(env, bodies)
      && Of(t.attempts, Caller) == Of(s.attempts, Caller)
      && Of(t.attempts, Heartbeat) == Of(s.attempts, Heartbeat)
      && (FailedCaller(t.attempts) <==> FailedCaller(s.attempts))
  {
    hide Decode, FailedCaller, Of, Write;
    if bodies == [] {
      assert s.incoming + [] == s.incoming && Of(s.attempts, Answer) + [] == Of(s.attempts, Answer);
    } else {
      var before, body := bodies[..|bodies| - 1], bodies[|bodies| - 1];
      HandleMeaning(env, s, before);
      HandleOne(env, HandleAll(env, s, before), body);
    }
  }

  lemma HandleOne(env: Env, s: State, body: seq<u8>)
    ensures var t := Handle(env, s, body);
      && t == s.(incoming := s.incoming + Forwards(env, body), failures := t.failures, attempts := t.attempts)
      && Of(t.attempts, Answer) == Of(s.attempts, Answer) + Answers(env, body)
      && Of(t.attempts, Caller) == Of(s.attempts, Caller)
      && Of(t.attempts, Heartbeat) == Of(s.attempts, Heartbeat)
      && (FailedCaller(t.attempts) <==> FailedCaller(s.attempts))
  {
    hide Decode, FailedCaller, Of;
    assert s.incoming + [] == s.incoming && Of(s.attempts, Answer) + [] == Of(s.attempts, Answer);
    assert Of(s.attempts, Caller) + [] == Of(s.attempts, Caller);
    assert Of(s.attempts, Heartbeat) + [] == Of(s.attempts, Heartbeat);
    if Decode(env.lossy, body).Some? {
      WriteMeaning(s, Answer, Pong(env, Decode(env.lossy, body).value.source));
    }
  }

  /** Trying the first enqueued message. */
  lemma CallerStep(s: State)
    requires s.outbound != []
    ensures var t := Write(s.(outbound := s.outbound[1..]), Caller, s.outbound[0]);
      && t == s.(outbound := t.outbound, failures := t.failures, attempts := t.attempts)
      && |t.outbound| < |s.outbound| && |t.attempts| == |s.attempts| + 1
      && Of(t.attempts, Caller) + t.outbound == Of(s.attempts, Caller) + s.outbound
      && Of(t.attempts, Answer) == Of(s.attempts, Answer)
      && Of(t.attempts, Heartbeat) == Of(s.attempts, Heartbeat)
      && (FailedCaller(t.attempts) <==> FailedCaller(s.attempts) || !t.attempts[|s.attempts|].ok)
  {
    hide FailedCaller, Of, Tried;
    var m, rest := s.outbound[0], s.(outbound := s.outbound[1..]);
    WriteMeaning(rest, Caller, m);
    assert s.outbound == [m] + rest.outbound;
    assert Of(s.attempts, Caller) + ([m] + rest.outbound) == (Of(s.attempts, Caller) + [m]) + rest.outbound;
    assert Of(s.attempts, Answer) + [] == Of(s.attempts, Answer);
    assert Of(s.attempts, Heartbeat) + [] == Of(s.attempts, Heartbeat);
  }

  lemma {:induction false} OutboundMeaning(s: State, disconnected: bool)
    requires !FailedCaller(s.attempts)
    ensures var t := DrainOutbound(s, disconnected);
      && t == s.(outbound := t.outbound, stop := t.stop, failures := t.failures, attempts := t.attempts)
      && Of(t.attempts, Caller) + t.outbound == Of(s.attempts, Caller) + s.outbound
      && Of(t.attempts, Answer) == Of(s.attempts, Answer)
      && Of(t.attempts, Heartbeat) == Of(s.attempts, Heartbeat)
      && (t.stop <==> s.stop || disconnected || FailedCaller(t.attempts))
      && (!FailedCaller(t.attempts) ==> t.outbound == [])
    decreases |s.outbound|
  {
    hide FailedCaller, Of, Write;
    if s.outbound != [] {
      CallerStep(s);
      var t := Write(s.(outbound := s.outbound[1..]), Caller, s.outbound[0]);
      if t.attempts[|s.attempts|].ok { OutboundMeaning(t, disconnected); }
    }
  }

  /** After the loop every enqueued message is tried, up to the first whose write fails. */
  lemma {:induction false} FlushMeaning(s: State)
    ensures var t := Flush(s);
      && t == s.(outbound := t.outbound, failures := t.failures, attempts := t.attempts)
      && Of(t.attempts, Caller) + t.outbound == Of(s.attempts, Caller) + s.outbound
      && Of(t.attempts, Answer) == Of(s.attempts, Answer)
      && Of(t.attempts, Heartbeat) == Of(s.attempts, Heartbeat)
    decreases |s.outbound|
  {
    hide FailedCaller, Of, Write;
    if s.outbound != [] {
      CallerStep(s);
      var t := Write(s.(outbound := s.outbound[1..]), Caller, s.outbound[0]);
      if t.attempts[|s.attempts|].ok { FlushMeaning(t); }
    }
  }

  /** Only its last write can fail, and it stops short of the end only if that did. */
  lemma {:induction false} FlushStops(s: State)
    ensures var t := Flush(s);
      && s.attempts <= t.attempts
      && (forall i :: |s.attempts| <= i < |t.attempts| - 1 ==> t.attempts[i].ok)
      && (t.outbound != [] ==> |t.attempts| > |s.attempts| && !t.attempts[|t.attempts| - 1].ok)
    decreases |s.outbound|
  {
    hide Tried;
    if s.outbound != [] {
      var t := Write(s.(outbound := s.outbound[1..]), Caller, s.outbound[0]);
      if t.attempts[|s.attempts|].ok { FlushStops(t); }
    }
  }

  // ---- Whole sessions ----

  function Enqueued(turns: seq<Turn>): seq<CastMessage>
  {
    if turns == [] then [] else Enqueued(turns[..|turns| - 1]) + turns[|turns| - 1].enqueued
  }

  /** The nonempty reads of some turns. */
  function Reads(turns: seq<Turn>): seq<seq<u8>>
  {
    if turns == [] then []
    else Reads(turns[..|turns| - 1]) + ReadOf(turns[|turns| - 1])
  }

  function ReadOf(turn: Turn): seq<seq<u8>>
  {
    if turn.read.Data? && turn.read.bytes != [] then [turn.read.bytes] else []
  }

  function PingsDue(env: Env, turns: seq<Turn>): seq<CastMessage>
  {
    if turns == [] then []
    else PingsDue(env, turns[..|turns| - 1]) + if turns[|turns| - 1].pingDue then [Ping(env)] else []
  }

  lemma TurnsSnoc(env: Env, turns: seq<Turn>, i: nat)
    requires i < |turns|
    ensures Enqueued(turns[..i + 1]) == Enqueued(turns[..i]) + turns[i].enqueued
    ensures Reads(turns[..i + 1]) == Reads(turns[..i]) + ReadOf(turns[i])
    ensures PingsDue(env, turns[..i + 1]) == PingsDue(env, turns[..i]) + if turns[i].pingDue then [Ping(env)] else []
  {
    assert turns[..i + 1][..i] == turns[..i];
  }

  /** Everything forwarded and answered follows from the reads made. */
  ghost predicate ReadSide(env: Env, s: State, chunks: seq<seq<u8>>)
  {
    var f := Feed([], chunks);
    && s.acc == f.rest
    && s.incoming == AllForwards(env, f.bodies)
    && Of(s.attempts, Answer) == AllAnswers(env, f.bodies)
  }

  lemma ReceiveMeaning(env: Env, s: State, chunks: seq<seq<u8>>, bytes: seq<u8>)
    requires ReadSide(env, s, chunks) && !Feed([], chunks).failed
    ensures ReadSide(env, Receive(env, s, bytes), chunks + [bytes])
    ensures Feed([], chunks + [bytes]).failed == Drain(s.acc + bytes).failed
    ensures var t := Receive(env, s, bytes);
      && t == s.(acc := t.acc, incoming := t.incoming, failures := t.failures, attempts := t.attempts)
      && Of(t.attempts, Caller) == Of(s.attempts, Caller) && Of(t.attempts, Heartbeat) == Of(s.attempts, Heartbeat)
      && (FailedCaller(t.attempts) <==> FailedCaller(s.attempts))
  {
    hide Feed, Drain, AllForwards, AllAnswers, HandleAll, FailedCaller, Of;
    FeedSnoc([], chunks, bytes);
    var bodies := Drain(s.acc + bytes).bodies;
    HandleMeaning(env, s, bodies);
    AllForwardsAppend(env, Feed([], chunks).bodies, bodies);
  }

  lemma WriteOutMeaning(env: Env, s: State, turn: Turn)
    requires !FailedCaller(s.attempts)
    ensures var t := WriteOut(env, s, turn);
      && t == s.(outbound := t.outbound, stop := t.stop, failures := t.failures, attempts := t.attempts)
      && Of(t.attempts, Caller) + t.outbound == Of(s.attempts, Caller) + s.outbound
      && Of(t.attempts, Answer) == Of(s.attempts, Answer)
      && Of(t.attempts, Heartbeat) == Of(s.attempts, Heartbeat) + (if turn.pingDue then [Ping(env)] else [])
      && (t.stop <==> s.stop || turn.disconnected || FailedCaller(t.attempts))
      && (!FailedCaller(t.attempts) ==> t.outbound == [])
  {
    hide FailedCaller, Of, DrainOutbound, Tried;
    OutboundMeaning(s, turn.disconnected);
    var t := DrainOutbound(s, turn.disconnected);
    assert Of(s.attempts, Heartbeat) + [] == Of(s.attempts, Heartbeat);
    if turn.pingDue {
      WriteMeaning(t, Heartbeat, Ping(env));
      assert Of(t.attempts, Caller) + [] == Of(t.attempts, Caller);
      assert Of(t.attempts, Answer) + [] == Of(t.attempts, Answer);
    }
  }

  /** The end of the stream, told either way. */
  predicate NoMore(read: Incoming) { read == Closed || read == Data([]) }

  /** A turn that ends the session whatever was received before. */
  predicate Quits(turn: Turn)
  {
    NoMore(turn.read) || turn.silent
  }

  /** One turn from a state in which no enqueued message has failed to be written: what it reads,
      what it writes, and exactly when it gets to write and when the session is over. If it wrote, the
      stop flag is up exactly if every caller is gone or the write of an enqueued message failed; a PING or PONG
      that fails to be written does not matter. */
  lemma TurnMeaning(env: Env, s: State, turn: Turn, chunks: seq<seq<u8>>)
    requires ReadSide(env, s, chunks) && !Feed([], chunks).failed && (FailedCaller(s.attempts) ==> s.stop)
    ensures var t := TakeTurn(env, s, turn);
      var now := chunks + if t.readMade then ReadOf(turn) else [];
      && (t.readMade <==> !s.stop && !turn.stop)
      && ReadSide(env, t.s, now)
      && (t.ended <==> !t.readMade || Quits(turn) || Feed([], now).failed)
      && (t.wrote <==> t.readMade && !NoMore(turn.read) && !Feed([], now).failed)
      && Of(t.s.attempts, Caller) + t.s.outbound == Of(s.attempts, Caller) + s.outbound + turn.enqueued
      && Of(t.s.attempts, Heartbeat)
         == Of(s.attempts, Heartbeat) + (if t.wrote && turn.pingDue then [Ping(env)] else [])
      && (!t.readMade ==> t.s.attempts == s.attempts)
      && (!t.wrote ==> Of(t.s.attempts, Caller) == Of(s.attempts, Caller))
      && (FailedCaller(t.s.attempts) ==> t.s.stop)
      && (t.wrote ==> (t.s.stop <==> turn.disconnected || FailedCaller(t.s.attempts)))
      && (t.wrote && !t.s.stop ==> t.s.outbound == [])
  {
    hide Feed, Drain, FailedCaller, Of, Receive, WriteOut, AllForwards, AllAnswers;
    var e := Enqueue(s, turn);
    assert chunks + [] == chunks && Of(s.attempts, Heartbeat) + [] == Of(s.attempts, Heartbeat);
    assert Of(s.attempts, Caller) + (s.outbound + turn.enqueued) == Of(s.attempts, Caller) + s.outbound + turn.enqueued;
    if !e.stop {
      if turn.read.Data? && turn.read.bytes != [] {
        ReceiveMeaning(env, e, chunks, turn.read.bytes);
        WriteOutMeaning(env, Receive(env, e, turn.read.bytes), turn);
      } else {
        WriteOutMeaning(env, e, turn);
      }
    }
  }

  /** The first `n` turns are over and none of them ended the session. */
  predicate Continued(turns: seq<Turn>, n: nat, stop: bool, failed: bool)
    requires n <= |turns|
  {
    && (forall k :: 0 <= k < n ==> !turns[k].stop && !Quits(turns[k]))
    && (forall k :: 0 <= k < n - 1 ==> !turns[k].disconnected)
    && (stop <==> failed || (n > 0 && turns[n - 1].disconnected))
  }

  /** The last of `n` turns ended the session: at its head, exactly if a stop was requested, all
      callers were gone or the write of an enqueued message had failed; or past it, by the end of the stream,
      broken framing or a silent peer. */
  predicate Left(turns: seq<Turn>, n: nat, heard: nat, failed: bool, broken: bool)
    requires n <= |turns|
  {
    && n > 0
    && (forall k :: 0 <= k < n - 1 ==> !turns[k].stop && !Quits(turns[k]))
    && (forall k :: 0 <= k < n - 2 ==> !turns[k].disconnected)
    && if heard == n then
         !turns[n - 1].stop && (n > 1 ==> !turns[n - 2].disconnected) && (Quits(turns[n - 1]) || broken)
       else turns[n - 1].stop || failed || (n > 1 && turns[n - 2].disconnected)
  }

  /** What holds after the loop has run over some turns. */
  ghost predicate SessionInv(env: Env, turns: seq<Turn>, r: Session)
    requires r.taken <= |turns| && r.heard <= r.taken && r.wrote <= r.taken
  {
    var f := Feed([], Reads(turns[..r.heard]));
    && ReadSide(env, r.s, Reads(turns[..r.heard]))
    && (!r.ended ==> !f.failed)
    && Of(r.s.attempts, Caller) + r.s.outbound == Enqueued(turns[..r.taken])
    && Of(r.s.attempts, Heartbeat) == PingsDue(env, turns[..r.wrote])
    && (FailedCaller(r.s.attempts) ==> r.s.stop)
    && if r.ended then Left(turns, r.taken, r.heard, FailedCaller(r.s.attempts), f.failed)
       else Continued(turns, r.taken, r.s.stop, FailedCaller(r.s.attempts))
  }

  lemma {:induction false} LoopInv(env: Env, failures: seq<Option<nat>>, turns: seq<Turn>)
    ensures SessionInv(env, turns, Loop(env, failures, turns))
  {
    if turns == [] {
      NoTurns(env, failures);
    } else {
      var n := |turns| - 1;
      var r := Loop(env, failures, turns[..n]);
      LoopInv(env, failures, turns[..n]);
      InvPrefix(env, turns, r);
      if !r.ended { TurnInv(env, turns, r); }
    }
  }

  lemma NoTurns(env: Env, failures: seq<Option<nat>>)
    ensures SessionInv(env, [], Session(Fresh(failures), false, 0, 0, 0))
  {
  }

  /** Turns not taken do not matter. */
  lemma InvPrefix(env: Env, turns: seq<Turn>, r: Session)
    requires turns != [] && r.taken <= |turns| - 1 && r.heard <= r.taken && r.wrote <= r.taken
    requires SessionInv(env, turns[..|turns| - 1], r)
    ensures SessionInv(env, turns, r)
  {
    hide Feed, FailedCaller, Of, ReadSide, Enqueued, Reads, PingsDue, Quits;
    var before := turns[..|turns| - 1];
    assert before[..r.heard] == turns[..r.heard] && before[..r.taken] == turns[..r.taken];
    assert before[..r.wrote] == turns[..r.wrote];
    assert forall k :: 0 <= k < |before| ==> before[k] == turns[k];
  }

  lemma TurnInv(env: Env, turns: seq<Turn>, r: Session)
    requires turns != [] && !r.ended && r.taken == r.heard == r.wrote == |turns| - 1
    requires SessionInv(env, turns, r)
    ensures var t := TakeTurn(env, r.s, turns[|turns| - 1]);
      SessionInv(env, turns, Session(t.s, t.ended, |turns|, if t.readMade then |turns| else |turns| - 1,
                                     if t.wrote then |turns| else |turns| - 1))
  {
    var n := |turns| - 1;
    var chunks := Reads(turns[..n]);
    TurnMeaning(env, r.s, turns[n], chunks);
    TurnsSnoc(env, turns, n);
    assert turns[..n + 1] == turns;
    hide Feed, FailedCaller, Of, ReadSide, Enqueued, Reads, PingsDue, Quits, TakeTurn, Ping, Continued, Left;
    var t := TakeTurn(env, r.s, turns[n]);
    TurnDone(turns, n, r.s.stop, FailedCaller(r.s.attempts), t.readMade, t.ended, t.s.stop, FailedCaller(t.s.attempts),
             Feed([], chunks + if t.readMade then ReadOf(turns[n]) else []).failed);
    assert chunks + [] == chunks && PingsDue(env, turns[..n]) + [] == PingsDue(env, turns[..n]);
    assert Enqueued(turns[..n]) == Of(r.s.attempts, Caller) + r.s.outbound;
  }

  /** Which turns go on and which end the session, given what one turn does. */
  lemma TurnDone(turns: seq<Turn>, i: nat, stopped: bool, failed: bool, readMade: bool, ended: bool, stop: bool,
                 failedNow: bool, broken: bool)
    requires i < |turns| && Continued(turns, i, stopped, failed)
    requires readMade <==> !stopped && !turns[i].stop
    requires ended <==> !readMade || Quits(turns[i]) || broken
    requires !ended ==> (stop <==> turns[i].disconnected || failedNow)
    requires !readMade ==> failedNow == failed
    ensures if ended then Left(turns, i + 1, if readMade then i + 1 else i, failedNow, broken)
      else Continued(turns, i + 1, stop, failedNow)
  {
    hide Quits;
  }

  // ---- The order of a turn's writes ----

  function Rank(origin: Origin): nat
  {
    match origin case Answer => 0 case Caller => 1 case Heartbeat => 2
  }

  /** The writes from number `n` on: answers first, then enqueued messages, then the heartbeat, and
      none but of the given ranks. */
  ghost predicate InTurn(ws: seq<Attempt>, n: nat, least: nat, most: nat)
  {
    && n <= |ws|
    && (forall i :: n <= i < |ws| ==> least <= Rank(ws[i].origin) <= most)
    && forall i, j :: n <= i < j < |ws| ==> Rank(ws[i].origin) <= Rank(ws[j].origin)
  }

  /** A turn answers what it has read, then writes what is enqueued, then the heartbeat. */
  lemma TurnInOrder(env: Env, s: State, turn: Turn)
    ensures var t := TakeTurn(env, s, turn).s;
      s.attempts <= t.attempts && InTurn(t.attempts, |s.attempts|, 0, 2)
  {
    hide Receive, DrainOutbound, Write, InTurn, Drain;
    NothingYet(s.attempts, 0);
    if turn.read.Data? { ReceiveInOrder(env, Enqueue(s, turn), turn.read.bytes); }
    var u := if turn.read.Data? then Receive(env, Enqueue(s, turn), turn.read.bytes) else Enqueue(s, turn);
    DrainInOrder(u, turn.disconnected);
    var v := DrainOutbound(u, turn.disconnected);
    HeartbeatInOrder(env, v);
    InTurnThen(s.attempts, u.attempts, v.attempts, 0, 0, 1, 1);
    InTurnThen(s.attempts, v.attempts, Write(v, Heartbeat, Ping(env)).attempts, 0, 1, 2, 2);
    InTurnWider(v.attempts, |s.attempts|, 0, 1);
    InTurnWider(u.attempts, |s.attempts|, 0, 0);
    InTurnWider(s.attempts, |s.attempts|, 0, 0);
  }

  lemma NothingYet(ws: seq<Attempt>, k: nat)
    ensures InTurn(ws, |ws|, k, k)
  {
  }

  lemma InTurnWider(ws: seq<Attempt>, n: nat, least: nat, most: nat)
    requires InTurn(ws, n, least, most) && most <= 2
    ensures InTurn(ws, n, least, 2)
  {
  }

  lemma InTurnThen(a: seq<Attempt>, b: seq<Attempt>, c: seq<Attempt>, least: nat, mid: nat, next: nat, most: nat)
    requires a <= b <= c && InTurn(b, |a|, least, mid) && InTurn(c, |b|, next, most)
    requires least <= mid <= next <= most
    ensures a <= c && InTurn(c, |a|, least, most)
  {
  }

  lemma HeartbeatInOrder(env: Env, s: State)
    ensures var t := Write(s, Heartbeat, Ping(env));
      s.attempts <= t.attempts && InTurn(t.attempts, |s.attempts|, 2, 2)
  {
    hide Tried;
    TriedIs(s, Heartbeat, Ping(env));
  }

  lemma TriedIs(s: State, origin: Origin, m: CastMessage)
    ensures Tried(s, origin, m).origin == origin && Tried(s, origin, m).m == m
  {
  }

  lemma ReceiveInOrder(env: Env, s: State, bytes: seq<u8>)
    ensures var t := Receive(env, s, bytes);
      s.attempts <= t.attempts && InTurn(t.attempts, |s.attempts|, 0, 0)
  {
    hide HandleAll, Drain, InTurn;
    AnswersInOrder(env, s, Drain(s.acc + bytes).bodies);
  }

  lemma {:induction false} AnswersInOrder(env: Env, s: State, bodies: seq<seq<u8>>)
    ensures var t := HandleAll(env, s, bodies);
      s.attempts <= t.attempts && InTurn(t.attempts, |s.attempts|, 0, 0)
  {
    if bodies != [] {
      hide Decode, Tried;
      var n := |bodies| - 1;
      AnswersInOrder(env, s, bodies[..n]);
      var u := HandleAll(env, s, bodies[..n]);
      if Decode(env.lossy, bodies[n]).Some? {
        TriedIs(u, Answer, Pong(env, Decode(env.lossy, bodies[n]).value.source));
      }
    }
  }

  lemma {:induction false} DrainInOrder(s: State, disconnected: bool)
    ensures var t := DrainOutbound(s, disconnected);
      s.attempts <= t.attempts && InTurn(t.attempts, |s.attempts|, 1, 1)
    decreases |s.outbound|
  {
    if s.outbound != [] {
      hide Tried;
      TriedIs(s.(outbound := s.outbound[1..]), Caller, s.outbound[0]);
      var t := Write(s.(outbound := s.outbound[1..]), Caller, s.outbound[0]);
      assert InTurn(t.attempts, |s.attempts|, 1, 1);
      if t.attempts[|s.attempts|].ok {
        hide InTurn;
        DrainInOrder(t, disconnected);
        InTurnThen(s.attempts, t.attempts, DrainOutbound(t, disconnected).attempts, 1, 1, 1, 1);
      }
    }
  }

  /** Whole sessions, on any wire. The forwarded messages and the answers tried are those of the
      reads made; every enqueued message is tried once, in order, or still waits; every PING due is
      tried; and the session ends at the first turn with a reason for it. */
  lemma SessionMeaning(env: Env, failures: seq<Option<nat>>, turns: seq<Turn>)
    ensures var (l, r) := (Loop(env, failures, turns), Run(env, failures, turns));
      var f := Feed([], Reads(turns[..r.heard]));
      && ReadSide(env, r.s, Reads(turns[..r.heard]))
      && Of(r.s.attempts, Caller) + r.s.outbound == Enqueued(turns[..r.taken])
      && Of(r.s.attempts, Heartbeat) == PingsDue(env, turns[..r.wrote])
      && (if r.ended then Left(turns, r.taken, r.heard, FailedCaller(l.s.attempts), f.failed)
          else Continued(turns, r.taken, r.s.stop, FailedCaller(r.s.attempts)))
      && (r.ended && r.s.outbound != [] ==> r.s.attempts != [] && !r.s.attempts[|r.s.attempts| - 1].ok)
  {
    LoopInv(env, failures, turns);
    hide Feed, FailedCaller, Of, Enqueued, Reads, PingsDue, Left, Continued, Flush, AllForwards, AllAnswers, Loop;
    FlushMeaning(Loop(env, failures, turns).s);
    FlushStops(Loop(env, failures, turns).s);
  }

  /** A failed write of an enqueued message ends the session at the head of the next turn, before
      anything else is read or written; a failed PING or PONG never does. */
  lemma FailedWriteEnds(env: Env, failures: seq<Option<nat>>, turns: seq<Turn>, next: Turn)
    requires !Loop(env, failures, turns).ended && !next.stop
    requires turns != [] ==> !turns[|turns| - 1].disconnected
    ensures var s := Loop(env, failures, turns).s;
      var t := TakeTurn(env, s, next);
      && (!t.readMade <==> FailedCaller(s.attempts))
      && (!t.readMade ==> t.ended && t.s.attempts == s.attempts && t.s.acc == s.acc)
  {
    LoopInv(env, failures, turns);
    hide Loop, FailedCaller, Of, Feed, Reads;
  }

  /** The peer's messages through a whole session. */
  lemma SessionEndToEnd(env: Env, failures: seq<Option<nat>>, turns: seq<Turn>, ms: seq<CastMessage>)
    requires forall m :: m in ms ==> Clean(env.lossy, m)
    requires Small(EncodeAll(ms)) && Flatten(Reads(turns[..Run(env, failures, turns).heard])) == Wire(EncodeAll(ms))
    ensures var s := Run(env, failures, turns).s;
      && s.incoming == NotHeartbeats(ms) && s.acc == []
      && Of(s.attempts, Answer) == PongsFor(env, ms) && AnswersEach(env, Of(s.attempts, Answer), PingsOf(env, ms))
  {
    SessionMeaning(env, failures, turns);
    hide Run, Clean, Encode;
    EndToEnd(env, ms, Reads(turns[..Run(env, failures, turns).heard]));
  }

  // ---- Where the framing is lost ----

  function Quiet(enqueued: seq<CastMessage>, pingDue: bool): Turn
  {
    Turn(enqueued, false, Nothing, false, pingDue, false)
  }

  /** A torn PING is ignored: the loop goes on, and the next message follows it on the wire. */
  lemma TornPingIsFollowed(env: Env, m: CastMessage)
    ensures var turns := [Quiet([], true), Quiet([m], false)];
      var r := Run(env, [Some(2)], turns);
      && !r.ended && !r.s.stop
      && r.s.attempts == [Attempt(Heartbeat, Ping(env), 2, false), Attempt(Caller, m, |Framed(Encode(m))|, true)]
      && !NothingAfterTorn(r.s.attempts)
  {
    hide Encode, Decode;
    var first, second := Quiet([], true), Quiet([m], false);
    var turns := [first, second];
    var failures: seq<Option<nat>> := [Some(2)];
    var s1 := TakeTurn(env, Fresh(failures), first).s;
    assert s1.attempts == [Attempt(Heartbeat, Ping(env), 2, false)];
    assert s1 == State([], [], [], false, [], s1.attempts);
    assert Enqueue(s1, second) == s1.(outbound := [m]);
    var s2 := TakeTurn(env, s1, second).s;
    var w := Attempt(Caller, m, |Framed(Encode(m))|, true);
    FrameNotEmpty(w);
    assert DrainOutbound(s1.(outbound := [m]), false) == s1.(attempts := s1.attempts + [w]) by {
      assert DrainOutbound(s1.(attempts := s1.attempts + [w]), false) == s1.(attempts := s1.attempts + [w]);
    }
    assert s2.attempts == s1.attempts + [w];
    LoopTwice(env, failures, first, second);
    FrameNotEmpty(s1.attempts[0]);
    assert s2.attempts[0].Torn() && s2.attempts[1].out > 0;
  }

  /** So is a torn message of a caller by the drain after the loop. */
  lemma TornMessageIsFollowed(env: Env, a: CastMessage, b: CastMessage)
    ensures var turns := [Quiet([a, b], false), Quiet([], false)];
      var r := Run(env, [Some(2)], turns);
      && r.ended && r.heard == 1
      && r.s.attempts == [Attempt(Caller, a, 2, false), Attempt(Caller, b, |Framed(Encode(b))|, true)]
      && !NothingAfterTorn(r.s.attempts)
  {
    hide Encode, Decode;
    var first, second := Quiet([a, b], false), Quiet([], false);
    var failures: seq<Option<nat>> := [Some(2)];
    var v, w := Attempt(Caller, a, 2, false), Attempt(Caller, b, |Framed(Encode(b))|, true);
    var s1 := TakeTurn(env, Fresh(failures), first).s;
    assert s1 == State([], [b], [], true, [], [v]);
    assert Enqueue(s1, second) == s1;
    assert TakeTurn(env, s1, second) == TurnEnd(s1, true, false, false);
    var s2 := s1;
    FrameNotEmpty(v);
    FrameNotEmpty(w);
    LoopTwice(env, failures, first, second);
    assert Flush(s2) == State([], [], [], true, [], [v, w]) by {
      assert Flush(State([], [], [], true, [], [v, w])) == State([], [], [], true, [], [v, w]);
    }
    var r := Run(env, failures, [first, second]);
    assert r == Session(Flush(s1), true, 2, 1, 1);
    assert r.s.attempts[0].Torn() && r.s.attempts[1].out > 0;
  }

  lemma LoopTwice(env: Env, failures: seq<Option<nat>>, first: Turn, second: Turn)
    requires !TakeTurn(env, Fresh(failures), first).ended
    ensures var t := TakeTurn(env, TakeTurn(env, Fresh(failures), first).s, second);
      Loop(env, failures, [first, second])
        == Session(t.s, t.ended, 2, if t.readMade then 2 else 1, if t.wrote then 2 else 1)
  {
    hide TakeTurn;
    assert [first, second][..1] == [first] && [first][..0] == [];
    assert Loop(env, failures, []) == Session(Fresh(failures), false, 0, 0, 0);
    assert Loop(env, failures, [first]).s == TakeTurn(env, Fresh(failures), first).s;
  }

  /** What draining after `taken` bodies comes to, by what is taken next. */
  lemma DrainMore(taken: seq<seq<u8>>, acc: seq<u8>)
    ensures var all := Drained(taken + Drain(acc).bodies, Drain(acc).rest, Drain(acc).failed);
      match Take(acc)
      case NeedMore => all == Drained(taken, acc, false)
      case Oversized => all == Drained(taken, acc, true)
      case Frame(body, rest) =>
        all == Drained((taken + [body]) + Drain(rest).bodies, Drain(rest).rest, Drain(rest).failed)
  {
    hide Take;
  }

  // ---- The program's object ----

  class Connection {
    const env: Env
    var acc: seq<u8>
    var outbound: seq<CastMessage>
    var incoming: seq<CastMessage>
    var stop: bool
    /** Bytes handed to the TLS stream. */
    var wire: seq<u8>
    /** Outcomes of the coming writes: how many bytes go out before an error. */
    var failures: seq<Option<nat>>

    ghost var attempts: seq<Attempt>
    ghost var peak: nat

    ghost function Now(): State
      reads this
    {
      State(acc, outbound, incoming, stop, failures, attempts)
    }

    ghost predicate Valid()
      reads this
    {
      wire == Sent(attempts) && peak <= 73731
    }

    constructor (env: Env, failures: seq<Option<nat>>)
      ensures Valid() && this.env == env && Now() == Fresh(failures)
    {
      this.env, this.failures := env, failures;
      acc, outbound, incoming, stop, wire := [], [], [], false, [];
      attempts, peak := [], 0;
    }

    /** `write_message`. */
    method WriteMessage(m: CastMessage, ghost origin: Origin) returns (ok: bool)
      requires Valid()
      modifies this`wire, this`failures, this`attempts
      ensures Valid() && Now() == Write(old(Now()), origin, m)
      ensures |attempts| == |old(attempts)| + 1 && ok == attempts[|old(attempts)|].ok
    {
      var body := EncodeCastMessage(m);
      hide Encode, Sent, ToBE32;
      var frame := ToBE32(|body| % TWO32) + body;
      var outcome := if failures == [] then None else failures[0];
      ghost var w := Tried(Now(), origin, m);
      failures := if failures == [] then [] else failures[1..];
      ok := outcome.None?;
      var count := if outcome.Some? && outcome.value <= |frame| then outcome.value else |frame|;
      wire := wire + frame[..count];
      assert frame == w.Frame() && count == w.out;
      BytesAre(w, frame, count);
      SentNext(attempts, w);
      attempts := attempts + [w];
    }

    /** `take_frame`. */
    method TakeFrame() returns (t: Taken)
      modifies this`acc
      ensures t == Take(old(acc))
      ensures acc == if t.Frame? then t.rest else old(acc)
    {
      if |acc| < 4 {
        return NeedMore;
      }
      var length := BE32(acc[..4]);
      if length > MAX_BODY_SIZE {
        return Oversized;
      }
      if |acc| < 4 + length {
        return NeedMore;
      }
      acc := acc[4..];
      var body := acc[..length];
      acc := acc[length..];
      return Frame(body, acc);
    }

    /** What the loop does with one body. A PONG's write error is ignored, as in the source. */
    method HandleBody(body: seq<u8>)
      requires Valid()
      modifies this`incoming, this`wire, this`failures, this`attempts
      ensures Valid() && Now() == Handle(env, old(Now()), body)
    {
      var decoded := DecodeCastMessage(env.lossy, body);
      hide Decode, Write;
      if decoded.Some? {
        var m := decoded.value;
        if m.namespace == NS_HEARTBEAT {
          if env.isPing(m.payload) {
            var ok := WriteMessage(Pong(env, m.source), Answer);
          }
        } else {
          incoming := incoming + [m];
        }
      }
    }

    /** The inner loop: frames off the buffer until more bytes are needed or the framing breaks. */
    method DrainFrames() returns (broken: bool)
      requires Valid()
      modifies this`acc, this`incoming, this`wire, this`failures, this`attempts
      ensures Valid() && broken == Drain(old(acc)).failed
      ensures Now() == HandleAll(env, old(Now()), Drain(old(acc)).bodies).(acc := Drain(old(acc)).rest)
    {
      ghost var s, bodies := Now(), [];
      NoneHandled(env, s);
      hide Take, Drain, Handle, HandleAll;
      while true
        invariant Valid()
        invariant Drain(s.acc) == Drained(bodies + Drain(acc).bodies, Drain(acc).rest, Drain(acc).failed)
        invariant Now() == HandleAll(env, s, bodies).(acc := acc)
        decreases |acc|
      {
        DrainMore(bodies, acc);
        var t := TakeFrame();
        match t {
          case NeedMore => return false;
          case Oversized => return true;
          case Frame(body, _) =>
            HandleNext(env, s, bodies, body, acc);
            HandleBody(body);
            bodies := bodies + [body];
        }
      }
    }

    /** One read of the session and what follows from it. */
    method ReceiveBytes(bytes: seq<u8>) returns (broken: bool)
      requires Valid() && |acc| <= 65539 && |bytes| <= READ_SIZE
      modifies this`acc, this`incoming, this`wire, this`failures, this`attempts, this`peak
      ensures Valid() && Now() == Receive(env, old(Now()), bytes)
      ensures broken == Drain(old(acc) + bytes).failed && (!broken ==> |acc| <= 65539)
    {
      hide Drain;
      ghost var s := Now();
      acc := acc + bytes;
      peak := if |acc| > peak then |acc| else peak;
      BufferBound(acc);
      ghost var d := Drain(acc);
      HandleFrame(env, s, d.bodies, acc);
      broken := DrainFrames();
    }

    /** Writing what callers have enqueued. A write error ends the session. */
    method DrainQueue(disconnected: bool)
      requires Valid()
      modifies this`outbound, this`stop, this`wire, this`failures, this`attempts
      ensures Valid() && Now() == DrainOutbound(old(Now()), disconnected)
    {
      hide DrainOutbound, Write, Sent;
      ghost var s := Now();
      while outbound != []
        invariant Valid() && DrainOutbound(s, disconnected) == DrainOutbound(Now(), disconnected)
        decreases |outbound|
      {
        QueueNext(Now(), disconnected);
        var m := outbound[0];
        outbound := outbound[1..];
        var ok := WriteMessage(m, Caller);
        if !ok {
          stop := true;
          return;
        }
      }
      QueueEmpty(Now(), disconnected);
      if disconnected {
        stop := true;
      }
    }

    method FlushQueue()
      requires Valid()
      modifies this`outbound, this`wire, this`failures, this`attempts
      ensures Valid() && Now() == Flush(old(Now()))
    {
      hide Flush, Write, Sent;
      ghost var s := Now();
      while outbound != []
        invariant Valid() && Flush(s) == Flush(Now())
        decreases |outbound|
      {
        QueueNext(Now(), false);
        var m := outbound[0];
        outbound := outbound[1..];
        var ok := WriteMessage(m, Caller);
        if !ok {
          return;
        }
      }
      QueueEmpty(Now(), false);
    }

    /** One turn of the session loop. */
    method Pass(turn: Turn) returns (ended: bool, ghost readMade: bool, ghost wrote: bool)
      requires Valid() && |acc| <= 65539
      requires turn.read.Data? ==> |turn.read.bytes| <= READ_SIZE
      modifies this
      ensures Valid() && (!ended ==> |acc| <= 65539)
      ensures TurnEnd(Now(), ended, readMade, wrote) == TakeTurn(env, old(Now()), turn)
    {
      hide Sent, Drain, Receive, DrainOutbound, Write;
      outbound := outbound + turn.enqueued;
      stop := stop || turn.stop;
      readMade, wrote := false, false;
      if stop {
        return true, readMade, wrote;
      }
      readMade := true;
      match turn.read {
        case Closed => return true, readMade, wrote;
        case Nothing =>
        case Data(bytes) =>
          if bytes == [] {
            return true, readMade, wrote;
          }
          var broken := ReceiveBytes(bytes);
          if broken {
            return true, readMade, wrote;
          }
      }
      wrote := true;
      DrainQueue(turn.disconnected);
      if turn.pingDue {
        var ok := WriteMessage(Ping(env), Heartbeat);
      }
      return turn.silent, readMade, wrote;
    }

    /** The dispatcher thread over any sequence of turns: it makes the session that the functions
        describe, and its buffer never exceeds one frame and one read. */
    method Serve(turns: seq<Turn>, ghost outcomes: seq<Option<nat>>) returns (ghost r: Session)
      requires Valid() && Now() == Fresh(outcomes)
      requires forall i :: 0 <= i < |turns| && turns[i].read.Data? ==> |turns[i].read.bytes| <= READ_SIZE
      modifies this
      ensures Valid() && r == Run(env, outcomes, turns) && Now() == r.s
    {
      var ended := false;
      var i := 0;
      r := Loop(env, outcomes, turns[..0]);
      while !ended && i < |turns|
        invariant 0 <= i <= |turns| && Valid() && (!ended ==> |acc| <= 65539)
        invariant r == Loop(env, outcomes, turns[..i]) && r.s == Now() && r.ended == ended
        decreases |turns| - i
      {
        hide Valid, TakeTurn;
        assert turns[..i + 1][..i] == turns[..i];
        ghost var readMade, wrote;
        ended, readMade, wrote := Pass(turns[i]);
        i := i + 1;
        r := Loop(env, outcomes, turns[..i]);
      }
      LoopStays(env, outcomes, turns, i);
      if ended {
        FlushQueue();
        r := r.(s := Now());
      }
    }
  }

  lemma QueueNext(s: State, disconnected: bool)
    requires s.outbound != []
    ensures var t := Write(s.(outbound := s.outbound[1..]), Caller, s.outbound[0]);
      && |t.attempts| == |s.attempts| + 1
      && (var ok := t.attempts[|s.attempts|].ok;
          && DrainOutbound(s, disconnected) == (if ok then DrainOutbound(t, disconnected) else t.(stop := true))
          && Flush(s) == if ok then Flush(t) else t)
  {
    hide Tried;
  }

  lemma QueueEmpty(s: State, disconnected: bool)
    requires s.outbound == []
    ensures DrainOutbound(s, disconnected) == s.(stop := s.stop || disconnected) && Flush(s) == s
  {
  }

  lemma NoneHandled(env: Env, s: State)
    ensures HandleAll(env, s, []) == s
  {
  }

  lemma HandleNext(env: Env, s: State, bodies: seq<seq<u8>>, body: seq<u8>, acc: seq<u8>)
    ensures HandleAll(env, s, bodies + [body]).(acc := acc) == Handle(env, HandleAll(env, s, bodies).(acc := acc), body)
  {
    hide Decode, HandleAll;
    HandleLast(env, s, bodies, body);
  }

  lemma HandleLast(env: Env, s: State, bodies: seq<seq<u8>>, body: seq<u8>)
    ensures HandleAll(env, s, bodies + [body]) == Handle(env, HandleAll(env, s, bodies), body)
  {
    hide Handle;
    assert (bodies + [body])[..|bodies|] == bodies;
  }

  /** Handling does not look at the buffer. */
  lemma {:induction false} HandleFrame(env: Env, s: State, bodies: seq<seq<u8>>, acc: seq<u8>)
    ensures HandleAll(env, s.(acc := acc), bodies) == HandleAll(env, s, bodies).(acc := acc)
  {
    if bodies != [] {
      hide Decode;
      HandleFrame(env, s, bodies[..|bodies| - 1], acc);
    }
  }

  /** Once the loop is left it stays left. */
  lemma {:induction false} LoopStays(env: Env, failures: seq<Option<nat>>, turns: seq<Turn>, i: nat)
    requires i <= |turns| && (Loop(env, failures, turns[..i]).ended || i == |turns|)
    ensures Loop(env, failures, turns) == Loop(env, failures, turns[..i])
    decreases |turns| - i
  {
    hide TakeTurn;
    if i == |turns| {
      assert turns[..i] == turns;
    } else {
      assert turns[..i + 1][..i] == turns[..i];
      LoopStays(env, failures, turns, i + 1);
    }
  }
}
