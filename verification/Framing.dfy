/** Length-prefixed framing: taking bodies off an accumulation buffer that TCP fills in arbitrary
    pieces. */
module Framing {
  import opened Words

  const MAX_BODY_SIZE: nat := 65536
  const READ_SIZE: nat := 8192

  datatype Taken = NeedMore | Oversized | Frame(body: seq<u8>, rest: seq<u8>)

  /** `take_frame`: the length is judged before any of the body has arrived. */
  function Take(acc: seq<u8>): (t: Taken)
    ensures t.Frame? ==> |t.rest| < |acc|
  {
    if |acc| < 4 then NeedMore else
      var length := BE32(acc[..4]);
      if length > MAX_BODY_SIZE then Oversized
      else if |acc| < 4 + length then NeedMore
      else Frame(acc[4..4 + length], acc[4 + length..])
  }

  datatype Drained = Drained(bodies: seq<seq<u8>>, rest: seq<u8>, failed: bool)

  /** Taking frames until more bytes are needed or the framing is broken. */
  function Drain(acc: seq<u8>): Drained
    decreases |acc|
  {
    match Take(acc)
    case NeedMore => Drained([], acc, false)
    case Oversized => Drained([], acc, true)
    case Frame(body, rest) =>
      var d := Drain(rest);
      Drained([body] + d.bodies, d.rest, d.failed)
  }

  /** A session's reads, each drained before the next; a framing error ends the session and leaves
      the later reads unread. */
  datatype Fed = Fed(bodies: seq<seq<u8>>, rest: seq<u8>, failed: bool, unread: seq<seq<u8>>)

  function Feed(acc: seq<u8>, chunks: seq<seq<u8>>): Fed
    decreases |chunks|
  {
    if chunks == [] then Fed([], acc, false, []) else
      var d := Drain(acc + chunks[0]);
      if d.failed then Fed(d.bodies, d.rest, true, chunks[1..]) else
        var f := Feed(d.rest, chunks[1..]);
        f.(bodies := d.bodies + f.bodies)
  }

  function Flatten(chunks: seq<seq<u8>>): seq<u8>
  {
    if chunks == [] then [] else chunks[0] + Flatten(chunks[1..])
  }

  // ---- Independence from chunking ----

  lemma TakeAppend(a: seq<u8>, b: seq<u8>)
    ensures Take(a).Oversized? ==> Take(a + b).Oversized?
    ensures Take(a).Frame? ==> Take(a + b) == Frame(Take(a).body, Take(a).rest + b)
  {
    if |a| >= 4 {
      assert (a + b)[..4] == a[..4];
      if Take(a).Frame? {
        var n := 4 + BE32(a[..4]);
        assert (a + b)[4..n] == a[4..n] && (a + b)[n..] == a[n..] + b;
      }
    }
  }

  lemma DrainTakes(acc: seq<u8>)
    ensures Drain(acc) == match Take(acc)
      case NeedMore => Drained([], acc, false)
      case Oversized => Drained([], acc, true)
      case Frame(body, rest) =>
        var d := Drain(rest);
        Drained([body] + d.bodies, d.rest, d.failed)
  {
    hide Take;
  }

  /** Bytes that arrive later cannot change the frames already taken, nor an error already found. */
  lemma {:induction false} DrainAppend(a: seq<u8>, b: seq<u8>)
    ensures var d := Drain(a);
      && (d.failed ==> Drain(a + b) == Drained(d.bodies, d.rest + b, true))
      && (!d.failed ==>
            var e := Drain(d.rest + b);
            Drain(a + b) == Drained(d.bodies + e.bodies, e.rest, e.failed))
    decreases |a|
  {
    hide Take, Drain;
    TakeAppend(a, b);
    DrainTakes(a);
    DrainTakes(a + b);
    match Take(a) {
      case NeedMore => assert [] + Drain(a + b).bodies == Drain(a + b).bodies;
      case Oversized =>
      case Frame(body, rest) =>
        DrainAppend(rest, b);
        var e := Drain(Drain(rest).rest + b);
        assert [body] + (Drain(rest).bodies + e.bodies) == ([body] + Drain(rest).bodies) + e.bodies;
    }
  }

  /** Nothing more can be taken from what a drain leaves. */
  lemma {:induction false} DrainAgain(a: seq<u8>)
    ensures !Drain(a).failed ==> Drain(Drain(a).rest) == Drained([], Drain(a).rest, false)
    decreases |a|
  {
    if Take(a).Frame? { DrainAgain(Take(a).rest); }
  }

  /** Any split of any bytes into reads yields the same bodies, the same verdict and, together with
      the reads not made after an error, the same leftover bytes as parsing them in one piece. */
  lemma {:induction false} ChunkingIndependent(acc: seq<u8>, chunks: seq<seq<u8>>)
    requires Drain(acc) == Drained([], acc, false)
    ensures var (f, d) := (Feed(acc, chunks), Drain(acc + Flatten(chunks)));
      && f.bodies == d.bodies && f.failed == d.failed
      && f.rest + Flatten(f.unread) == d.rest
      && (!f.failed ==> f.unread == [])
    decreases |chunks|
  {
    if chunks == [] {
      assert acc + Flatten(chunks) == acc;
    } else {
      var first, later := acc + chunks[0], Flatten(chunks[1..]);
      assert acc + Flatten(chunks) == first + later;
      DrainAppend(first, later);
      if !Drain(first).failed {
        DrainAgain(first);
        ChunkingIndependent(Drain(first).rest, chunks[1..]);
      }
    }
  }

  // ---- What a well-behaved peer sends ----

  function Framed(body: seq<u8>): seq<u8>
  {
    ToBE32(|body| % TWO32) + body
  }

  function Wire(bodies: seq<seq<u8>>): seq<u8>
  {
    if bodies == [] then [] else Framed(bodies[0]) + Wire(bodies[1..])
  }

  predicate Small(bodies: seq<seq<u8>>)
  {
    forall i :: 0 <= i < |bodies| ==> |bodies[i]| <= MAX_BODY_SIZE
  }

  /** What the receiving side makes of a body of any length: the prefix holds its length modulo
      2^32, so that many bytes are taken, unless they are over the limit. */
  lemma TakeFramed(body: seq<u8>, rest: seq<u8>)
    ensures var length := |body| % TWO32;
      Take(Framed(body) + rest)
        == if length > MAX_BODY_SIZE then Oversized else Frame(body[..length], body[length..] + rest)
  {
    hide BE32, ToBE32;
    var acc, length := Framed(body) + rest, |body| % TWO32;
    assert acc[..4] == ToBE32(length);
    assert acc[4..] == body + rest && (body + rest)[..length] == body[..length];
    assert acc[4 + length..] == body[length..] + rest && acc[4..4 + length] == body[..length];
  }

  lemma DrainFramed(body: seq<u8>, rest: seq<u8>)
    requires |body| <= MAX_BODY_SIZE
    ensures var d := Drain(rest);
      Drain(Framed(body) + rest) == Drained([body] + d.bodies, d.rest, d.failed)
  {
    hide Take, Framed;
    TakeFramed(body, rest);
    assert body[..|body|] == body && [] + rest == rest;
  }

  /** The bodies that were framed come out, whole, in order, and nothing is left over. */
  lemma {:induction false} WireDrains(bodies: seq<seq<u8>>)
    requires Small(bodies)
    ensures Drain(Wire(bodies)) == Drained(bodies, [], false)
  {
    if bodies != [] {
      hide Take, Framed, Drain;
      DrainFramed(bodies[0], Wire(bodies[1..]));
      WireDrains(bodies[1..]);
    }
  }

  lemma {:induction false} WireAppend(bodies: seq<seq<u8>>, body: seq<u8>)
    ensures Wire(bodies + [body]) == Wire(bodies) + Framed(body)
  {
    hide Framed;
    if bodies == [] {
      assert [] + [body] == [body] && [body][1..] == [];
    } else {
      WireAppend(bodies[1..], body);
      assert (bodies + [body])[1..] == bodies[1..] + [body];
    }
  }

  /** Whatever comes off the buffer is within the limit. */
  lemma {:induction false} DrainedSmall(acc: seq<u8>)
    ensures Small(Drain(acc).bodies)
    decreases |acc|
  {
    if Take(acc).Frame? { DrainedSmall(Take(acc).rest); }
  }

  /** The framing carries a list of bodies exactly if all are within the limit, which the printing
      side does not check. */
  lemma FramingExactIff(bodies: seq<seq<u8>>)
    ensures Drain(Wire(bodies)) == Drained(bodies, [], false) <==> Small(bodies)
  {
    DrainedSmall(Wire(bodies));
    if Small(bodies) { WireDrains(bodies); }
  }

  /** A framed body ends the session that reads it, at its header, exactly if its length modulo 2^32
      is over the limit; otherwise that many of its bytes are a frame and the rest is parsed next. */
  lemma OversizedBodyFails(body: seq<u8>, rest: seq<u8>)
    ensures var (acc, length) := (Framed(body) + rest, |body| % TWO32);
      Drain(acc) == if length > MAX_BODY_SIZE then Drained([], acc, true) else
        var d := Drain(body[length..] + rest);
        Drained([body[..length]] + d.bodies, d.rest, d.failed)
  {
    hide Take, Framed;
    TakeFramed(body, rest);
  }

  // ---- The buffer stays small ----

  /** What waits for more data is less than the largest frame, so with bounded reads the buffer
      never outgrows one frame and one read, whatever the peer sends. */
  lemma {:induction false} BufferBound(acc: seq<u8>)
    ensures !Drain(acc).failed ==> |Drain(acc).rest| <= MAX_BODY_SIZE + 3
    decreases |acc|
  {
    if Take(acc).Frame? { BufferBound(Take(acc).rest); }
  }

  lemma {:induction false} FeedBound(acc: seq<u8>, chunks: seq<seq<u8>>, read: seq<u8>)
    requires |acc| <= MAX_BODY_SIZE + 3 && |read| <= READ_SIZE
    ensures !Feed(acc, chunks).failed ==>
      |Feed(acc, chunks).rest| <= 65539 && |Feed(acc, chunks).rest + read| <= 73731
    decreases |chunks|
  {
    if chunks != [] && !Drain(acc + chunks[0]).failed {
      BufferBound(acc + chunks[0]);
      FeedBound(Drain(acc + chunks[0]).rest, chunks[1..], read);
    }
  }
}
