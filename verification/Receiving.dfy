/** The receiving half of a connection: `on_alloc`, `on_read`, and `on_recv`/`parse`, which it calls back. */
module Receiving {
  import opened Base
  import opened Dispatcher
  import opened IOBufs
  import opened Framing

  /** The longest frame for which the receive buffer always has room: 4096 - 1024 + 1. */
  const FRAME_LIMIT := 3073

  /** One read: the bytes the network delivered, and what memory holds behind the readable region then. */
  datatype Chunk = Chunk(data: Bytes, beyond: nat -> Byte)

  datatype Recv = Recv(connected: bool, shape: Shape, residue: Bytes, delivered: seq<Packet>)

  /** The first connection, as `on_connect` leaves it. */
  const FRESH := Recv(true, Shape(INITIAL_SIZE, 0, 0), [], [])

  /** `on_alloc`: make room for 1024 bytes if that can be done, then offer all there is. */
  function Alloc(c: Recv): Recv {
    if c.connected then c.(shape := Ensure(c.shape, INITIAL_SIZE).1) else c
  }

  function Offered(c: Recv): int {
    if c.connected then Alloc(c).shape.Writable() else 0
  }

  /** `on_read` of a positive number of bytes. */
  function Read(decode: MetaDecoder, c: Recv, k: Chunk): Recv {
    if !c.connected then c else
    var view := c.residue + k.data;
    var d := Drain(decode, view, k.beyond);
    DrainLeavesSuffix(decode, view, k.beyond);
    Recv(!d.stop, Shape(c.shape.cap, c.shape.read + |view| - |d.left|, |d.left|), d.left, c.delivered + d.packets)
  }

  function Run(decode: MetaDecoder, c: Recv, ks: seq<Chunk>): Recv
    decreases |ks|
  {
    if ks == [] then c else Run(decode, Read(decode, Alloc(c), ks[0]), ks[1..])
  }

  function Joined(ks: seq<Chunk>): Bytes {
    if ks == [] then [] else ks[0].data + Joined(ks[1..])
  }

  /** Every read of the run delivers at least one byte and at most what was offered. */
  predicate Fits(decode: MetaDecoder, c: Recv, ks: seq<Chunk>)
    decreases |ks|
  {
    ks == []
    || ((c.connected ==> 0 < |ks[0].data| <= Offered(c)) && Fits(decode, Read(decode, Alloc(c), ks[0]), ks[1..]))
  }

  /** What `on_alloc` finds and leaves: little residue, a successful request, room for 1024, a bounded buffer. */
  ghost predicate HasSpace(c: Recv) {
    c.connected ==>
      && |c.residue| < FRAME_LIMIT
      && Ensure(c.shape, INITIAL_SIZE).0
      && Offered(c) >= INITIAL_SIZE
      && Sized(Alloc(c))
  }

  ghost predicate AlwaysHasSpace(decode: MetaDecoder, c: Recv, ks: seq<Chunk>)
    decreases |ks|
  {
    HasSpace(c) && (ks != [] ==> AlwaysHasSpace(decode, Read(decode, Alloc(c), ks[0]), ks[1..]))
  }

  ghost predicate Sized(c: Recv) {
    && c.shape.Valid() && c.shape.held == |c.residue|
    && c.shape.cap % INITIAL_SIZE == 0 && c.shape.cap <= MAX_SIZE
  }

  // ---------------------------------------------------------------- what is dispatched does not depend on the cut

  /** Between reads: the residue is the start of a frame that `tail` may complete. */
  ghost predicate Between(decode: MetaDecoder, c: Recv, tail: Bytes, limit: nat) {
    && c.connected
    && First(decode, c.residue).More?
    && FramesWithin(decode, c.residue + tail, limit)
  }

  /** One read does what the reference does with the residue and the new bytes. */
  lemma ReadFollowsReference(decode: MetaDecoder, c: Recv, k: Chunk, tail: Bytes, limit: nat)
    requires Between(decode, c, k.data + tail, limit) && HEADER_LEN <= limit < 0x1_0000
    ensures var r := ReadAll(decode, c.residue + k.data);
      var c' := Read(decode, Alloc(c), k);
      && c'.delivered == c.delivered + r.packets && c'.connected == !r.bad && c'.residue == r.rest
      && (!r.bad ==> Between(decode, c', tail, limit))
  {
    hide Ensure;
    var view := c.residue + k.data;
    assert c.residue + (k.data + tail) == view + tail;
    FramesWithinSplits(decode, view, tail, limit);
    DrainIsReadAll(decode, view, k.beyond, limit);
    DrainLeavesSuffix(decode, view, k.beyond);
    if !ReadAll(decode, view).bad {
      RestIsShort(decode, view, limit);
    }
  }

  lemma {:induction false} StoppedStaysStopped(decode: MetaDecoder, c: Recv, ks: seq<Chunk>)
    requires !c.connected
    ensures Run(decode, c, ks) == c && AlwaysHasSpace(decode, c, ks)
    decreases |ks|
  {
    if ks != [] {
      StoppedStaysStopped(decode, Read(decode, Alloc(c), ks[0]), ks[1..]);
    }
  }

  /** The reading of residue and remaining chunks, one chunk further on. */
  lemma NextChunk(decode: MetaDecoder, residue: Bytes, ks: seq<Chunk>)
    requires ks != []
    ensures residue + Joined(ks) == (residue + ks[0].data) + Joined(ks[1..])
    ensures ReadAll(decode, residue + Joined(ks))
         == Resume(decode, ReadAll(decode, residue + ks[0].data), Joined(ks[1..]))
  {
    assert residue + Joined(ks) == (residue + ks[0].data) + Joined(ks[1..]);
    ReadAllExtends(decode, residue + ks[0].data, Joined(ks[1..]));
  }

  lemma ReadAllOfStart(decode: MetaDecoder, c: Recv, limit: nat)
    requires Between(decode, c, Joined([]), limit)
    ensures c.connected && ReadAll(decode, c.residue + Joined([])) == Reading([], c.residue, false)
  {
    assert c.residue + Joined([]) == c.residue;
  }

  lemma BetweenFirst(decode: MetaDecoder, c: Recv, ks: seq<Chunk>, limit: nat)
    requires Between(decode, c, Joined(ks), limit) && ks != []
    ensures Between(decode, c, ks[0].data + Joined(ks[1..]), limit)
  {
  }

  lemma {:induction false} RunFollowsReference(decode: MetaDecoder, c: Recv, ks: seq<Chunk>, limit: nat)
    requires Between(decode, c, Joined(ks), limit) && HEADER_LEN <= limit < 0x1_0000
    ensures var r := ReadAll(decode, c.residue + Joined(ks));
      var c' := Run(decode, c, ks);
      && c'.delivered == c.delivered + r.packets && c'.connected == !r.bad && (!r.bad ==> c'.residue == r.rest)
    decreases |ks|
  {
    hide Alloc, Read, First, FramesWithin, ReadAll, Between;
    if ks == [] {
      ReadAllOfStart(decode, c, limit);
    } else {
      NextChunk(decode, c.residue, ks);
      BetweenFirst(decode, c, ks, limit);
      ReadFollowsReference(decode, c, ks[0], Joined(ks[1..]), limit);
      var c1 := Read(decode, Alloc(c), ks[0]);
      if c1.connected {
        RunFollowsReference(decode, c1, ks[1..], limit);
        var r := ReadAll(decode, c.residue + ks[0].data);
        var next := ReadAll(decode, r.rest + Joined(ks[1..]));
        assert (c.delivered + r.packets) + next.packets == c.delivered + (r.packets + next.packets);
      } else {
        StoppedStaysStopped(decode, c1, ks[1..]);
      }
    }
  }

  /** Chunking independence. For a stream whose frames have lengths of 16 bits, however it is cut into reads: what
      is dispatched is the one-shot reading of the whole stream up to its first error, nothing is dispatched after
      that error, and otherwise the unread rest is what stays in the buffer. */
  lemma ChunkingIndependence(decode: MetaDecoder, ks: seq<Chunk>)
    requires FramesWithin(decode, Joined(ks), 0xFFFF)
    ensures var r := ReadAll(decode, Joined(ks));
      var c := Run(decode, FRESH, ks);
      && c.delivered == r.packets
      && (c.connected <==> !r.bad)
      && (c.connected ==> c.residue == r.rest)
  {
    hide Run, ReadAll, FramesWithin;
    assert [] + Joined(ks) == Joined(ks);
    RunFollowsReference(decode, FRESH, ks, 0xFFFF);
    assert [] + ReadAll(decode, Joined(ks)).packets == ReadAll(decode, Joined(ks)).packets;
  }

  /** End to end: the frames of any packets with lengths of 16 bits, cut in any way, arrive as those packets in
      order, and the buffer ends up empty. */
  lemma EndToEnd(ps: seq<Packet>, ks: seq<Chunk>)
    requires (forall p <- ps :: |FrameOf(p)| < 0x1_0000) && Joined(ks) == StreamOf(ps)
    ensures var c := Run(DecodeMeta, FRESH, ks);
      c.connected && c.delivered == ps && c.residue == []
  {
    hide DecodeMeta, FrameOf, Run, ReadAll;
    StreamRoundTrip(ps, 0xFFFF);
    ChunkingIndependence(DecodeMeta, ks);
  }

  /** Nothing empties the buffer between two connections: what the first left unread is read in front of the
      second's stream. */
  lemma NextConnection(decode: MetaDecoder, last: Recv, ks: seq<Chunk>)
    requires First(decode, last.residue).More? && FramesWithin(decode, last.residue + Joined(ks), 0xFFFF)
    ensures var r := ReadAll(decode, last.residue + Joined(ks));
      var c := Run(decode, last.(connected := true), ks);
      c.delivered == last.delivered + r.packets && (c.connected <==> !r.bad) && (c.connected ==> c.residue == r.rest)
  {
    hide Run, ReadAll, FramesWithin, First;
    RunFollowsReference(decode, last.(connected := true), ks, 0xFFFF);
  }

  /** So one byte left over, the beginning of a frame that never came, makes the first frame of the next
      connection unreadable and stops it, however it is cut, with nothing dispatched. */
  lemma LeftoverByteStopsNext(p: Packet, tail: Bytes, last: Recv, ks: seq<Chunk>)
    requires last.residue == [MARK[0]] && Joined(ks) == FrameOf(p) + tail && |FrameOf(p)| >= HEADER_LEN
    ensures var c := Run(DecodeMeta, last.(connected := true), ks);
      !c.connected && c.delivered == last.delivered
  {
    hide Run, DecodeMeta, EncodeMeta;
    var s := last.residue + Joined(ks);
    assert s[1] == FrameOf(p)[0] == MARK[0] && s[..4][1] == s[1];
    NextConnection(DecodeMeta, last, ks);
    assert last.delivered + [] == last.delivered;
  }

  // ---------------------------------------------------------------- room

  /** A buffer of the kind the connection uses finds room for another 1024 bytes if and only if the residue is
      below 3073, and it has nothing at all to offer if and only if it holds at least that much and is full behind
      it. */
  lemma RoomExactly(c: Recv)
    requires c.connected && Sized(c)
    ensures Ensure(c.shape, INITIAL_SIZE).0 <==> |c.residue| < FRAME_LIMIT
    ensures Offered(c) == 0 <==> |c.residue| >= FRAME_LIMIT && c.shape.Writable() == 0
  {
    EnsureObeysGrowthLaw(c.shape, INITIAL_SIZE);
  }

  /** Between reads of frames below the limit the buffer is one that has room. */
  lemma SpaceBetween(decode: MetaDecoder, c: Recv, tail: Bytes)
    requires Between(decode, c, tail, FRAME_LIMIT) && Sized(c)
    ensures HasSpace(c)
  {
    FramesWithinSplits(decode, c.residue, tail, FRAME_LIMIT);
    RestIsShort(decode, c.residue, FRAME_LIMIT);
    EnsureObeysGrowthLaw(c.shape, INITIAL_SIZE);
  }

  /** A read that fits leaves a buffer of the same kind. */
  lemma ReadKeepsSized(decode: MetaDecoder, c: Recv, k: Chunk)
    requires Sized(c) && c.connected && |k.data| <= Offered(c)
    ensures Sized(Read(decode, Alloc(c), k)) && |c.residue + k.data| <= MAX_SIZE
  {
    EnsureObeysGrowthLaw(c.shape, INITIAL_SIZE);
    DrainLeavesSuffix(decode, c.residue + k.data, k.beyond);
  }

  lemma {:induction false} RunHasSpace(decode: MetaDecoder, c: Recv, ks: seq<Chunk>)
    requires Between(decode, c, Joined(ks), FRAME_LIMIT) && Sized(c) && Fits(decode, c, ks)
    ensures AlwaysHasSpace(decode, c, ks)
    decreases |ks|
  {
    hide Alloc, Read, First, FramesWithin, ReadAll, HasSpace, Between, Offered, Sized;
    SpaceBetween(decode, c, Joined(ks));
    if ks != [] {
      BetweenFirst(decode, c, ks, FRAME_LIMIT);
      ReadFollowsReference(decode, c, ks[0], Joined(ks[1..]), FRAME_LIMIT);
      BetweenIsConnected(decode, c, Joined(ks), FRAME_LIMIT);
      ReadKeepsSized(decode, c, ks[0]);
      var c1 := Read(decode, Alloc(c), ks[0]);
      if c1.connected {
        RunHasSpace(decode, c1, ks[1..]);
      } else {
        StoppedStaysStopped(decode, c1, ks[1..]);
      }
    }
  }

  lemma BetweenIsConnected(decode: MetaDecoder, c: Recv, tail: Bytes, limit: nat)
    requires Between(decode, c, tail, limit)
    ensures c.connected
  {
  }

  /** The receive space never runs out where all frames have at most 3073 bytes: at every `on_alloc` of every run
      of reads that fit, the request succeeds and the buffer stays within its bounds. */
  lemma SpaceNeverRunsOut(decode: MetaDecoder, ks: seq<Chunk>)
    requires FramesWithin(decode, Joined(ks), FRAME_LIMIT) && Fits(decode, FRESH, ks)
    ensures AlwaysHasSpace(decode, FRESH, ks)
  {
    hide Run, Fits, AlwaysHasSpace, ReadAll, FramesWithin;
    assert [] + Joined(ks) == Joined(ks);
    RunHasSpace(decode, FRESH, ks);
  }

  // ---------------------------------------------------------------- frames the buffer cannot hold

  /** Every frame that a left-to-right reading of `s` gets whole has at most `limit` bytes. */
  predicate GotWithin(decode: MetaDecoder, s: Bytes, limit: nat)
    decreases |s|
  {
    var f := First(decode, s);
    f.Got? ==> f.len <= limit && GotWithin(decode, s[f.len..], limit)
  }

  lemma {:induction false} ShortIsGotWithin(decode: MetaDecoder, s: Bytes, limit: nat)
    requires |s| <= limit
    ensures GotWithin(decode, s, limit)
    decreases |s|
  {
    var f := First(decode, s);
    if f.Got? {
      ShortIsGotWithin(decode, s[f.len..], limit);
    }
  }

  lemma {:induction false} GotWithinJoins(decode: MetaDecoder, s: Bytes, t: Bytes, limit: nat)
    requires GotWithin(decode, s, limit)
    requires !ReadAll(decode, s).bad ==> GotWithin(decode, ReadAll(decode, s).rest + t, limit)
    ensures GotWithin(decode, s + t, limit)
    decreases |s|
  {
    FirstExtends(decode, s, t);
    match First(decode, s)
    case Got(n, p) =>
      assert (s + t)[n..] == s[n..] + t;
      GotWithinJoins(decode, s[n..], t, limit);
    case More =>
    case Bad =>
  }

  /** Under reads that fit, no frame of more than 4096 bytes ever gets whole. */
  lemma {:induction false} BufferBoundsFrames(decode: MetaDecoder, c: Recv, ks: seq<Chunk>)
    requires Between(decode, c, Joined(ks), 0xFFFF) && Sized(c) && Fits(decode, c, ks)
    ensures GotWithin(decode, c.residue + Joined(ks), MAX_SIZE)
    decreases |ks|
  {
    hide Alloc, Read, First, FramesWithin, ReadAll, Between, Offered, Sized, GotWithin;
    BetweenIsConnected(decode, c, Joined(ks), 0xFFFF);
    if ks == [] {
      StartIsGotWithin(decode, c);
    } else {
      NextChunk(decode, c.residue, ks);
      BetweenFirst(decode, c, ks, 0xFFFF);
      ReadFollowsReference(decode, c, ks[0], Joined(ks[1..]), 0xFFFF);
      ReadKeepsSized(decode, c, ks[0]);
      var c1, view := Read(decode, Alloc(c), ks[0]), c.residue + ks[0].data;
      ShortIsGotWithin(decode, view, MAX_SIZE);
      if c1.connected {
        BufferBoundsFrames(decode, c1, ks[1..]);
      }
      GotWithinJoins(decode, view, Joined(ks[1..]), MAX_SIZE);
    }
  }

  lemma StartIsGotWithin(decode: MetaDecoder, c: Recv)
    requires Between(decode, c, Joined([]), 0xFFFF)
    ensures GotWithin(decode, c.residue + Joined([]), MAX_SIZE)
  {
    assert c.residue + Joined([]) == c.residue;
  }

  /** Reading the first part of a printed stream: the packets whose frames it holds whole, and those are within
      what a whole frame may have. */
  lemma {:induction false} PartOfStream(ps: seq<Packet>, s: Bytes, t: Bytes, limit: nat)
    requires (forall p <- ps :: |FrameOf(p)| < 0x1_0000) && s + t == StreamOf(ps)
    requires GotWithin(DecodeMeta, s, limit)
    ensures var r := ReadAll(DecodeMeta, s);
      !r.bad && r.packets <= ps && forall p <- r.packets :: |FrameOf(p)| <= limit
  {
    hide FrameOf, DecodeMeta, First;
    FirstExtends(DecodeMeta, s, t);
    if ps == [] {
      assert s == [];
      FirstOfNothing(DecodeMeta);
    } else {
      var tail := StreamOf(ps[1..]);
      FirstOfFrame(ps[0], tail);
      var n := |FrameOf(ps[0])|;
      if First(DecodeMeta, s).Got? {
        assert (s + t)[n..] == s[n..] + t;
        assert s[n..] + t == tail;
        PartOfStream(ps[1..], s[n..], t, limit);
      }
    }
  }

  lemma FirstOfNothing(decode: MetaDecoder)
    ensures First(decode, []).More?
  {
  }

  /** A frame of more than 4096 bytes never arrives, nor anything behind it, under any cut into reads that fit: of
      any printed stream, what has been dispatched at any time is its beginning, and all of it within 4096. */
  lemma NeverArrives(ps: seq<Packet>, ks: seq<Chunk>, rest: Bytes)
    requires (forall p <- ps :: |FrameOf(p)| < 0x1_0000) && Joined(ks) + rest == StreamOf(ps)
    requires Fits(DecodeMeta, FRESH, ks)
    ensures var c := Run(DecodeMeta, FRESH, ks);
      c.connected && c.delivered <= ps && forall p <- c.delivered :: |FrameOf(p)| <= MAX_SIZE
  {
    hide FrameOf, DecodeMeta, Run, Fits, ReadAll, FramesWithin;
    StreamRoundTrip(ps, 0xFFFF);
    FramesWithinSplits(DecodeMeta, Joined(ks), rest, 0xFFFF);
    ChunkingIndependence(DecodeMeta, ks);
    assert [] + Joined(ks) == Joined(ks);
    BufferBoundsFrames(DecodeMeta, FRESH, ks);
    PartOfStream(ps, Joined(ks), rest, MAX_SIZE);
  }

  // ---------------------------------------------------------------- the limit is exact

  /** Some cut of `s` into reads that fit leads from `c` to `c'`. */
  ghost predicate Leads(c: Recv, s: Bytes, c': Recv) {
    exists ks :: Fits(DecodeMeta, c, ks) && Joined(ks) == s && Run(DecodeMeta, c, ks) == c'
  }

  lemma NoRead(c: Recv)
    ensures Leads(c, [], c)
  {
    assert Fits(DecodeMeta, c, []) && Joined([]) == [] && Run(DecodeMeta, c, []) == c;
  }

  /** One more read in front. */
  lemma OneRead(c: Recv, k: Chunk, rest: Bytes, c': Recv)
    requires c.connected && 0 < |k.data| <= Offered(c) && Leads(Read(DecodeMeta, Alloc(c), k), rest, c')
    ensures Leads(c, k.data + rest, c')
  {
    hide Read, Alloc, Offered, DecodeMeta;
    var c1 := Read(DecodeMeta, Alloc(c), k);
    var ks :| Fits(DecodeMeta, c1, ks) && Joined(ks) == rest && Run(DecodeMeta, c1, ks) == c';
    assert ([k] + ks)[1..] == ks;
    assert Fits(DecodeMeta, c, [k] + ks) && Joined([k] + ks) == k.data + rest && Run(DecodeMeta, c, [k] + ks) == c';
  }

  /** Part of a frame stays where it is. */
  lemma PartStays(p: Packet, n: nat, beyond: nat -> Byte)
    requires n < |FrameOf(p)| < 0x1_0000
    ensures Drain(DecodeMeta, FrameOf(p)[..n], beyond) == Drained([], FrameOf(p)[..n], false)
  {
    hide FrameOf, DecodeMeta, HeaderOk, BodyLen, MetaLen, Drain;
    var view := FrameOf(p)[..n];
    FirstOfFrame(p, []);
    assert FrameOf(p) + [] == FrameOf(p) == view + FrameOf(p)[n..];
    FirstExtends(DecodeMeta, view, FrameOf(p)[n..]);
    ParseIsFirst(DecodeMeta, view, beyond);
    DrainStep(DecodeMeta, view, beyond);
  }

  /** A whole frame is dispatched, and part of the next one stays. */
  lemma WholeGoes(p: Packet, next: Packet, n: nat, beyond: nat -> Byte)
    requires |FrameOf(p)| < 0x1_0000 && n < |FrameOf(next)| < 0x1_0000
    ensures Drain(DecodeMeta, FrameOf(p) + FrameOf(next)[..n], beyond) == Drained([p], FrameOf(next)[..n], false)
  {
    var tail := FrameOf(next)[..n];
    var view := FrameOf(p) + tail;
    FirstOfFrame(p, tail);
    PartStays(next, n, beyond);
    hide FrameOf, DecodeMeta, HeaderOk, BodyLen, MetaLen, Drain;
    ParseIsFirst(DecodeMeta, view, beyond);
    DrainStep(DecodeMeta, view, beyond);
    assert view[|FrameOf(p)|..] == tail;
  }

  /** A connected receiver that has `n` bytes of a frame. */
  function Holding(cap: nat, read: nat, p: Packet, n: nat, delivered: seq<Packet>): Recv
    requires n <= |FrameOf(p)|
  {
    Recv(true, Shape(cap, read, n), FrameOf(p)[..n], delivered)
  }

  /** A read of `n` more bytes of the frame that does not complete it. */
  lemma ReadPart(c: Recv, p: Packet, held: nat, n: nat, rest: Bytes, beyond: nat -> Byte, c': Recv)
    requires 0 < n && held + n < |FrameOf(p)| < 0x1_0000
    requires c.connected && c.residue == FrameOf(p)[..held] && n <= Offered(c)
    requires var t := Alloc(c).shape;
      Leads(Holding(t.cap, t.read, p, held + n, c.delivered), FrameOf(p)[held + n..] + rest, c')
    ensures Leads(c, FrameOf(p)[held..] + rest, c')
  {
    hide DecodeMeta, FrameOf, Ensure, Leads;
    var frame := FrameOf(p);
    var data := frame[held..held + n];
    assert c.residue + data == frame[..held + n];
    assert frame[held..] == data + frame[held + n..];
    PartStays(p, held + n, beyond);
    var t := Alloc(c).shape;
    assert Read(DecodeMeta, Alloc(c), Chunk(data, beyond)) == Holding(t.cap, t.read, p, held + n, c.delivered);
    OneRead(c, Chunk(data, beyond), FrameOf(p)[held + n..] + rest, c');
    assert data + (frame[held + n..] + rest) == (data + frame[held + n..]) + rest;
  }

  /** A read that completes the frame and brings the first `n` bytes of the next. */
  lemma ReadRest(c: Recv, p: Packet, held: nat, next: Packet, n: nat, rest: Bytes, beyond: nat -> Byte, c': Recv)
    requires held < |FrameOf(p)| < 0x1_0000 && n < |FrameOf(next)| < 0x1_0000
    requires c.connected && c.residue == FrameOf(p)[..held] && |FrameOf(p)| - held + n <= Offered(c)
    requires var t := Alloc(c).shape;
      Leads(Holding(t.cap, t.read + |FrameOf(p)|, next, n, c.delivered + [p]), rest, c')
    ensures Leads(c, FrameOf(p)[held..] + FrameOf(next)[..n] + rest, c')
  {
    hide DecodeMeta, FrameOf, Ensure, Leads;
    var data := FrameOf(p)[held..] + FrameOf(next)[..n];
    assert c.residue + data == FrameOf(p) + FrameOf(next)[..n];
    WholeGoes(p, next, n, beyond);
    OneRead(c, Chunk(data, beyond), rest, c');
  }

  /** What the buffer does before each of these reads: it grows by a kilobyte as long as it can, and moves its
      contents to the front when only that makes room. */
  lemma ShapesOnTheWay(k: nat)
    requires k <= 3
    ensures 1 <= k ==> Ensure(Shape(1024 * k, 0, 1024 * k), 1024) == (true, Shape(1024 * (k + 1), 0, 1024 * k))
    ensures Ensure(Shape(4096, 1023, 1024 * k), 1024) == (true, Shape(4096, if k == 3 then 0 else 1023, 1024 * k))
    ensures Ensure(Shape(4096, 3073, 0), 1024) == (true, Shape(4096, 0, 0))
    ensures Ensure(Shape(1024, 0, 0), 1024) == (true, Shape(1024, 0, 0))
    ensures Ensure(Shape(4096, 1023, 3073), 1024) == (false, Shape(4096, 1023, 3073))
  {
    if 1 <= k {
      assert RoundUp(1024 * (k + 1)) == 1024 * (k + 1) by { RoundUpOfMultiple(k + 1); }
      hide RoundUp;
      assert (1024 + 1024 * k) % TWO_64 == 1024 * (k + 1);
    }
  }

  lemma RoundUpOfMultiple(k: nat)
    requires k <= 4
    ensures RoundUp(1024 * k) == 1024 * k
  {
    assert k == 0 || k == 1 || k == 2 || k == 3 || k == 4;
  }

  /** A frame of 3073 bytes, in three kilobytes and one byte, makes the buffer grow to its full size. */
  lemma FirstFrame(p: Packet, q: Packet, rest: Bytes, beyond: nat -> Byte, c': Recv)
    requires |FrameOf(p)| == FRAME_LIMIT && 0 < |FrameOf(q)| < 0x1_0000
    requires Leads(Holding(4096, 3073, q, 0, [p]), rest, c')
    ensures Leads(FRESH, FrameOf(p) + rest, c')
  {
    hide FrameOf, Leads, Ensure, Read;
    ShapesOnTheWay(1);
    ShapesOnTheWay(2);
    ShapesOnTheWay(3);
    assert [] + [p] == [p];
    ReadRest(Holding(3072, 0, p, 3072, []), p, 3072, q, 0, rest, beyond, c');
    assert FrameOf(p)[3072..] + FrameOf(q)[..0] + rest == FrameOf(p)[3072..] + rest;
    ReadPart(Holding(2048, 0, p, 2048, []), p, 2048, 1024, rest, beyond, c');
    ReadPart(Holding(1024, 0, p, 1024, []), p, 1024, 1024, rest, beyond, c');
    ReadPart(FRESH, p, 0, 1024, rest, beyond, c');
    assert FrameOf(p)[0..] == FrameOf(p);
  }

  /** One read brings the second frame and 3073 bytes of the third: these lie behind 1023 consumed ones. */
  lemma Greedy(p: Packet, q: Packet, r: Packet, beyond: nat -> Byte)
    requires |FrameOf(q)| == 1023 && FRAME_LIMIT < |FrameOf(r)| < 0x1_0000
    ensures Leads(Holding(4096, 3073, q, 0, [p]), FrameOf(q) + FrameOf(r)[..3073],
                  Holding(4096, 1023, r, 3073, [p] + [q]))
  {
    hide FrameOf, Leads, Ensure, Read;
    ShapesOnTheWay(0);
    var end := Holding(4096, 1023, r, 3073, [p] + [q]);
    NoRead(end);
    ReadRest(Holding(4096, 3073, q, 0, [p]), q, 0, r, 3073, [], beyond, end);
    assert FrameOf(q)[0..] + FrameOf(r)[..3073] + [] == FrameOf(q) + FrameOf(r)[..3073];
  }

  /** The second frame alone, then kilobytes: there is room for all of the third. */
  lemma Gentle(p: Packet, q: Packet, r: Packet, beyond: nat -> Byte)
    requires |FrameOf(q)| == 1023 && FRAME_LIMIT < |FrameOf(r)| <= MAX_SIZE
    ensures Leads(Holding(4096, 3073, q, 0, [p]), FrameOf(q) + FrameOf(r),
                  Holding(4096, |FrameOf(r)|, r, 0, [p] + [q] + [r]))
  {
    hide FrameOf, Leads, Ensure, Read;
    ShapesOnTheWay(0);
    ShapesOnTheWay(1);
    ShapesOnTheWay(2);
    ShapesOnTheWay(3);
    var third, ds := FrameOf(r), [p] + [q];
    var end := Holding(4096, |third|, r, 0, ds + [r]);
    NoRead(end);
    ReadRest(Holding(4096, 1023, r, 3072, ds), r, 3072, r, 0, [], beyond, end);
    assert third[3072..] + third[..0] + [] == third[3072..] + [];
    ReadPart(Holding(4096, 1023, r, 2048, ds), r, 2048, 1024, [], beyond, end);
    ReadPart(Holding(4096, 1023, r, 1024, ds), r, 1024, 1024, [], beyond, end);
    ReadPart(Holding(4096, 1023, r, 0, ds), r, 0, 1024, [], beyond, end);
    assert third[0..] + [] == third;
    ReadRest(Holding(4096, 3073, q, 0, [p]), q, 0, r, 0, third, beyond, end);
    assert FrameOf(q)[0..] + third[..0] + third == FrameOf(q) + third;
  }

  lemma StreamOfThree(p: Packet, q: Packet, r: Packet)
    ensures StreamOf([p, q, r]) == FrameOf(p) + (FrameOf(q) + FrameOf(r))
  {
    hide FrameOf;
    assert [p, q, r][1..] == [q, r] && [q, r][1..] == [r] && [r][1..] == [];
    assert StreamOf([r]) == FrameOf(r) + [] == FrameOf(r);
    assert StreamOf([q, r]) == FrameOf(q) + FrameOf(r);
  }

  /** The limit on frames is exact: with any longer third frame that the buffer could hold at all, whether a stream
      arrives depends on how it is cut. Some cut into reads that fit leaves the buffer with nothing to offer while
      bytes are still to come (a read of no bytes then stops the connection); under another the same stream
      arrives whole. */
  lemma LimitIsExact(p: Packet, q: Packet, r: Packet)
    requires |FrameOf(p)| == FRAME_LIMIT && |FrameOf(q)| == 1023 && FRAME_LIMIT < |FrameOf(r)| <= MAX_SIZE
    ensures exists s, c ::
      s < StreamOf([p, q, r]) && Leads(FRESH, s, c) && c.connected && c.delivered == [p, q] && Offered(c) == 0
    ensures exists c ::
      Leads(FRESH, StreamOf([p, q, r]), c) && c.connected && c.delivered == [p, q, r] && c.residue == []
  {
    hide FrameOf, Leads, Ensure, Read;
    ShapesOnTheWay(0);
    var first, second, third := FrameOf(p), FrameOf(q), FrameOf(r);
    StreamOfThree(p, q, r);
    var stalled, done := Holding(4096, 1023, r, 3073, [p] + [q]), Holding(4096, |third|, r, 0, [p] + [q] + [r]);
    Greedy(p, q, r, _ => 0);
    FirstFrame(p, q, second + third[..3073], _ => 0, stalled);
    assert first + (second + third[..3073]) < first + (second + third);
    Gentle(p, q, r, _ => 0);
    FirstFrame(p, q, second + third, _ => 0, done);
    assert Leads(FRESH, first + (second + third[..3073]), stalled) && Offered(stalled) == 0;
    assert Leads(FRESH, StreamOf([p, q, r]), done);
  }

  // ---------------------------------------------------------------- the code

  class Receiver {
    var connected: bool
    const recvBuf: IOBuf
    /** The packets handed to `process_request` or `process_response`. */
    ghost var delivered: seq<Packet>

    ghost predicate Valid()
      reads this, recvBuf, recvBuf.buff
    {
      recvBuf.Valid()
    }

    ghost function View(): Recv
      requires Valid()
      reads this, recvBuf, recvBuf.buff
    {
      Recv(connected, recvBuf.View(), recvBuf.Readable(), delivered)
    }

    /** A new connection, once connected. */
    constructor ()
      ensures Valid() && View() == FRESH && fresh(recvBuf) && fresh(recvBuf.buff)
    {
      connected, delivered := true, [];
      recvBuf := new IOBuf(INITIAL_SIZE);
    }

    method OnStop()
      requires Valid()
      modifies this
      ensures Valid() && View() == old(View()).(connected := false)
    {
      connected := false;
    }

    method OnAlloc() returns (len: nat)
      requires Valid() && recvBuf.buff.Length < TWO_64 - INITIAL_SIZE
      modifies recvBuf, recvBuf.buff
      ensures Valid() && (recvBuf.buff == old(recvBuf.buff) || fresh(recvBuf.buff))
      ensures View() == Alloc(old(View())) && len == Offered(old(View()))
    {
      if !connected {
        return 0;
      }
      var _ := recvBuf.EnsureWritable(INITIAL_SIZE);
      len := recvBuf.WritableBytes();
    }

    /** `data` is what was stored in the offered space; a count of zero or less is an error. */
    method OnRead(data: Bytes, beyond: nat -> Byte)
      requires Valid() && |data| <= recvBuf.View().Writable()
      modifies this, recvBuf, recvBuf.buff
      ensures Valid() && recvBuf.buff == old(recvBuf.buff)
      ensures View() == if data == [] then old(View()).(connected := false)
                        else Read(DecodeMeta, old(View()), Chunk(data, beyond))
    {
      hide DecodeMeta, Drain;
      if !connected {
        return;
      }
      if data == [] {
        OnStop();
        return;
      }
      recvBuf.Store(data);
      var _ := recvBuf.HasWritten(|data|);
      assert recvBuf.Readable() == old(recvBuf.Readable()) + data;
      assert recvBuf.Readable() + [] == recvBuf.Readable();
      OnRecv(beyond);
    }

    /** `RpcChannel::on_recv`; every positive result shortens the readable region, so the loop ends. */
    method OnRecv(beyond: nat -> Byte)
      requires Valid() && connected
      modifies this, recvBuf
      ensures Valid() && recvBuf.buff == old(recvBuf.buff)
      ensures View() == Read(DecodeMeta, old(View()), Chunk([], beyond))
    {
      hide DecodeMeta, Framing.Parse, Drain;
      assert recvBuf.Readable() + [] == recvBuf.Readable();
      ghost var whole := Drain(DecodeMeta, recvBuf.Readable(), beyond);
      ghost var rest := whole;
      var ret := 1;
      while ret > 0
        invariant Valid() && recvBuf.buff == old(recvBuf.buff) && recvBuf.writeIndex == old(recvBuf.writeIndex)
        invariant rest.left == whole.left && rest.stop == whole.stop
        invariant delivered + rest.packets == old(delivered) + whole.packets
        invariant ret > 0 ==> connected && rest == Drain(DecodeMeta, recvBuf.Readable(), beyond)
        invariant ret <= 0 ==> rest == Drained([], recvBuf.Readable(), !connected)
        decreases |recvBuf.Readable()|, ret
      {
        ghost var view := recvBuf.Readable();
        DrainStep(DecodeMeta, view, beyond);
        ret := Parse(beyond);
        if ret > 0 {
          var _ := recvBuf.HasReaded(ret);
          rest := Drain(DecodeMeta, view[ret..], beyond);
        } else {
          rest := Drained([], view, ret < 0);
          if ret < 0 {
            OnStop();
          }
        }
      }
    }

    /** `RpcChannel::parse`; what it returns and dispatches is the value-level `Parse`. */
    method Parse(beyond: nat -> Byte) returns (ret: int)
      requires Valid()
      modifies this`delivered
      ensures Valid() && recvBuf.Readable() == old(recvBuf.Readable())
      ensures match Framing.Parse(DecodeMeta, recvBuf.Readable(), beyond)
              case NeedMore => ret == 0 && delivered == old(delivered)
              case Refused(code) => ret == code && delivered == old(delivered)
              case Dispatched(n, p) => ret == n && delivered == old(delivered) + [p]
    {
      hide DecodeMeta;
      var remain := recvBuf.ReadableBytes();
      if remain < HEADER_LEN {
        return 0;
      }
      var buf := recvBuf.buff[recvBuf.readIndex..recvBuf.writeIndex];
      var bodyLen, metaLen := BodyLen(buf), MetaLen(buf);
      if buf[..4] != MARK || buf[9] != 1 || buf[10] != 0x10 {
        return -1;
      }
      var packLen := (HEADER_LEN + metaLen + bodyLen) % 0x1_0000;
      if remain < packLen {
        return 0;
      }
      var meta := new MetaRpc();
      var code := meta.Deserialize(Memory(buf, beyond, HEADER_LEN, metaLen));
      if code != 0 {
        return -2;
      }
      delivered := delivered + [Packet(meta.View().value, Memory(buf, beyond, HEADER_LEN + metaLen, bodyLen))];
      return packLen;
    }
  }
}
