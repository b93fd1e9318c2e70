/** Cutting a byte stream into packets: the reference reading of a whole stream, and `parse`. */
module Framing {
  import opened Base
  import opened Dispatcher

  const HEADER_LEN := 12
  const MARK: Bytes := [0x45, 0x52, 0x50, 0x43]  // "ERPC"

  datatype Packet = Packet(meta: Meta, body: Bytes)

  // ---------------------------------------------------------------- the header

  function Header(rpcType: Byte, bodyLen: nat, metaLen: nat): (h: Bytes)
    ensures |h| == HEADER_LEN
  {
    MARK + BigEndian(bodyLen, 2) + BigEndian(metaLen, 2) + [rpcType, 1, 0x10, 0x23]
  }

  predicate HeaderOk(s: Bytes)
    requires |s| >= HEADER_LEN
  {
    s[..4] == MARK && s[9] == 1 && s[10] == 0x10
  }

  function BodyLen(s: Bytes): (n: nat)
    requires |s| >= HEADER_LEN
  {
    256 * (s[4] as int) + s[5]
  }

  function MetaLen(s: Bytes): (n: nat)
    requires |s| >= HEADER_LEN
  {
    256 * (s[6] as int) + s[7]
  }

  /** The length the header announces, as a number without a width. */
  function FrameLen(s: Bytes): (n: nat)
    requires |s| >= HEADER_LEN
    ensures n >= HEADER_LEN
  {
    HEADER_LEN + MetaLen(s) + BodyLen(s)
  }

  // ---------------------------------------------------------------- the reference

  /** How a meta is read: everything up to the round trip holds for any decoder. */
  type MetaDecoder = Bytes -> Decoded<Meta>

  datatype Step = More | Bad | Got(len: nat, packet: Packet)

  /** The packet at the front of `s`, read with exact lengths and from `s` alone. */
  function First(decode: MetaDecoder, s: Bytes): (r: Step)
    ensures r.Got? ==> |s| >= HEADER_LEN && r.len == FrameLen(s) <= |s|
  {
    if |s| < HEADER_LEN then More
    else if !HeaderOk(s) then Bad
    else if |s| < FrameLen(s) then More
    else
      match decode(s[HEADER_LEN..HEADER_LEN + MetaLen(s)])
      case Failed(_) => Bad
      case Ok(m) => Got(FrameLen(s), Packet(m, s[HEADER_LEN + MetaLen(s)..FrameLen(s)]))
  }

  datatype Reading = Reading(packets: seq<Packet>, rest: Bytes, bad: bool)

  /** All packets of `s`, left to right, up to the first bad header or meta. */
  function ReadAll(decode: MetaDecoder, s: Bytes): Reading
    decreases |s|
  {
    match First(decode, s)
    case More => Reading([], s, false)
    case Bad => Reading([], s, true)
    case Got(n, p) =>
      After([p], ReadAll(decode, s[n..]))
  }

  /** Every frame that a left-to-right reading of `s` comes to announces at most `limit` bytes. */
  predicate FramesWithin(decode: MetaDecoder, s: Bytes, limit: nat)
    decreases |s|
  {
    |s| >= HEADER_LEN && HeaderOk(s) ==>
      FrameLen(s) <= limit && (First(decode, s).Got? ==> FramesWithin(decode, s[First(decode, s).len..], limit))
  }

  /** Whatever `First` decided is not changed by bytes that arrive later. */
  lemma FirstExtends(decode: MetaDecoder, s: Bytes, t: Bytes)
    ensures !First(decode, s).More? ==> First(decode, s + t) == First(decode, s)
    ensures |s| >= HEADER_LEN ==> HeaderOk(s + t) == HeaderOk(s) && FrameLen(s + t) == FrameLen(s)
  {
    var u := s + t;
    if |s| >= HEADER_LEN {
      assert u[..4] == s[..4];
      if HeaderOk(s) && |s| >= FrameLen(s) {
        var m, f := HEADER_LEN + MetaLen(s), FrameLen(s);
        assert u[HEADER_LEN..m] == s[HEADER_LEN..m];
        assert u[m..f] == s[m..f];
      }
    }
  }

  /** A reading taken up again when `t` arrives: its rest is carried into the next one. */
  function Resume(decode: MetaDecoder, r: Reading, t: Bytes): Reading {
    if r.bad then Reading(r.packets, r.rest + t, true) else After(r.packets, ReadAll(decode, r.rest + t))
  }

  function After(ps: seq<Packet>, r: Reading): Reading {
    Reading(ps + r.packets, r.rest, r.bad)
  }

  lemma AfterResumed(decode: MetaDecoder, p: Packet, r: Reading, t: Bytes)
    ensures After([p], Resume(decode, r, t)) == Resume(decode, After([p], r), t)
  {
    if !r.bad {
      var next := ReadAll(decode, r.rest + t);
      assert [p] + (r.packets + next.packets) == ([p] + r.packets) + next.packets;
    }
  }

  lemma ResumeFromNothing(decode: MetaDecoder, s: Bytes, t: Bytes)
    ensures Resume(decode, Reading([], s, false), t) == ReadAll(decode, s + t)
  {
    assert [] + ReadAll(decode, s + t).packets == ReadAll(decode, s + t).packets;
  }

  lemma ReadAllStep(decode: MetaDecoder, s: Bytes, n: nat, p: Packet)
    requires First(decode, s) == Got(n, p)
    ensures ReadAll(decode, s) == After([p], ReadAll(decode, s[n..]))
  {
  }

  /** Reading a stream in two pieces is reading it in one. */
  lemma {:induction false} ReadAllExtends(decode: MetaDecoder, s: Bytes, t: Bytes)
    ensures ReadAll(decode, s + t) == Resume(decode, ReadAll(decode, s), t)
    decreases |s|
  {
    hide First;
    FirstExtends(decode, s, t);
    var f := First(decode, s);
    match f
    case Got(n, p) =>
      ReadAllStep(decode, s, n, p);
      ReadAllStep(decode, s + t, n, p);
      assert (s + t)[n..] == s[n..] + t;
      ReadAllExtends(decode, s[n..], t);
      AfterResumed(decode, p, ReadAll(decode, s[n..]), t);
    case More => ResumeFromNothing(decode, s, t);
    case Bad =>
  }

  /** The bound on frames passes to the part read so far and to what is left with the bytes to come. */
  lemma {:induction false} FramesWithinSplits(decode: MetaDecoder, s: Bytes, t: Bytes, limit: nat)
    requires FramesWithin(decode, s + t, limit)
    ensures FramesWithin(decode, s, limit)
    ensures !ReadAll(decode, s).bad ==> FramesWithin(decode, ReadAll(decode, s).rest + t, limit)
    decreases |s|
  {
    FirstExtends(decode, s, t);
    match First(decode, s)
    case More =>
    case Bad =>
    case Got(n, p) =>
      assert (s + t)[n..] == s[n..] + t;
      FramesWithinSplits(decode, s[n..], t, limit);
  }

  /** What stays unread is less than a header, or less than the frame it announces. */
  lemma {:induction false} RestIsShort(decode: MetaDecoder, s: Bytes, limit: nat)
    requires FramesWithin(decode, s, limit) && HEADER_LEN <= limit && !ReadAll(decode, s).bad
    ensures |ReadAll(decode, s).rest| < limit
    ensures First(decode, ReadAll(decode, s).rest).More?
    decreases |s|
  {
    match First(decode, s)
    case More =>
    case Got(n, _) => RestIsShort(decode, s[n..], limit);
  }

  // ---------------------------------------------------------------- the printer

  /** What `send_packet` puts on the wire. */
  function FrameOf(p: Packet): Bytes {
    var meta := EncodeMeta(p.meta);
    Header(if p.meta.Request? then 1 else 2, |p.body|, |meta|) + meta + p.body
  }

  function StreamOf(ps: seq<Packet>): Bytes {
    if ps == [] then [] else FrameOf(ps[0]) + StreamOf(ps[1..])
  }

  lemma HeaderReadsBack(rpcType: Byte, bodyLen: nat, metaLen: nat, tail: Bytes)
    requires bodyLen < 0x1_0000 && metaLen < 0x1_0000
    ensures var s := Header(rpcType, bodyLen, metaLen) + tail;
      HeaderOk(s) && BodyLen(s) == bodyLen && MetaLen(s) == metaLen
  {
    assert BigEndian(bodyLen, 2) == BigEndian(bodyLen / 256, 1) + [bodyLen % 256];
    assert BigEndian(metaLen, 2) == BigEndian(metaLen / 256, 1) + [metaLen % 256];
    var s := Header(rpcType, bodyLen, metaLen) + tail;
    assert s[..4] == MARK;
  }

  lemma FirstOfFrame(p: Packet, tail: Bytes)
    requires |FrameOf(p)| < 0x1_0000
    ensures First(DecodeMeta, FrameOf(p) + tail) == Got(|FrameOf(p)|, p)
  {
    hide EncodeMeta, DecodeMeta;
    var meta := EncodeMeta(p.meta);
    var s := FrameOf(p) + tail;
    var h := Header(if p.meta.Request? then 1 else 2, |p.body|, |meta|);
    assert s == h + (meta + p.body + tail);
    HeaderReadsBack(if p.meta.Request? then 1 else 2, |p.body|, |meta|, meta + p.body + tail);
    assert s[HEADER_LEN..HEADER_LEN + |meta|] == meta;
    assert s[HEADER_LEN + |meta|..|FrameOf(p)|] == p.body;
    MetaRoundTrip(p.meta, []);
    assert meta + [] == meta;
  }

  /** One header byte changed, other than the lengths: the frame is refused, whatever it is and whatever follows, if
      the byte belongs to the mark, the mode or the version, and read as before if it is the type or the reserve. */
  lemma HeaderByteMatters(p: Packet, i: nat, b: Byte, tail: Bytes)
    requires |FrameOf(p)| < 0x1_0000 && i < 12 && !(4 <= i < 8) && b != FrameOf(p)[i]
    ensures var r := First(DecodeMeta, FrameOf(p)[i := b] + tail);
      if i == 8 || i == 11 then r == Got(|FrameOf(p)|, p) else r.Bad?
  {
    FirstOfFrame(p, tail);
    hide DecodeMeta, EncodeMeta;
    var s, t := FrameOf(p) + tail, FrameOf(p)[i := b] + tail;
    assert HeaderOk(s);
    assert forall k :: 0 <= k < |s| && k != i ==> t[k] == s[k];
    assert t[i] == b;
    if i == 8 || i == 11 {
      assert t[..4] == s[..4];
      assert t[12..] == s[12..];
      assert t[12..12 + MetaLen(t)] == s[12..][..MetaLen(t)] == s[12..12 + MetaLen(s)];
      assert t[12 + MetaLen(t)..FrameLen(t)] == s[12 + MetaLen(s)..FrameLen(s)];
    } else if i < 4 {
      assert t[..4][i] == b && s[..4][i] != b;
    }
  }

  /** The bytes of a frame: mark, both lengths in network order, type, mode, version and reserve, then meta and
      body. */
  lemma FrameInBytes(p: Packet)
    requires |FrameOf(p)| < 0x1_0000
    ensures var m, n := |EncodeMeta(p.meta)|, |p.body|;
      FrameOf(p)
        == [0x45, 0x52, 0x50, 0x43, n / 256, n % 256, m / 256, m % 256]
           + [if p.meta.Request? then 1 else 2, 1, 0x10, 0x23] + EncodeMeta(p.meta) + p.body
  {
    hide EncodeMeta;
    TwoBytes(|p.body|);
    TwoBytes(|EncodeMeta(p.meta)|);
  }

  lemma TwoBytes(n: nat)
    requires n < 0x1_0000
    ensures BigEndian(n, 2) == [n / 256, n % 256]
  {
    assert BigEndian(n, 2) == BigEndian(n / 256, 1) + [n % 256];
    assert BigEndian(n / 256, 1) == BigEndian(0, 0) + [n / 256];
  }

  /** Reading inverts printing, for any list of packets whose frames fit the 16-bit lengths. */
  lemma {:induction false} StreamRoundTrip(ps: seq<Packet>, limit: nat)
    requires limit < 0x1_0000 && forall p <- ps :: |FrameOf(p)| <= limit
    ensures ReadAll(DecodeMeta, StreamOf(ps)) == Reading(ps, [], false)
    ensures FramesWithin(DecodeMeta, StreamOf(ps), limit)
  {
    if ps != [] {
      hide First, FrameOf;
      var tail := StreamOf(ps[1..]);
      FirstOfFrame(ps[0], tail);
      StreamRoundTrip(ps[1..], limit);
      assert StreamOf(ps)[|FrameOf(ps[0])|..] == tail;
      assert [ps[0]] + ps[1..] == ps;
    }
  }

  /** With an echo or notify body, or none, a frame has at most 220 bytes. */
  lemma FrameLength(p: Packet)
    requires |p.body| <= 71
    ensures HEADER_LEN < |FrameOf(p)| <= 220
  {
    MetaLength(p.meta);
  }

  // ---------------------------------------------------------------- parse

  datatype Parsed = NeedMore | Refused(code: int) | Dispatched(ret: nat, packet: Packet)

  /** `len` bytes of memory from offset `from` of the readable region, which `beyond` continues. */
  function Memory(view: Bytes, beyond: nat -> Byte, from: nat, len: nat): (m: Bytes)
    ensures |m| == len
    ensures from + len <= |view| ==> m == view[from..from + len]
  {
    seq(len, i requires 0 <= i => if from + i < |view| then view[from + i] else beyond(from + i - |view|))
  }

  /** `parse`: the packet length is a 16-bit sum, and nothing else limits where meta and body are read. */
  function Parse(decode: MetaDecoder, view: Bytes, beyond: nat -> Byte): (r: Parsed)
    ensures r.Dispatched? ==> r.ret <= |view|
    ensures r.Refused? ==> r.code < 0
  {
    if |view| < HEADER_LEN then NeedMore
    else if !HeaderOk(view) then Refused(-1)
    else
      var packLen := FrameLen(view) % 0x1_0000;
      if |view| < packLen then NeedMore
      else
        match decode(Memory(view, beyond, HEADER_LEN, MetaLen(view)))
        case Failed(_) => Refused(-2)
        case Ok(m) => Dispatched(packLen, Packet(m, Memory(view, beyond, HEADER_LEN + MetaLen(view), BodyLen(view))))
  }

  /** What `parse` should have said, in its own result type. */
  function Expected(decode: MetaDecoder, view: Bytes): Parsed {
    match First(decode, view)
    case More => NeedMore
    case Bad => Refused(if HeaderOk(view) then -2 else -1)
    case Got(n, p) => Dispatched(n, p)
  }

  /** All that the header announces has arrived, and the meta in it cannot be decoded. */
  predicate MetaIsBad(decode: MetaDecoder, view: Bytes)
    requires |view| >= HEADER_LEN
  {
    |view| >= FrameLen(view) && decode(view[HEADER_LEN..HEADER_LEN + MetaLen(view)]).Failed?
  }

  /** `parse` is the reference exactly when the announced length fits 16 bits, or so little has arrived that
      even the wrapped length has not, or the meta is bad anyway; what lies behind the buffer then never matters. */
  lemma ParseIsFirst(decode: MetaDecoder, view: Bytes, beyond: nat -> Byte)
    ensures Parse(decode, view, beyond) == Expected(decode, view)
      <==> (|view| >= HEADER_LEN && HeaderOk(view) && FrameLen(view) >= 0x1_0000
            ==> |view| < FrameLen(view) % 0x1_0000 || MetaIsBad(decode, view))
  {
  }

  datatype Drained = Drained(packets: seq<Packet>, left: Bytes, stop: bool)

  /** `on_recv`: parse and consume until no complete packet is left, or one is refused. */
  function Drain(decode: MetaDecoder, view: Bytes, beyond: nat -> Byte): Drained
    decreases |view|
  {
    match Parse(decode, view, beyond)
    case NeedMore => Drained([], view, false)
    case Refused(_) => Drained([], view, true)
    case Dispatched(n, p) =>
      if n == 0 then Drained([p], view, false) else
      var d := Drain(decode, view[n..], beyond);
      Drained([p] + d.packets, d.left, d.stop)
  }

  /** Header and meta of a packet of 65536 bytes, whose body is still to come. */
  function HeadOfWrappingFrame(m: Meta): Bytes {
    MetaLength(m);
    var meta := EncodeMeta(m);
    Header(RPCTYPE_REQUEST, 0x1_0000 - HEADER_LEN - |meta|, |meta|) + meta
  }

  /** A length that wraps to zero: the packet is dispatched before its body has come, with whatever lies behind
      the buffer for a body, and nothing is consumed. */
  lemma DispatchedNotConsumed(m: Meta, beyond: nat -> Byte)
    ensures var view := HeadOfWrappingFrame(m);
      var d := Drain(DecodeMeta, view, beyond);
      First(DecodeMeta, view).More? && |d.packets| == 1 && d.packets[0].meta == m && d.left == view
  {
    hide EncodeMeta, DecodeMeta, Header, Drain, HeaderOk, BodyLen, MetaLen;
    var meta, view := EncodeMeta(m), HeadOfWrappingFrame(m);
    MetaLength(m);
    MetaRoundTrip(m, []);
    assert meta + [] == meta;
    HeaderReadsBack(RPCTYPE_REQUEST, 0x1_0000 - HEADER_LEN - |meta|, |meta|, meta);
    assert view[HEADER_LEN..HEADER_LEN + |meta|] == meta;
    DrainStep(DecodeMeta, view, beyond);
  }

  lemma DrainStep(decode: MetaDecoder, view: Bytes, beyond: nat -> Byte)
    ensures Parse(decode, view, beyond).NeedMore? ==> Drain(decode, view, beyond) == Drained([], view, false)
    ensures Parse(decode, view, beyond).Refused? ==> Drain(decode, view, beyond) == Drained([], view, true)
    ensures Parse(decode, view, beyond).Dispatched? ==> Parse(decode, view, beyond).ret <= |view|
    ensures Parse(decode, view, beyond).Dispatched? ==>
      var n, p := Parse(decode, view, beyond).ret, Parse(decode, view, beyond).packet;
      var d := Drain(decode, view[n..], beyond);
      Drain(decode, view, beyond)
        == if n == 0 then Drained([p], view, false) else Drained([p] + d.packets, d.left, d.stop)
  {
  }

  /** On any bytes whatever, draining ends and leaves a suffix of what it was given. */
  lemma {:induction false} DrainLeavesSuffix(decode: MetaDecoder, view: Bytes, beyond: nat -> Byte)
    ensures var left := Drain(decode, view, beyond).left;
      |left| <= |view| && left == view[|view| - |left|..]
    decreases |view|
  {
    hide Parse;
    var r := Parse(decode, view, beyond);
    if r.Dispatched? && r.ret > 0 {
      DrainLeavesSuffix(decode, view[r.ret..], beyond);
    }
  }

  /** Where no announced length wraps, draining a buffer is reading it. */
  lemma {:induction false} DrainIsReadAll(decode: MetaDecoder, view: Bytes, beyond: nat -> Byte, limit: nat)
    requires FramesWithin(decode, view, limit) && limit < 0x1_0000
    ensures var r := ReadAll(decode, view);
      Drain(decode, view, beyond) == Drained(r.packets, r.rest, r.bad)
    decreases |view|
  {
    ParseIsFirst(decode, view, beyond);
    match First(decode, view)
    case More =>
    case Bad =>
    case Got(n, _) => DrainIsReadAll(decode, view[n..], beyond, limit);
  }
}
