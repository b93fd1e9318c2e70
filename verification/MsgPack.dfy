/** The MessagePack encodings this program uses: the int, str, bin and array format families. */
module MsgPack {
  import opened Base

  datatype Item = Int(v: int) | Str(s: Bytes) | Bin(b: Bytes)

  /** What the pack calls of the program can be handed. */
  predicate Packable(i: Item) {
    match i
    case Int(v) => -TWO_31 <= v < TWO_32
    case Str(s) => |s| < TWO_32
    case Bin(b) => |b| < TWO_32
  }

  /** Shortest form, as `msgpack_pack_int` and `msgpack_pack_uint32` choose it. */
  function PackInt(v: int): Bytes
    requires -TWO_31 <= v < TWO_32
  {
    if v < -0x8000 then [0xd2] + BigEndian(v + TWO_32, 4)
    else if v < -0x80 then [0xd1] + BigEndian(v + 0x1_0000, 2)
    else if v < -0x20 then [0xd0] + BigEndian(v + 0x100, 1)
    else if v < 0 then [v + 0x100]
    else if v < 0x80 then [v]
    else if v < 0x100 then [0xcc] + BigEndian(v, 1)
    else if v < 0x1_0000 then [0xcd] + BigEndian(v, 2)
    else [0xce] + BigEndian(v, 4)
  }

  function StrHeader(n: nat): Bytes
    requires n < TWO_32
  {
    if n < 32 then [0xa0 + n]
    else if n < 0x100 then [0xd9] + BigEndian(n, 1)
    else if n < 0x1_0000 then [0xda] + BigEndian(n, 2)
    else [0xdb] + BigEndian(n, 4)
  }

  function BinHeader(n: nat): Bytes
    requires n < TWO_32
  {
    if n < 0x100 then [0xc4] + BigEndian(n, 1)
    else if n < 0x1_0000 then [0xc5] + BigEndian(n, 2)
    else [0xc6] + BigEndian(n, 4)
  }

  function ArrayHeader(n: nat): Bytes
    requires n < TWO_32
  {
    if n < 16 then [0x90 + n]
    else if n < 0x1_0000 then [0xdc] + BigEndian(n, 2)
    else [0xdd] + BigEndian(n, 4)
  }

  function PackItem(i: Item): Bytes
    requires Packable(i)
  {
    match i
    case Int(v) => PackInt(v)
    case Str(s) => StrHeader(|s|) + s
    case Bin(b) => BinHeader(|b|) + b
  }

  function PackItems(items: seq<Item>): Bytes
    requires forall i <- items :: Packable(i)
  {
    if items == [] then [] else PackItem(items[0]) + PackItems(items[1..])
  }

  function PackArray(items: seq<Item>): Bytes
    requires |items| < TWO_32 && forall i <- items :: Packable(i)
  {
    ArrayHeader(|items|) + PackItems(items)
  }

  /** Reads a `w`-byte big-endian number; the second component is the unread rest. */
  function UnpackNat(b: Bytes, w: nat): Option<(nat, Bytes)> {
    if |b| < w then None else Some((FromBigEndian(b[..w]), b[w..]))
  }

  function UnpackPayload(b: Bytes, n: nat, str: bool): Option<(Item, Bytes)> {
    if |b| < n then None else Some((if str then Str(b[..n]) else Bin(b[..n]), b[n..]))
  }

  function UnpackSized(b: Bytes, w: nat, str: bool): Option<(Item, Bytes)> {
    match UnpackNat(b, w)
    case None => None
    case Some((n, rest)) => UnpackPayload(rest, n, str)
  }

  function UnpackInt(b: Bytes, w: nat, signed: bool): Option<(Item, Bytes)> {
    match UnpackNat(b, w)
    case None => None
    case Some((n, rest)) =>
      Some((Int(if signed && 2 * n >= Pow256(w) then n - Pow256(w) else n), rest))
  }

  function UnpackItem(b: Bytes): Option<(Item, Bytes)> {
    if b == [] then None else
    var t, r := b[0], b[1..];
    if t < 0x80 then Some((Int(t), r))
    else if 0xe0 <= t then Some((Int(t as int - 0x100), r))
    else if 0xa0 <= t < 0xc0 then UnpackPayload(r, t - 0xa0, true)
    else if t == 0xc4 then UnpackSized(r, 1, false)
    else if t == 0xc5 then UnpackSized(r, 2, false)
    else if t == 0xc6 then UnpackSized(r, 4, false)
    else if t == 0xcc then UnpackInt(r, 1, false)
    else if t == 0xcd then UnpackInt(r, 2, false)
    else if t == 0xce then UnpackInt(r, 4, false)
    else if t == 0xcf then UnpackInt(r, 8, false)
    else if t == 0xd0 then UnpackInt(r, 1, true)
    else if t == 0xd1 then UnpackInt(r, 2, true)
    else if t == 0xd2 then UnpackInt(r, 4, true)
    else if t == 0xd3 then UnpackInt(r, 8, true)
    else if t == 0xd9 then UnpackSized(r, 1, true)
    else if t == 0xda then UnpackSized(r, 2, true)
    else if t == 0xdb then UnpackSized(r, 4, true)
    else None
  }

  function UnpackItems(b: Bytes, n: nat): Option<(seq<Item>, Bytes)> {
    if n == 0 then Some(([], b)) else
    match UnpackItem(b)
    case None => None
    case Some((i, rest)) =>
      match UnpackItems(rest, n - 1)
      case None => None
      case Some((more, tail)) => Some(([i] + more, tail))
  }

  function UnpackCount(b: Bytes): Option<(nat, Bytes)> {
    if b == [] then None
    else if 0x90 <= b[0] < 0xa0 then Some((b[0] - 0x90, b[1..]))
    else if b[0] == 0xdc then UnpackNat(b[1..], 2)
    else if b[0] == 0xdd then UnpackNat(b[1..], 4)
    else None
  }

  /** `msgpack_unpack_next` on one array of scalars; bytes after the array are ignored. */
  function UnpackArray(b: Bytes): Option<seq<Item>> {
    match UnpackCount(b)
    case None => None
    case Some((n, rest)) =>
      match UnpackItems(rest, n)
      case None => None
      case Some((items, _)) => Some(items)
  }

  // ---------------------------------------------------------------- any object at all

  function SkipPayload(b: Bytes, n: nat): Option<(Bytes, nat)> {
    if |b| < n then None else Some((b[n..], 0))
  }

  /** A payload with its length in front, in `w` bytes, and `more` bytes besides. */
  function SkipSized(b: Bytes, w: nat, more: nat): Option<(Bytes, nat)> {
    match UnpackNat(b, w)
    case None => None
    case Some((n, rest)) => SkipPayload(rest, n + more)
  }

  /** A count of elements, each `times` objects. */
  function SkipCount(b: Bytes, w: nat, times: nat): Option<(Bytes, nat)> {
    match UnpackNat(b, w)
    case None => None
    case Some((n, rest)) => Some((rest, times * n))
  }

  /** The bytes behind the head of an object of any family, and how many objects it still contains. */
  function SkipHead(b: Bytes): (r: Option<(Bytes, nat)>)
    requires b != []
    ensures r.Some? ==> |r.value.0| < |b|
  {
    var t, r := b[0], b[1..];
    if t < 0x80 || 0xe0 <= t || t in {0xc0, 0xc2, 0xc3} then Some((r, 0))
    else if t < 0x90 then Some((r, 2 * (t - 0x80)))
    else if t < 0xa0 then Some((r, t - 0x90))
    else if t < 0xc0 then SkipPayload(r, t - 0xa0)
    else if t in {0xc4, 0xd9} then SkipSized(r, 1, 0)
    else if t in {0xc5, 0xda} then SkipSized(r, 2, 0)
    else if t in {0xc6, 0xdb} then SkipSized(r, 4, 0)
    else if t == 0xc7 then SkipSized(r, 1, 1)
    else if t == 0xc8 then SkipSized(r, 2, 1)
    else if t == 0xc9 then SkipSized(r, 4, 1)
    else if t in {0xcc, 0xd0} then SkipPayload(r, 1)
    else if t in {0xcd, 0xd1, 0xd4} then SkipPayload(r, 2)
    else if t == 0xd5 then SkipPayload(r, 3)
    else if t in {0xca, 0xce, 0xd2} then SkipPayload(r, 4)
    else if t == 0xd6 then SkipPayload(r, 5)
    else if t in {0xcb, 0xcf, 0xd3} then SkipPayload(r, 8)
    else if t == 0xd7 then SkipPayload(r, 9)
    else if t == 0xd8 then SkipPayload(r, 17)
    else if t == 0xdc then SkipCount(r, 2, 1)
    else if t == 0xdd then SkipCount(r, 4, 1)
    else if t == 0xde then SkipCount(r, 2, 2)
    else if t == 0xdf then SkipCount(r, 4, 2)
    else None
  }

  /** `b` begins with `n` complete objects. */
  predicate Complete(b: Bytes, n: nat)
    decreases |b|
  {
    n == 0 || (b != [] && SkipHead(b).Some? && Complete(SkipHead(b).value.0, n - 1 + SkipHead(b).value.1))
  }

  /** A complete object that is not an array. */
  predicate IsNonArray(b: Bytes) {
    Complete(b, 1) && !(0x90 <= b[0] < 0xa0) && b[0] != 0xdc && b[0] != 0xdd
  }

  lemma ItemIsSkipped(b: Bytes)
    requires UnpackItem(b).Some?
    ensures b != [] && SkipHead(b) == Some((UnpackItem(b).value.1, 0))
  {
    hide FromBigEndian;
  }

  /** What is read as a number, string or binary is such an object. */
  lemma ItemIsNonArray(b: Bytes)
    requires UnpackItem(b).Some?
    ensures IsNonArray(b)
  {
    ItemIsSkipped(b);
    assert !(0x90 <= b[0] < 0xa0) && b[0] != 0xdc && b[0] != 0xdd;
    hide SkipHead, UnpackItem;
    assert Complete(UnpackItem(b).value.1, 0);
  }

  /** Packed items are as many complete objects. */
  lemma {:induction false} ItemsAreComplete(items: seq<Item>, tail: Bytes)
    requires forall i <- items :: Packable(i)
    ensures Complete(PackItems(items) + tail, |items|)
  {
    hide PackItem, UnpackItem, SkipHead;
    if items != [] {
      var rest := PackItems(items[1..]) + tail;
      assert PackItems(items) + tail == PackItem(items[0]) + rest;
      ItemRoundTrip(items[0], rest);
      ItemIsSkipped(PackItem(items[0]) + rest);
      ItemsAreComplete(items[1..], tail);
    }
  }

  /** And so is a map of `k` keys and values. */
  lemma MapIsNonArray(k: nat, rest: Bytes)
    requires k < 16 && Complete(rest, 2 * k)
    ensures IsNonArray([0x80 + k] + rest)
  {
    var b := [0x80 + k] + rest;
    MapHead(b, k);
    assert b[1..] == rest;
    hide SkipHead;
  }

  lemma MapHead(b: Bytes, k: nat)
    requires k < 16 && b != [] && b[0] == 0x80 + k
    ensures SkipHead(b) == Some((b[1..], 2 * k))
  {
    hide UnpackNat, SkipPayload, SkipSized, SkipCount;
  }

  // ---------------------------------------------------------------- round trips

  lemma UnpackNatOf(n: nat, w: nat, tail: Bytes)
    requires n < Pow256(w)
    ensures UnpackNat(BigEndian(n, w) + tail, w) == Some((n, tail))
  {
    BigEndianRoundTrip(n, w);
    var b := BigEndian(n, w) + tail;
    assert b[..w] == BigEndian(n, w) && b[w..] == tail;
  }

  /** After a one-byte tag comes the number, then the tail. */
  lemma UnpackTagged(tag: Byte, n: nat, w: nat, tail: Bytes)
    requires n < Pow256(w)
    ensures ([tag] + BigEndian(n, w) + tail)[0] == tag
    ensures UnpackNat(([tag] + BigEndian(n, w) + tail)[1..], w) == Some((n, tail))
  {
    UnpackNatOf(n, w, tail);
    assert ([tag] + BigEndian(n, w) + tail)[1..] == BigEndian(n, w) + tail;
  }

  lemma IntRoundTrip(v: int, tail: Bytes)
    requires -TWO_31 <= v < TWO_32
    ensures UnpackItem(PackInt(v) + tail) == Some((Int(v), tail))
  {
    Pow256Values();
    if v < -0x8000 { UnpackTagged(0xd2, v + TWO_32, 4, tail); }
    else if v < -0x80 { UnpackTagged(0xd1, v + 0x1_0000, 2, tail); }
    else if v < -0x20 { UnpackTagged(0xd0, v + 0x100, 1, tail); }
    else if v < 0x80 { assert (PackInt(v) + tail)[1..] == tail; }
    else if v < 0x100 { UnpackTagged(0xcc, v, 1, tail); }
    else if v < 0x1_0000 { UnpackTagged(0xcd, v, 2, tail); }
    else { UnpackTagged(0xce, v, 4, tail); }
  }

  lemma StrRoundTrip(s: Bytes, tail: Bytes)
    requires |s| < TWO_32
    ensures UnpackItem(StrHeader(|s|) + s + tail) == Some((Str(s), tail))
  {
    Pow256Values();
    var n := |s|;
    assert StrHeader(n) + s + tail == StrHeader(n) + (s + tail);
    assert (s + tail)[..n] == s && (s + tail)[n..] == tail;
    if n < 32 { assert ([0xa0 + n] + (s + tail))[1..] == s + tail; }
    else if n < 0x100 { UnpackTagged(0xd9, n, 1, s + tail); }
    else if n < 0x1_0000 { UnpackTagged(0xda, n, 2, s + tail); }
    else { UnpackTagged(0xdb, n, 4, s + tail); }
  }

  lemma BinRoundTrip(s: Bytes, tail: Bytes)
    requires |s| < TWO_32
    ensures UnpackItem(BinHeader(|s|) + s + tail) == Some((Bin(s), tail))
  {
    Pow256Values();
    var n := |s|;
    assert BinHeader(n) + s + tail == BinHeader(n) + (s + tail);
    assert (s + tail)[..n] == s && (s + tail)[n..] == tail;
    if n < 0x100 { UnpackTagged(0xc4, n, 1, s + tail); }
    else if n < 0x1_0000 { UnpackTagged(0xc5, n, 2, s + tail); }
    else { UnpackTagged(0xc6, n, 4, s + tail); }
  }

  lemma ItemRoundTrip(i: Item, tail: Bytes)
    requires Packable(i)
    ensures UnpackItem(PackItem(i) + tail) == Some((i, tail))
  {
    match i
    case Int(v) => IntRoundTrip(v, tail);
    case Str(s) => StrRoundTrip(s, tail);
    case Bin(b) => BinRoundTrip(b, tail);
  }

  lemma {:induction false} ItemsRoundTrip(items: seq<Item>, tail: Bytes)
    requires forall i <- items :: Packable(i)
    ensures UnpackItems(PackItems(items) + tail, |items|) == Some((items, tail))
  {
    hide PackItem, UnpackItem;
    if items == [] {
      assert PackItems(items) + tail == tail;
    } else {
      var first, rest := PackItem(items[0]), PackItems(items[1..]) + tail;
      assert PackItems(items) == first + PackItems(items[1..]);
      assert PackItems(items) + tail == first + rest;
      ItemRoundTrip(items[0], rest);
      ItemsRoundTrip(items[1..], tail);
      assert [items[0]] + items[1..] == items;
    }
  }

  /** Unpacking inverts packing for every array of scalars, whatever bytes follow it. */
  lemma ArrayRoundTrip(items: seq<Item>, tail: Bytes)
    requires |items| < TWO_32 && forall i <- items :: Packable(i)
    ensures UnpackArray(PackArray(items) + tail) == Some(items)
  {
    Pow256Values();
    var n, rest := |items|, PackItems(items) + tail;
    assert PackArray(items) + tail == ArrayHeader(n) + rest;
    ItemsRoundTrip(items, tail);
    if n < 16 { assert ([0x90 + n] + rest)[1..] == rest; }
    else if n < 0x1_0000 { UnpackTagged(0xdc, n, 2, rest); }
    else { UnpackTagged(0xdd, n, 4, rest); }
  }

  // ---------------------------------------------------------------- shortest forms

  /** A number read from `w` bytes is below 256 to the `w`. */
  lemma {:induction false} ReadsBelow(b: Bytes, w: nat)
    requires |b| == w
    ensures FromBigEndian(b) < Pow256(w)
    decreases w
  {
    if w > 0 {
      ReadsBelow(b[..w - 1], w - 1);
    }
  }

  /** What a number read from `w` bytes and nothing behind them can be. */
  lemma IntOfWidth(r: Bytes, w: nat, signed: bool, v: int)
    requires UnpackInt(r, w, signed) == Some((Int(v), [])) && w in {1, 2, 4, 8}
    ensures |r| == w && -(Pow256(w) / 2) <= v < Pow256(w)
  {
    assert |r[w..]| == 0 && r[..w] == r;
    ReadsBelow(r, w);
  }

  /** The length of an encoding bounds what it can stand for. */
  lemma IntOfLength(e: Bytes, v: int)
    requires UnpackItem(e) == Some((Int(v), []))
    ensures |e| in {1, 2, 3, 5, 9}
    ensures |e| == 1 ==> -0x20 <= v < 0x80
    ensures |e| == 2 ==> -0x80 <= v < 0x100
    ensures |e| == 3 ==> -0x8000 <= v < 0x1_0000
  {
    Pow256Values();
    var t, r := e[0], e[1..];
    if t in {0xcc, 0xd0} { IntOfWidth(r, 1, t == 0xd0, v); }
    else if t in {0xcd, 0xd1} { IntOfWidth(r, 2, t == 0xd1, v); }
    else if t in {0xce, 0xd2} { IntOfWidth(r, 4, t == 0xd2, v); }
    else if t in {0xcf, 0xd3} { IntOfWidth(r, 8, t == 0xd3, v); }
    else { assert r == []; }
  }

  /** No encoding of a number is shorter than the one chosen. */
  lemma PackIntIsShortest(v: int, e: Bytes)
    requires -TWO_31 <= v < TWO_32 && UnpackItem(e) == Some((Int(v), []))
    ensures |PackInt(v)| <= |e|
  {
    IntOfLength(e, v);
    hide UnpackItem;
  }
}
