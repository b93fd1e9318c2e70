/** Packet metadata and the two sample messages: their wire form and the code that writes and reads it. */
module Dispatcher {
  import opened Base
  import opened MsgPack

  const RPCTYPE_REQUEST := 1
  const RPCTYPE_RESPONSE := 2

  datatype Meta =
    | Request(id: U32, service: Name, methodName: Name)
    | Response(id: U32, code: I32, text: Name)

  datatype Decoded<+T> = Ok(value: T) | Failed(code: int)

  function MetaItems(m: Meta): (items: seq<Item>)
    ensures |items| == 4 && forall i <- items :: Packable(i)
  {
    match m
    case Request(id, service, methodName) => [Int(RPCTYPE_REQUEST), Int(id), Str(service), Str(methodName)]
    case Response(id, code, text) => [Int(RPCTYPE_RESPONSE), Int(id), Int(code), Str(text)]
  }

  function EncodeMeta(m: Meta): Bytes {
    PackArray(MetaItems(m))
  }

  /** A 64-bit value stored into a 32-bit field. */
  function Low32(v: int): U32 { v % TWO_32 }
  function Signed32(v: int): I32 { (v + TWO_31) % TWO_32 - TWO_31 }

  /** `strncpy` of a str or bin object into a zeroed `char[64]`; None where the field would not end in a NUL. */
  function AsName(i: Item): Option<Name> {
    if i.Int? then None else
    var s := if i.Str? then i.s else i.b;
    if |s| <= 64 && |CString(s)| <= 63 then Some(CString(s)) else None
  }

  /** What the receiver reads from the first four elements of the array; a type field other than request or
      response is refused with -2. */
  function DecodeMeta(b: Bytes): (r: Decoded<Meta>)
    ensures r.Failed? ==> r.code == -1 || r.code == -2
  {
    match UnpackArray(b)
    case None => Failed(-1)
    case Some(items) =>
      if |items| < 4 || !items[0].Int? || !items[1].Int? then Failed(-1) else
      var id := Low32(items[1].v);
      if Low32(items[0].v) == RPCTYPE_REQUEST then
        match (AsName(items[2]), AsName(items[3])) {
          case (Some(service), Some(methodName)) => Ok(Request(id, service, methodName))
          case _ => Failed(-1)
        }
      else if Low32(items[0].v) == RPCTYPE_RESPONSE then
        if !items[2].Int? then Failed(-1) else
        match AsName(items[3]) {
          case Some(text) => Ok(Response(id, Signed32(items[2].v), text))
          case None => Failed(-1)
        }
      else Failed(-2)
  }

  /** A NUL-free string of at most 63 bytes survives the copy into a `char[64]`. */
  lemma AsNameOf(n: Name)
    ensures AsName(Str(n)) == Some(n) && AsName(Bin(n)) == Some(n)
  {
    CStringUnique(n, n);
  }

  /** Every meta is read back as it was written, whatever follows it in the packet. */
  lemma MetaRoundTrip(m: Meta, tail: Bytes)
    ensures DecodeMeta(EncodeMeta(m) + tail) == Ok(m)
  {
    hide UnpackArray, PackArray;
    ArrayRoundTrip(MetaItems(m), tail);
    match m
    case Request(_, service, methodName) => AsNameOf(service); AsNameOf(methodName);
    case Response(_, _, text) => AsNameOf(text);
  }

  /** A type field other than those two is refused with -2, whatever the other fields say. */
  lemma UnknownTypeRefused(rpcType: int, id: U32, third: Item, fourth: Item, tail: Bytes)
    requires -TWO_31 <= rpcType < TWO_32 && rpcType != 1 && rpcType != 2 && Packable(third) && Packable(fourth)
    ensures DecodeMeta(PackArray([Int(rpcType), Int(id), third, fourth]) + tail) == Failed(-2)
  {
    hide UnpackArray, PackArray;
    ArrayRoundTrip([Int(rpcType), Int(id), third, fourth], tail);
  }

  /** No wire form of a meta is a proper or improper prefix of another meta's. */
  lemma MetaPrefixFree(m: Meta, m': Meta, tail: Bytes)
    requires EncodeMeta(m') == EncodeMeta(m) + tail
    ensures m == m'
  {
    MetaRoundTrip(m, tail);
    MetaRoundTrip(m', []);
    assert EncodeMeta(m') + [] == EncodeMeta(m');
  }

  lemma PackItemsCons(items: seq<Item>, rest: seq<Item>)
    requires items != [] && rest == items[1..] && forall i <- items :: Packable(i)
    ensures PackItems(items) == PackItem(items[0]) + PackItems(rest)
  {
  }

  lemma Associate(a: Bytes, b: Bytes, c: Bytes, d: Bytes, e: Bytes)
    ensures a + (b + (c + (d + e))) == a + b + c + d + e
  {
  }

  lemma PackArray4(items: seq<Item>)
    requires |items| == 4 && forall i <- items :: Packable(i)
    ensures PackArray(items)
         == ArrayHeader(4) + PackItem(items[0]) + PackItem(items[1]) + PackItem(items[2]) + PackItem(items[3])
  {
    PackItemsCons(items, items[1..]);
    PackItemsCons(items[1..], items[2..]);
    PackItemsCons(items[2..], items[3..]);
    PackItemsCons(items[3..], []);
    Associate(ArrayHeader(4), PackItem(items[0]), PackItem(items[1]), PackItem(items[2]), PackItem(items[3]) + []);
    assert PackItem(items[3]) + [] == PackItem(items[3]);
  }

  lemma PackArray2(items: seq<Item>)
    requires |items| == 2 && forall i <- items :: Packable(i)
    ensures PackArray(items) == ArrayHeader(2) + PackItem(items[0]) + PackItem(items[1])
  {
    PackItemsCons(items, items[1..]);
    PackItemsCons(items[1..], []);
    assert PackItem(items[1]) + [] == PackItem(items[1]);
  }

  /** The longest request meta takes 137 bytes, the longest response meta 77; neither is empty. */
  lemma MetaLength(m: Meta)
    ensures 0 < |EncodeMeta(m)| <= if m.Request? then 137 else 77
  {
    PackArray4(MetaItems(m));
  }

  /** Both bounds are reached. */
  lemma MetaLengthTight(m: Meta)
    requires m.id >= 0x1_0000
    requires m.Request? ==> |m.service| == 63 && |m.methodName| == 63
    requires m.Response? ==> (m.code < -0x8000 || m.code >= 0x1_0000) && |m.text| == 63
    ensures |EncodeMeta(m)| == if m.Request? then 137 else 77
  {
    PackArray4(MetaItems(m));
  }

  /** The bytes of a request meta with small fields: an array of four, the type, the id, and both names. */
  lemma RequestInBytes(id: U32, service: Name, methodName: Name)
    requires id < 128 && |service| < 32 && |methodName| < 32
    ensures EncodeMeta(Request(id, service, methodName))
         == [0x94, 1, id] + ([0xa0 + |service|] + service) + ([0xa0 + |methodName|] + methodName)
  {
    var items := MetaItems(Request(id, service, methodName));
    PackArray4(items);
    assert PackItem(items[2]) == [0xa0 + |service|] + service;
    assert PackItem(items[3]) == [0xa0 + |methodName|] + methodName;
    assert ArrayHeader(4) + PackItem(items[0]) + PackItem(items[1]) == [0x94, 1, id];
  }

  /** And of a response meta: the type, the id, the code, and the text. */
  lemma ResponseInBytes(id: U32, code: I32, text: Name)
    requires id < 128 && -32 <= code < 128 && |text| < 32
    ensures EncodeMeta(Response(id, code, text)) == [0x94, 2, id, code % 256] + ([0xa0 + |text|] + text)
  {
    var items := MetaItems(Response(id, code, text));
    PackArray4(items);
    assert PackItem(items[3]) == [0xa0 + |text|] + text;
    assert ArrayHeader(4) + PackItem(items[0]) + PackItem(items[1]) + PackItem(items[2]) == [0x94, 2, id, code % 256];
  }

  // ---------------------------------------------------------------- the writer

  /** The cursor that `msgpack_user_write` appends through; `content` is what was appended so far. */
  class UserBuf {
    const buf: array<Byte>
    const start: nat
    var writeLen: nat
    ghost const origin: Bytes
    ghost var content: Bytes

    ghost predicate Valid()
      reads this, buf
    {
      && writeLen == |content| && |origin| == buf.Length && start + |content| <= |origin|
      && forall k :: 0 <= k < buf.Length ==>
           buf[k] == if start <= k < start + |content| then content[k - start] else origin[k]
    }

    constructor (buf: array<Byte>, start: nat)
      requires start <= buf.Length
      ensures Valid() && this.buf == buf && this.start == start && content == [] && origin == buf[..]
    {
      this.buf, this.start, writeLen, origin, content := buf, start, 0, buf[..], [];
    }

    method Write(data: Bytes)
      requires Valid() && start + |content| + |data| <= buf.Length
      modifies `writeLen, `content, buf
      ensures Valid() && content == old(content) + data
    {
      CopyInto(buf, start + writeLen, data);
      writeLen := writeLen + |data|;
      content := content + data;
    }
  }

  /** Five appends through one cursor. */
  method AppendFive(buf: array<Byte>, start: nat, a: Bytes, b: Bytes, c: Bytes, d: Bytes, e: Bytes) returns (len: nat)
    requires start + |a| + |b| + |c| + |d| + |e| <= buf.Length
    modifies buf
    ensures len == |a| + |b| + |c| + |d| + |e|
    ensures buf[..] == Patched(old(buf[..]), start, a + b + c + d + e)
  {
    var tmp := new UserBuf(buf, start);
    tmp.Write(a);
    tmp.Write(b);
    tmp.Write(c);
    tmp.Write(d);
    tmp.Write(e);
    len := tmp.writeLen;
  }

  /** Three appends through one cursor. */
  method AppendThree(buf: array<Byte>, start: nat, a: Bytes, b: Bytes, c: Bytes) returns (len: nat)
    requires start + |a| + |b| + |c| <= buf.Length
    modifies buf
    ensures len == |a| + |b| + |c|
    ensures buf[..] == Patched(old(buf[..]), start, a + b + c)
  {
    var tmp := new UserBuf(buf, start);
    tmp.Write(a);
    tmp.Write(b);
    tmp.Write(c);
    len := tmp.writeLen;
  }

  /** The struct `Meta_Rpc`. */
  class MetaRpc {
    var rpcType: U32
    var relationId: U32
    var service: Name
    var methodName: Name
    var code: I32
    var text: Name

    /** `memset(&meta, 0, sizeof(meta))` */
    constructor ()
      ensures Zeroed()
    {
      rpcType, relationId, code := 0, 0, 0;
      service, methodName, text := [], [], [];
    }

    predicate Zeroed()
      reads this
    {
      rpcType == relationId == code == 0 && service == methodName == text == []
    }

    function View(): Option<Meta>
      reads this
    {
      if rpcType == RPCTYPE_REQUEST then Some(Request(relationId, service, methodName))
      else if rpcType == RPCTYPE_RESPONSE then Some(Response(relationId, code, text))
      else None
    }

    /** `serialize_meta`: writes at `buf + start`; the caller provides the space, nothing checks it. */
    method Serialize(buf: array<Byte>, start: nat) returns (ret: int)
      requires View().Some? ==> start + |EncodeMeta(View().value)| <= buf.Length
      modifies buf
      ensures View().None? ==> ret == -1 && buf[..] == old(buf[..])
      ensures View().Some? ==> ret == |EncodeMeta(View().value)|
      ensures View().Some? ==> buf[..] == Patched(old(buf[..]), start, EncodeMeta(View().value))
    {
      if rpcType != RPCTYPE_REQUEST && rpcType != RPCTYPE_RESPONSE {
        return -1;
      }
      var third, fourth := PackInt(code), StrHeader(|text|) + text;
      if rpcType == RPCTYPE_REQUEST {
        third, fourth := StrHeader(|service|) + service, StrHeader(|methodName|) + methodName;
      }
      PackArray4(MetaItems(View().value));
      ret := AppendFive(buf, start, ArrayHeader(4), PackInt(rpcType), PackInt(relationId), third, fourth);
    }

    /** `deserialize_meta` into a struct the caller has zeroed. */
    method Deserialize(b: Bytes) returns (ret: int)
      requires Zeroed()
      modifies this
      ensures match DecodeMeta(b)
              case Ok(m) => ret == 0 && View() == Some(m)
              case Failed(code) => ret == code
    {
      var items := UnpackArray(b);
      if items.None? || |items.value| < 4 || !items.value[0].Int? || !items.value[1].Int? {
        return -1;
      }
      rpcType := Low32(items.value[0].v);
      relationId := Low32(items.value[1].v);
      var last := AsName(items.value[3]);
      if rpcType == RPCTYPE_REQUEST {
        var third := AsName(items.value[2]);
        if third.None? || last.None? { return -1; }
        service, methodName := third.value, last.value;
      } else if rpcType == RPCTYPE_RESPONSE {
        if !items.value[2].Int? || last.None? { return -1; }
        code, text := Signed32(items.value[2].v), last.value;
      } else {
        return -2;
      }
      return 0;
    }
  }

  // ---------------------------------------------------------------- Msg_Echo and Msg_Notify

  function EncodeText(logId: I32, text: Bytes): Bytes
    requires |text| < TWO_32
  {
    PackArray([Int(logId), Bin(text)])
  }

  /** The log id and the raw bytes that are copied over the front of `msg`; -2 for anything but an array. */
  function DecodeText(b: Bytes): Decoded<(I32, Bytes)> {
    match UnpackArray(b)
    case None => Failed(if IsNonArray(b) then -2 else -1)
    case Some(items) =>
      if |items| < 2 || !items[0].Int? || items[1].Int? then Failed(-1) else
      var raw := if items[1].Str? then items[1].s else items[1].b;
      if |raw| > 64 then Failed(-1) else Ok((Signed32(items[0].v), raw))
  }

  lemma TextRoundTrip(logId: I32, text: Bytes, tail: Bytes)
    requires |text| <= 64
    ensures DecodeText(EncodeText(logId, text) + tail) == Ok((logId, text))
  {
    ArrayRoundTrip([Int(logId), Bin(text)], tail);
  }

  /** A complete object of another kind where the array should be is refused with the code for that: a number,
      string or binary, */
  lemma ScalarBodyRefused(i: Item, tail: Bytes)
    requires Packable(i)
    ensures DecodeText(PackItem(i) + tail) == Failed(-2)
  {
    ItemRoundTrip(i, tail);
    ItemIsNonArray(PackItem(i) + tail);
    hide UnpackItem, BigEndian, PackItem, IsNonArray;
    NonArrayIsNotUnpacked(PackItem(i) + tail);
  }

  /** or a map of such things. */
  lemma MapBodyRefused(k: nat, pairs: seq<Item>, tail: Bytes)
    requires k < 16 && |pairs| == 2 * k && forall p <- pairs :: Packable(p)
    ensures DecodeText([0x80 + k] + (PackItems(pairs) + tail)) == Failed(-2)
  {
    ItemsAreComplete(pairs, tail);
    hide UnpackItem, PackItems, Complete, IsNonArray, DecodeText;
    MapIsNonArray(k, PackItems(pairs) + tail);
    NonArrayIsNotUnpacked([0x80 + k] + (PackItems(pairs) + tail));
  }

  lemma NonArrayIsNotUnpacked(b: Bytes)
    requires IsNonArray(b)
    ensures DecodeText(b) == Failed(-2)
  {
    hide Complete;
    assert UnpackCount(b).None?;
  }

  /** An echo or notify body takes at most 71 bytes. */
  lemma TextLength(logId: I32, text: Name)
    ensures 0 < |EncodeText(logId, text)| <= 71
  {
    PackArray2([Int(logId), Bin(text)]);
  }

  lemma SmallBinHeader(n: nat)
    requires n < 64
    ensures BinHeader(n) == [0xc4, n]
  {
    assert BigEndian(n, 1) == BigEndian(0, 0) + [n];
  }

  /** The bytes of a body with a small log id: an array of two, the id, and the text as a binary. */
  lemma TextInBytes(logId: I32, text: Name)
    requires 0 <= logId < 128
    ensures EncodeText(logId, text) == [0x92, logId, 0xc4, |text|] + text
  {
    hide BigEndian, BinHeader;
    PackArray2([Int(logId), Bin(text)]);
    SmallBinHeader(|text|);
    assert ArrayHeader(2) + PackItem(Int(logId)) == [0x92, logId];
    hide ArrayHeader, PackInt, PackArray;
  }

  /** The copy adds no terminator: the string arrives exactly when the target already held a NUL behind it. */
  lemma TextArrives(text: Name, target: Bytes)
    requires |target| == 64
    ensures CString(Patched(target, 0, text)) == text <==> target[|text|] == 0
  {
    var after := Patched(target, 0, text);
    assert after[..|text|] == text && after[|text|] == target[|text|];
    if target[|text|] == 0 { CStringUnique(after, text); }
  }

  /** The class behind both `Msg_Echo` and `Msg_Notify`, which share their code. */
  class TextMessage {
    var logId: I32
    const msg: array<Byte>

    constructor ()
      ensures msg.Length == 64 && fresh(msg)
    {
      logId, msg := 0, new Byte[64](_ => 0);
    }

    method Serialize(buf: array<Byte>, start: nat) returns (ret: int)
      requires msg.Length == 64 && 0 in msg[..] && msg != buf
      requires start + |EncodeText(logId, CString(msg[..]))| <= buf.Length
      modifies buf
      ensures ret == |EncodeText(logId, CString(msg[..]))|
      ensures buf[..] == Patched(old(buf[..]), start, EncodeText(logId, CString(msg[..])))
    {
      var text := CString(msg[..]);
      var second := BinHeader(|text|) + text;
      PackArray2([Int(logId), Bin(text)]);
      ret := AppendThree(buf, start, ArrayHeader(2), PackInt(logId), second);
    }

    method Deserialize(b: Bytes) returns (ret: int)
      requires msg.Length == 64
      modifies this, msg
      ensures match DecodeText(b)
              case Failed(code) => ret == code && logId == old(logId) && msg[..] == old(msg[..])
              case Ok((id, raw)) => ret == 0 && logId == id && msg[..] == Patched(old(msg[..]), 0, raw)
    {
      var r := DecodeText(b);
      if r.Failed? {
        return r.code;
      }
      logId := r.value.0;
      CopyInto(msg, 0, r.value.1);
      return 0;
    }
  }

}
