/** `send_packet`: header, meta and body laid out in one fresh buffer. */
module Printing {
  import opened Base
  import opened Dispatcher
  import opened IOBufs
  import opened Framing

  /** The frame whose length fields are still zero, and the two patches that complete it. */
  lemma HeaderPatched(rpcType: Byte, bodyLen: nat, metaLen: nat, tail: Bytes)
    ensures Patched(Header(rpcType, 0, 0) + tail, 6, BigEndian(metaLen, 2)) == Header(rpcType, 0, metaLen) + tail
    ensures Patched(Header(rpcType, 0, metaLen) + tail, 4, BigEndian(bodyLen, 2))
         == Header(rpcType, bodyLen, metaLen) + tail
  {
    hide BigEndian;
    var zero, meta, body := BigEndian(0, 2), BigEndian(metaLen, 2), BigEndian(bodyLen, 2);
    var last := [rpcType, 1, 0x10, 0x23];
    var rest := last + tail;
    Regrouped(MARK, zero, zero, last, tail);
    Regrouped(MARK, zero, meta, last, tail);
    Regrouped(MARK, body, meta, last, tail);
    PatchedInside(MARK + zero, zero, meta, rest);
    PatchedInside(MARK, zero, body, meta + rest);
    hide Patched;
  }

  lemma Regrouped(a: Bytes, b: Bytes, c: Bytes, d: Bytes, e: Bytes)
    ensures a + b + c + d + e == (a + b) + c + (d + e)
    ensures a + b + c + d + e == a + b + (c + (d + e))
  {
  }

  lemma PatchedInside(front: Bytes, was: Bytes, now: Bytes, rest: Bytes)
    requires |was| == |now|
    ensures Patched(front + was + rest, |front|, now) == front + now + rest
  {
    var s := front + was + rest;
    assert s[..|front|] == front && s[|front| + |now|..] == rest;
  }

  function TypeByte(m: Meta): Byte {
    if m.Request? then RPCTYPE_REQUEST else RPCTYPE_RESPONSE
  }

  method PackHeader(rpcType: Byte) returns (pb: IOBuf)
    ensures fresh(pb) && fresh(pb.buff) && pb.Valid() && pb.View() == Shape(INITIAL_SIZE, 0, HEADER_LEN)
    ensures pb.Readable() == Header(rpcType, 0, 0)
  {
    pb := new IOBuf(INITIAL_SIZE);
    pb.Append(Header(rpcType, 0, 0));
  }

  method PackMeta(pb: IOBuf, meta: MetaRpc) returns (ok: bool)
    requires pb.Valid() && pb.View() == Shape(INITIAL_SIZE, 0, HEADER_LEN)
    requires meta.View().Some? ==> pb.Readable() == Header(TypeByte(meta.View().value), 0, 0)
    modifies pb, pb.buff
    ensures pb.Valid() && pb.buff == old(pb.buff) && ok == meta.View().Some?
    ensures ok ==> var m := EncodeMeta(meta.View().value);
      && pb.Readable() == Header(TypeByte(meta.View().value), 0, |m|) + m
      && pb.View() == Shape(INITIAL_SIZE, 0, HEADER_LEN + |m|)
  {
    hide EncodeMeta, Header, MetaRpc.View;
    if meta.View().Some? {
      MetaLength(meta.View().value);
    }
    var metaLen := meta.Serialize(pb.buff, pb.writeIndex);
    if metaLen <= 0 {
      return false;
    }
    ghost var m, rpcType := EncodeMeta(meta.View().value), TypeByte(meta.View().value);
    var _ := pb.HasWritten(metaLen);
    HeaderPatched(rpcType, 0, metaLen, m);
    pb.Overwrite(6, BigEndian(metaLen, 2));
    return true;
  }

  method PackBody(pb: IOBuf, body: Bytes, ghost rpcType: Byte, ghost m: Bytes)
    requires pb.Valid() && pb.readIndex == 0 && pb.writeIndex + |body| <= pb.buff.Length
    requires pb.Readable() == Header(rpcType, 0, |m|) + m
    modifies pb, pb.buff
    ensures pb.Valid() && pb.buff == old(pb.buff) && pb.Readable() == Header(rpcType, |body|, |m|) + m + body
  {
    hide Header;
    pb.Append(body);
    assert pb.Readable() == Header(rpcType, 0, |m|) + (m + body);
    HeaderPatched(rpcType, |body|, |m|, m + body);
    pb.Overwrite(4, BigEndian(|body|, 2));
    assert Header(rpcType, |body|, |m|) + (m + body) == Header(rpcType, |body|, |m|) + m + body;
  }

  /** `body` is what the message's own `serialize` produces within the space it is given; `sent` is what the
      connection answers. The buffer handed to the connection holds exactly the frame. */
  method SendPacket(meta: MetaRpc, body: Option<Bytes>, sent: int) returns (ret: int, pb: IOBuf)
    requires meta.View().Some? && body.Some? ==>
      HEADER_LEN + |EncodeMeta(meta.View().value)| + |body.value| <= INITIAL_SIZE
    ensures fresh(pb) && fresh(pb.buff) && pb.Valid()
    ensures ret == if meta.View().None? then -1 else if body == Some([]) then -2 else if sent != 0 then -3 else 0
    ensures ret == 0 || ret == -3 ==>
      pb.Readable() == FrameOf(Packet(meta.View().value, if body.Some? then body.value else []))
  {
    hide EncodeMeta, Header;
    pb := PackHeader(meta.rpcType % 256);
    var ok := PackMeta(pb, meta);
    if !ok {
      return -1, pb;
    }
    ghost var m := meta.View().value;
    assert pb.Readable() + [] == pb.Readable();
    if body.Some? {
      if body.value == [] {
        return -2, pb;
      }
      PackBody(pb, body.value, TypeByte(m), EncodeMeta(m));
    }
    return if sent != 0 then -3 else 0, pb;
  }
}
