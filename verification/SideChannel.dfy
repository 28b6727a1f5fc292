/**
 The data frames two Tier-S providers exchange: a tag byte and a little-endian body.
 */
module SideChannel {
  import opened Words

  datatype Frame =
    | WriteRq(va: U64, token: U32, len: U32, req: U32, data: seq<Byte>)
    | WriteAck(req: U32, status: U32)
    | SendMsg(dst: U32, len: U32, data: seq<Byte>)
    | ReadRq(va: U64, token: U32, len: U32, req: U32, cna: U32)
    | ReadRsp(req: U32, len: U32, status: U32, data: seq<Byte>)

  /** The largest body a frame may have: a 64 KB datagram less its type and tag bytes. */
  const MAX_BODY := 0x1_0000 - 2

  function Tag(f: Frame): Byte {
    match f
    case WriteRq(_, _, _, _, _) => 'W' as Byte
    case WriteAck(_, _) => 'A' as Byte
    case SendMsg(_, _, _) => 'S' as Byte
    case ReadRq(_, _, _, _, _) => 'R' as Byte
    case ReadRsp(_, _, _, _) => 'r' as Byte
  }

  function Body(f: Frame): seq<Byte> {
    match f
    case WriteRq(va, token, len, req, data) => Le(8, va) + Le(4, token) + Le(4, len) + Le(4, req) + data
    case WriteAck(req, status) => Le(4, req) + Le(4, status)
    case SendMsg(dst, len, data) => Le(4, dst) + Le(4, len) + data
    case ReadRq(va, token, len, req, cna) => Le(8, va) + Le(4, token) + Le(4, len) + Le(4, req) + Le(4, cna)
    case ReadRsp(req, len, status, data) => Le(4, req) + Le(4, len) + Le(4, status) + data
  }

  /** What ou_data_cb reads out of a frame; None when it counts the frame as malformed. */
  function Parse(tag: Byte, buf: seq<Byte>): (p: Option<Frame>)
    ensures p.Some? && p.value.SendMsg? ==> p.value.len <= |p.value.data|
  {
    if tag == 'W' as Byte then
      if |buf| < 20 then None
      else Some(WriteRq(Get64(buf, 0), Get32(buf, 8), Get32(buf, 12), Get32(buf, 16), buf[20..]))
    else if tag == 'A' as Byte then
      if |buf| < 8 then None else Some(WriteAck(Get32(buf, 0), Get32(buf, 4)))
    else if tag == 'S' as Byte then
      if |buf| < 8 || Get32(buf, 4) > |buf| - 8 then None
      else Some(SendMsg(Get32(buf, 0), Get32(buf, 4), buf[8..]))
    else if tag == 'R' as Byte then
      if |buf| < 24 then None
      else Some(ReadRq(Get64(buf, 0), Get32(buf, 8), Get32(buf, 12), Get32(buf, 16), Get32(buf, 20)))
    else if tag == 'r' as Byte then
      if |buf| < 12 then None else Some(ReadRsp(Get32(buf, 0), Get32(buf, 4), Get32(buf, 8), buf[12..]))
    else None
  }

  /** Where the fields are on the wire, byte by byte. */
  lemma FrameLayout(f: Frame)
    ensures var b := Body(f);
      match f
      case WriteRq(va, token, len, req, data) =>
        && Tag(f) == 0x57 && |b| == 20 + |data| && b[0..8] == Le(8, va) && b[8..12] == Le(4, token)
        && b[12..16] == Le(4, len) && b[16..20] == Le(4, req) && b[20..] == data
      case WriteAck(req, status) =>
        Tag(f) == 0x41 && |b| == 8 && b[0..4] == Le(4, req) && b[4..8] == Le(4, status)
      case SendMsg(dst, len, data) =>
        Tag(f) == 0x53 && |b| == 8 + |data| && b[0..4] == Le(4, dst) && b[4..8] == Le(4, len) && b[8..] == data
      case ReadRq(va, token, len, req, cna) =>
        && Tag(f) == 0x52 && |b| == 24 && b[0..8] == Le(8, va) && b[8..12] == Le(4, token)
        && b[12..16] == Le(4, len) && b[16..20] == Le(4, req) && b[20..24] == Le(4, cna)
      case ReadRsp(req, len, status, data) =>
        && Tag(f) == 0x72 && |b| == 12 + |data| && b[0..4] == Le(4, req)
        && b[4..8] == Le(4, len) && b[8..12] == Le(4, status) && b[12..] == data
  {
    hide Le;
  }

  /** The receiver parses every frame a sender builds back to the same fields. */
  lemma ParseBody(f: Frame)
    requires f.SendMsg? ==> f.len <= |f.data|
    ensures Parse(Tag(f), Body(f)) == Some(f)
  {
    var b := Body(f);
    hide Le, UnLe, Get32, Get64;
    match f
    case WriteRq(va, token, len, req, data) =>
      assert b[0..8] == Le(8, va) && b[8..12] == Le(4, token);
      assert b[12..16] == Le(4, len) && b[16..20] == Le(4, req) && b[20..] == data;
      Get64Back(b, 0, va);
      Get32Back(b, 8, token);
      Get32Back(b, 12, len);
      Get32Back(b, 16, req);
    case WriteAck(req, status) =>
      assert b[0..4] == Le(4, req) && b[4..8] == Le(4, status);
      Get32Back(b, 0, req);
      Get32Back(b, 4, status);
    case SendMsg(dst, len, data) =>
      assert b[0..4] == Le(4, dst) && b[4..8] == Le(4, len) && b[8..] == data;
      Get32Back(b, 0, dst);
      Get32Back(b, 4, len);
    case ReadRq(va, token, len, req, cna) =>
      assert b[0..8] == Le(8, va) && b[8..12] == Le(4, token);
      assert b[12..16] == Le(4, len) && b[16..20] == Le(4, req) && b[20..24] == Le(4, cna);
      Get64Back(b, 0, va);
      Get32Back(b, 8, token);
      Get32Back(b, 12, len);
      Get32Back(b, 16, req);
      Get32Back(b, 20, cna);
    case ReadRsp(req, len, status, data) =>
      assert b[0..4] == Le(4, req) && b[4..8] == Le(4, len) && b[8..12] == Le(4, status) && b[12..] == data;
      Get32Back(b, 0, req);
      Get32Back(b, 4, len);
      Get32Back(b, 8, status);
  }
}
