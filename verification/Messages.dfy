/** Whole messages: a header, a body and a checksum over both. */
module Messages {
  import opened Bytes
  import opened Crc
  import opened Octets
  import opened SegmentCodec
  import opened Streams

  const SIM_SEG: Byte := 0x17
  const SIM_SEG_ACK: Byte := 0x18
  const CRC_VAL: bv32 := 0x0e3dfc0a
  const CRC_SIZE := 4

  datatype Header = Header(ver: Byte, uid: U32)

  datatype Body = SegBody(seg: Segment) | AckBody(ack: SegmentAck)

  datatype Received = Accepted(header: Header, body: Body, unread: seq<Byte>) | OtherKind | Damaged

  predicate Sendable(b: Body) {
    match b
    case SegBody(s) => |s.data| <= SIM_VIDEO_SIZE
    case AckBody(a) => |a.nack| <= NACK_NUM
  }

  function Kind(b: Body): Byte {
    if b.SegBody? then SIM_SEG else SIM_SEG_ACK
  }

  function EncodeHeader(h: Header, mid: Byte): seq<Byte> {
    [h.ver] + [mid] + Put4(h.uid)
  }

  function EncodeBody(b: Body): seq<Byte>
    requires Sendable(b)
  {
    match b
    case SegBody(s) => EncodeSegment(s)
    case AckBody(a) => EncodeAck(a)
  }

  /** The checksum, as it is written behind a message. */
  function Trailer(payload: seq<Byte>): (t: seq<Byte>)
    ensures |t| == CRC_SIZE
  {
    WordBytes(Checksum(CRC_VAL, payload))
  }

  function EncodeMessage(h: Header, b: Body): (wire: seq<Byte>)
    requires Sendable(b)
  {
    var payload := EncodeHeader(h, Kind(b)) + EncodeBody(b);
    payload + Trailer(payload)
  }

  /** The last four bytes are the checksum of all the others. */
  predicate Intact(wire: seq<Byte>)
    requires |wire| >= CRC_SIZE
  {
    wire[|wire| - CRC_SIZE..] == Trailer(wire[..|wire| - CRC_SIZE])
  }

  function TakeHeader(s: seq<Byte>): (Header, Byte, seq<Byte>) {
    var (ver, s1) := TakeByte(s);
    var (mid, s2) := TakeByte(s1);
    var (uid, s3) := TakeWord(s2);
    (Header(ver, uid), mid, s3)
  }

  function TakeBody(h: Header, mid: Byte, s: seq<Byte>): Received {
    if mid == SIM_SEG then
      var (seg, rest) := DecodeSegment(s);
      Accepted(h, SegBody(seg), rest)
    else if mid == SIM_SEG_ACK then
      var (ack, rest) := DecodeAck(s);
      Accepted(h, AckBody(ack), rest)
    else
      OtherKind
  }

  /** What a receiver makes of any datagram that can hold a checksum. */
  function Receive(wire: seq<Byte>): (r: Received)
    requires |wire| >= CRC_SIZE
    ensures r == Damaged <==> !Intact(wire)
  {
    if Intact(wire) then
      var (h, mid, s) := TakeHeader(wire);
      TakeBody(h, mid, s)
    else
      Damaged
  }

  function CarriedBody(b: Body): Body {
    if b.SegBody? then SegBody(Carried(b.seg)) else b
  }

  lemma TrailerFits(payload: seq<Byte>)
    ensures Intact(payload + Trailer(payload))
  {
    Split(payload, Trailer(payload));
  }

  lemma HeaderBack(h: Header, mid: Byte, rest: seq<Byte>)
    ensures TakeHeader(EncodeHeader(h, mid) + rest) == (h, mid, rest)
  {
    assert EncodeHeader(h, mid) + rest == [h.ver] + ([mid] + (Put4(h.uid) + rest));
    ByteBack(h.ver, [mid] + (Put4(h.uid) + rest));
    ByteBack(mid, Put4(h.uid) + rest);
    WordBack(h.uid, rest);
  }

  lemma BodyBack(h: Header, b: Body, crc: seq<Byte>)
    requires Sendable(b)
    ensures TakeBody(h, Kind(b), EncodeBody(b) + crc) == Accepted(h, CarriedBody(b), crc)
  {
    match b
    case SegBody(s) => SegmentRoundTrip(s, crc);
    case AckBody(a) => AckRoundTrip(a, crc);
  }

  /** A message that arrives as it was sent is accepted, with only its checksum left unread. */
  lemma MessageRoundTrip(h: Header, b: Body)
    requires Sendable(b)
    ensures |EncodeMessage(h, b)| >= CRC_SIZE
    ensures Receive(EncodeMessage(h, b))
         == Accepted(h, CarriedBody(b), Trailer(EncodeHeader(h, Kind(b)) + EncodeBody(b)))
  {
    var head, body := EncodeHeader(h, Kind(b)), EncodeBody(b);
    var crc := Trailer(head + body);
    TrailerFits(head + body);
    assert EncodeMessage(h, b) == head + (body + crc);
    HeaderBack(h, Kind(b), body + crc);
    BodyBack(h, b, crc);
  }

  lemma TrailersDiffer(before: seq<Byte>, x: seq<Byte>, y: seq<Byte>, after: seq<Byte>)
    requires |x| == |y| <= 4 && x != y
    ensures Trailer(before + x + after) != Trailer(before + y + after)
  {
    DamageDetected(CRC_VAL, before, x, y, after);
    if Trailer(before + x + after) == Trailer(before + y + after) {
      WordBytesLoseNothing(Checksum(CRC_VAL, before + x + after), Checksum(CRC_VAL, before + y + after));
    }
  }

  /** Damage to at most four neighbouring bytes of a message's header and body is always noticed. */
  lemma DamageNoticed(h: Header, b: Body, before: seq<Byte>, sent: seq<Byte>, got: seq<Byte>, after: seq<Byte>)
    requires Sendable(b) && EncodeHeader(h, Kind(b)) + EncodeBody(b) == before + sent + after
    requires |sent| == |got| <= 4 && sent != got
    ensures Receive(before + got + after + Trailer(before + sent + after)) == Damaged
  {
    Split(before + got + after, Trailer(before + sent + after));
    TrailersDiffer(before, sent, got, after);
  }

  /** Damage confined to the checksum itself is noticed too. */
  lemma TrailerDamageNoticed(h: Header, b: Body, got: seq<Byte>)
    requires Sendable(b) && |got| == CRC_SIZE
    requires got != Trailer(EncodeHeader(h, Kind(b)) + EncodeBody(b))
    ensures Receive(EncodeHeader(h, Kind(b)) + EncodeBody(b) + got) == Damaged
  {
    Split(EncodeHeader(h, Kind(b)) + EncodeBody(b), got);
  }

  method WriteBody(strm: BinStream, b: Body)
    requires strm.Valid() && Sendable(b)
    modifies strm, strm.data
    ensures strm.Valid() && (strm.data == old(strm.data) || fresh(strm.data))
    ensures strm.Written() == old(strm.Written()) + EncodeBody(b)
  {
    match b {
      case SegBody(s) =>
        SegmentEncode(strm, s);
      case AckBody(a) =>
        AckEncode(strm, a);
    }
  }

  /** The checksum of everything written so far. */
  method WrittenTrailer(strm: BinStream) returns (crc: U32)
    requires strm.Valid()
    ensures Put4(crc) == Trailer(strm.Written())
  {
    var sum := Crc32(CRC_VAL, strm.data, strm.used);
    crc := Number(sum);
    PutNumber(sum);
  }

  /** sim_encode_msg, for the two bodies modelled. */
  method EncodeMsg(strm: BinStream, h: Header, b: Body)
    requires strm.Valid() && Sendable(b)
    modifies strm, strm.data
    ensures strm.Valid() && (strm.data == old(strm.data) || fresh(strm.data))
    ensures strm.Written() == EncodeMessage(h, b)
  {
    strm.Rewind(true);
    strm.Write1(h.ver);
    strm.Write1(Kind(b));
    strm.Write4(h.uid);
    assert strm.Written() == EncodeHeader(h, Kind(b));
    WriteBody(strm, b);
    var crc := WrittenTrailer(strm);
    strm.Write4(crc);
  }

  lemma TailIffNumber(tail: seq<Byte>, crc: bv32)
    requires |tail| == CRC_SIZE
    ensures Get4(tail) == Number(crc) <==> tail == WordBytes(crc)
  {
    if Get4(tail) == Number(crc) {
      Get4LosesNothing(tail, WordBytes(crc));
    }
  }

  /** sim_decode_header */
  method DecodeHeader(strm: BinStream) returns (ok: bool, h: Header, mid: Byte)
    requires strm.Valid() && |strm.Written()| >= CRC_SIZE
    modifies strm
    ensures strm.Valid() && strm.data == old(strm.data) && strm.Written() == old(strm.Written())
    ensures ok <==> Intact(strm.Written())
    ensures ok ==> (h, mid, strm.Unread()) == TakeHeader(old(strm.Unread()))
    ensures !ok ==> strm.Unread() == old(strm.Unread())
  {
    var pos := strm.used - CRC_SIZE;
    var src := Get4(strm.data[pos..strm.used]);
    var crc := Crc32(CRC_VAL, strm.data, pos);
    assert strm.Written()[pos..] == strm.data[pos..strm.used] && strm.Written()[..pos] == strm.data[..pos];
    ok := src == Number(crc);
    TailIffNumber(strm.data[pos..strm.used], crc);
    assert ok <==> Intact(strm.Written());
    h, mid := Header(0, 0), 0;
    if ok {
      var ver := strm.Read1();
      mid := strm.Read1();
      var uid := strm.Read4();
      h := Header(ver, uid);
    }
  }

  /** sim_decode_header and then sim_decode_msg on a freshly received datagram. */
  method ReceiveMsg(strm: BinStream) returns (r: Received)
    requires strm.Valid() && |strm.Written()| >= CRC_SIZE && strm.rsize == 0
    modifies strm
    ensures strm.Valid() && strm.data == old(strm.data) && strm.Written() == old(strm.Written())
    ensures r == Receive(old(strm.Written()))
    ensures r.Accepted? ==> r.unread == strm.Unread()
  {
    var ok, h, mid := DecodeHeader(strm);
    if !ok {
      r := Damaged;
    } else if mid == SIM_SEG {
      var s := SegmentDecode(strm);
      r := Accepted(h, SegBody(s), strm.data[strm.rsize..strm.used]);
    } else if mid == SIM_SEG_ACK {
      var a := AckDecode(strm);
      r := Accepted(h, AckBody(a), strm.data[strm.rsize..strm.used]);
    } else {
      r := OtherKind;
    }
  }
}
