/** The wire forms of video segments and of segment acks. */
module SegmentCodec {
  import opened Bytes
  import opened Streams

  const SIM_VIDEO_SIZE := 1000
  const NACK_NUM := 80
  const SIM_HEADER_SIZE := 6
  const SIM_SEGMENT_HEADER_SIZE := SIM_HEADER_SIZE + 24
  const U16_MAX := 65535
  const U8_MAX := 255

  /** sim_segment_t; data_size is the length of `data`. */
  datatype Segment = Segment(
    packetId: U32, fid: U32, timestamp: U32, index: U16, total: U16, ftype: Byte, payloadType: Byte,
    remb: Byte, sendTs: U16, transportSeq: U16, data: seq<Byte>)

  /** sim_segment_ack_t; nack_num is the length of `nack`. */
  datatype SegmentAck = SegmentAck(basePacketId: U32, ackedPacketId: U32, nack: seq<U16>)

  // ---- segments ----

  /** Bit n of a byte, of the upper four. */
  predicate Bit(b: Byte, n: nat)
    requires 4 <= n < 8
  {
    match n
    case 4 => b / 16 % 2 == 1
    case 5 => b / 32 % 2 == 1
    case 6 => b / 64 % 2 == 1
    case _ => b / 128 == 1
  }

  /** The mask byte: which fields are wide, and the two flags. */
  function Mask(s: Segment): (b: Byte) {
    s.ftype % 2
    + (if s.packetId > U16_MAX then 128 else 0)
    + (if s.fid > U16_MAX then 64 else 0)
    + (if s.total > U8_MAX then 32 else 0)
    + (if s.remb == 0 then 16 else 0)
  }

  /** An id takes four bytes only when two are too few. */
  function PutId(v: U32): seq<Byte> {
    if v > U16_MAX then Put4(v) else Put2(v)
  }

  function PutPlace(s: Segment): seq<Byte> {
    if s.total > U8_MAX then Put2(s.index) + Put2(s.total) else [s.index % 0x100, s.total]
  }

  function EncodeSegment(s: Segment): (bytes: seq<Byte>)
    requires |s.data| <= SIM_VIDEO_SIZE
  {
    [Mask(s)] + [s.payloadType] + PutId(s.packetId) + PutId(s.fid) + Put4(s.timestamp) + PutPlace(s)
    + Put2(s.sendTs) + Put2(s.transportSeq) + Put2(|s.data|) + s.data
  }

  function TakeId(wide: bool, s: seq<Byte>): (U32, seq<Byte>) {
    if wide then TakeWord(s) else TakeShort(s)
  }

  function TakePlace(wide: bool, s: seq<Byte>): (U16, U16, seq<Byte>) {
    if wide then
      var (index, s1) := TakeShort(s);
      var (total, s2) := TakeShort(s1);
      (index, total, s2)
    else
      var (index, s1) := TakeByte(s);
      var (total, s2) := TakeByte(s1);
      (index, total, s2)
  }

  /** What decoding any unread bytes yields, and what it leaves unread. */
  function DecodeSegment(s: seq<Byte>): (r: (Segment, seq<Byte>)) {
    var (mask, s1) := TakeByte(s);
    var (payloadType, s2) := TakeByte(s1);
    var (packetId, s3) := TakeId(Bit(mask, 7), s2);
    var (fid, s4) := TakeId(Bit(mask, 6), s3);
    var (timestamp, s5) := TakeWord(s4);
    var (index, total, s6) := TakePlace(Bit(mask, 5), s5);
    var (sendTs, s7) := TakeShort(s6);
    var (transportSeq, s8) := TakeShort(s7);
    var (block, s9) := TakeBlock(s8, SIM_VIDEO_SIZE);
    (Segment(packetId, fid, timestamp, index, total, mask % 2, payloadType,
             if Bit(mask, 4) then 0 else 0xff, sendTs, transportSeq, DataOf(block)), s9)
  }

  function DataOf(b: Block): seq<Byte> {
    if b.Block? then b.bytes else []
  }

  /** What a segment is after its trip: one frame-type bit, one remb bit, a byte of index in a short frame. */
  function Carried(s: Segment): Segment {
    s.(ftype := s.ftype % 2,
       remb := if s.remb == 0 then 0 else 0xff,
       index := if s.total > U8_MAX then s.index else s.index % 0x100)
  }

  lemma MaskBits(s: Segment)
    ensures Mask(s) % 2 == s.ftype % 2
    ensures Bit(Mask(s), 7) <==> s.packetId > U16_MAX
    ensures Bit(Mask(s), 6) <==> s.fid > U16_MAX
    ensures Bit(Mask(s), 5) <==> s.total > U8_MAX
    ensures Bit(Mask(s), 4) <==> s.remb == 0
  {
  }

  lemma IdBack(v: U32, rest: seq<Byte>)
    ensures TakeId(v > U16_MAX, PutId(v) + rest) == (v, rest)
  {
    if v > U16_MAX {
      WordBack(v, rest);
    } else {
      ShortBack(v, rest);
    }
  }

  lemma PlaceBack(s: Segment, rest: seq<Byte>)
    ensures TakePlace(s.total > U8_MAX, PutPlace(s) + rest) == (Carried(s).index, s.total, rest)
  {
    if s.total > U8_MAX {
      assert PutPlace(s) + rest == Put2(s.index) + (Put2(s.total) + rest);
      ShortBack(s.index, Put2(s.total) + rest);
      ShortBack(s.total, rest);
    } else {
      assert PutPlace(s) + rest == [s.index % 0x100] + ([s.total] + rest);
      ByteBack(s.index % 0x100, [s.total] + rest);
      ByteBack(s.total, rest);
    }
  }

  /** Re-bracketing of a ten-part message. */
  lemma Rebracket<T>(a: seq<T>, b: seq<T>, c: seq<T>, d: seq<T>, e: seq<T>, f: seq<T>, g: seq<T>, h: seq<T>,
                     i: seq<T>, j: seq<T>, rest: seq<T>)
    ensures (a + b + c + d + e + f + g + h + i + j) + rest
         == a + (b + (c + (d + (e + (f + (g + (h + (i + (j + rest)))))))))
  {
  }

  /** Whatever follows an encoded segment, decoding yields what the form carries and leaves the rest unread. */
  lemma SegmentRoundTrip(s: Segment, rest: seq<Byte>)
    requires |s.data| <= SIM_VIDEO_SIZE
    ensures DecodeSegment(EncodeSegment(s) + rest) == (Carried(s), rest)
  {
    var s9 := s.data + rest;
    var s8 := Put2(|s.data|) + s9;
    var s7 := Put2(s.transportSeq) + s8;
    var s6 := Put2(s.sendTs) + s7;
    var s5 := PutPlace(s) + s6;
    var s4 := Put4(s.timestamp) + s5;
    var s3 := PutId(s.fid) + s4;
    var s2 := PutId(s.packetId) + s3;
    var s1 := [s.payloadType] + s2;
    Rebracket([Mask(s)], [s.payloadType], PutId(s.packetId), PutId(s.fid), Put4(s.timestamp), PutPlace(s),
              Put2(s.sendTs), Put2(s.transportSeq), Put2(|s.data|), s.data, rest);
    ByteBack(Mask(s), s1);
    ByteBack(s.payloadType, s2);
    MaskBits(s);
    IdBack(s.packetId, s3);
    IdBack(s.fid, s4);
    WordBack(s.timestamp, s5);
    PlaceBack(s, s6);
    ShortBack(s.sendTs, s7);
    ShortBack(s.transportSeq, s8);
    BlockBack(s.data, SIM_VIDEO_SIZE, rest);
  }

  lemma CarriedWhole(s: Segment)
    ensures Carried(s) == s
       <==> s.ftype <= 1 && (s.remb == 0 || s.remb == 0xff) && (s.total > U8_MAX || s.index <= U8_MAX)
  {
  }

  /** A segment comes back whole exactly when its frame type, remb flag and short index fit the form. */
  lemma SegmentComesBackIff(s: Segment, rest: seq<Byte>)
    requires |s.data| <= SIM_VIDEO_SIZE
    ensures DecodeSegment(EncodeSegment(s) + rest) == (s, rest)
       <==> s.ftype <= 1 && (s.remb == 0 || s.remb == 0xff) && (s.total > U8_MAX || s.index <= U8_MAX)
  {
    var back := DecodeSegment(EncodeSegment(s) + rest);
    SegmentRoundTrip(s, rest);
    CarriedWhole(s);
    assert back.0 == Carried(s) && back.1 == rest;
  }

  /** Header and segment never outgrow the room senders set aside for them. */
  lemma SegmentFits(s: Segment)
    requires |s.data| <= SIM_VIDEO_SIZE
    ensures SIM_HEADER_SIZE + |EncodeSegment(s)| <= SIM_SEGMENT_HEADER_SIZE + |s.data|
  {
  }

  method WriteId(strm: BinStream, v: U32)
    requires strm.Valid()
    modifies strm, strm.data
    ensures strm.Valid() && (strm.data == old(strm.data) || fresh(strm.data))
    ensures strm.Written() == old(strm.Written()) + PutId(v)
  {
    if v > U16_MAX {
      strm.Write4(v);
    } else {
      strm.Write2(v);
    }
  }

  method WritePlace(strm: BinStream, s: Segment)
    requires strm.Valid()
    modifies strm, strm.data
    ensures strm.Valid() && (strm.data == old(strm.data) || fresh(strm.data))
    ensures strm.Written() == old(strm.Written()) + PutPlace(s)
  {
    if s.total > U8_MAX {
      strm.Write2(s.index);
      strm.Write2(s.total);
    } else {
      strm.Write1(s.index % 0x100);
      strm.Write1(s.total);
    }
  }

  method WriteStamps(strm: BinStream, s: Segment)
    requires strm.Valid()
    modifies strm, strm.data
    ensures strm.Valid() && (strm.data == old(strm.data) || fresh(strm.data))
    ensures strm.Written() == old(strm.Written()) + Put2(s.sendTs) + Put2(s.transportSeq)
  {
    strm.Write2(s.sendTs);
    strm.Write2(s.transportSeq);
  }

  method WriteTail(strm: BinStream, s: Segment)
    requires strm.Valid() && |s.data| <= SIM_VIDEO_SIZE
    modifies strm, strm.data
    ensures strm.Valid() && (strm.data == old(strm.data) || fresh(strm.data))
    ensures strm.Written() == old(strm.Written()) + PutPlace(s) + Put2(s.sendTs) + Put2(s.transportSeq)
                              + Put2(|s.data|) + s.data
  {
    WritePlace(strm, s);
    WriteStamps(strm, s);
    strm.WriteData(s.data);
  }

  /** sim_segment_encode */
  method SegmentEncode(strm: BinStream, s: Segment)
    requires strm.Valid() && |s.data| <= SIM_VIDEO_SIZE
    modifies strm, strm.data
    ensures strm.Valid() && (strm.data == old(strm.data) || fresh(strm.data))
    ensures strm.Written() == old(strm.Written()) + EncodeSegment(s)
  {
    strm.Write1(Mask(s));
    strm.Write1(s.payloadType);
    WriteId(strm, s.packetId);
    WriteId(strm, s.fid);
    strm.Write4(s.timestamp);
    WriteTail(strm, s);
    Rejoin(old(strm.Written()), [Mask(s)], [s.payloadType], PutId(s.packetId), PutId(s.fid), Put4(s.timestamp),
           PutPlace(s), Put2(s.sendTs), Put2(s.transportSeq), Put2(|s.data|), s.data);
  }

  lemma Rejoin<T>(w: seq<T>, a: seq<T>, b: seq<T>, c: seq<T>, d: seq<T>, e: seq<T>, f: seq<T>, g: seq<T>, h: seq<T>,
                  i: seq<T>, j: seq<T>)
    ensures w + a + b + c + d + e + f + g + h + i + j == w + (a + b + c + d + e + f + g + h + i + j)
  {
  }

  /** sim_segment_decode */
  method SegmentDecode(strm: BinStream) returns (s: Segment)
    requires strm.Valid()
    modifies strm
    ensures strm.Valid() && strm.data == old(strm.data) && strm.Written() == old(strm.Written())
    ensures (s, strm.Unread()) == DecodeSegment(old(strm.Unread()))
  {
    var mask := strm.Read1();
    var payloadType := strm.Read1();
    var packetId: U32;
    if Bit(mask, 7) {
      packetId := strm.Read4();
    } else {
      packetId := strm.Read2();
    }
    var fid: U32;
    if Bit(mask, 6) {
      fid := strm.Read4();
    } else {
      fid := strm.Read2();
    }
    var timestamp := strm.Read4();
    var index: U16, total: U16;
    if Bit(mask, 5) {
      index := strm.Read2();
      total := strm.Read2();
    } else {
      index := strm.Read1();
      total := strm.Read1();
    }
    var remb: Byte := if Bit(mask, 4) then 0 else 0xff;
    var sendTs := strm.Read2();
    var transportSeq := strm.Read2();
    var block := strm.ReadData(SIM_VIDEO_SIZE);
    s := Segment(packetId, fid, timestamp, index, total, mask % 2, payloadType, remb, sendTs, transportSeq,
                 if block.BadBlock? then [] else block.bytes);
  }

  // ---- segment acks ----

  function PutNacks(nack: seq<U16>): seq<Byte> {
    if nack == [] then [] else PutNacks(nack[..|nack| - 1]) + Put2(nack[|nack| - 1])
  }

  function EncodeAck(a: SegmentAck): (bytes: seq<Byte>)
    requires |a.nack| <= NACK_NUM
  {
    Put4(a.basePacketId) + Put4(a.ackedPacketId) + [|a.nack|] + PutNacks(a.nack)
  }

  function TakeNacks(n: nat, s: seq<Byte>): (r: (seq<U16>, seq<Byte>))
    ensures |r.0| == n
  {
    if n == 0 then ([], s)
    else
      var (nack, s1) := TakeNacks(n - 1, s);
      var (last, s2) := TakeShort(s1);
      (nack + [last], s2)
  }

  function Clamped(n: Byte): (m: Byte)
    ensures m <= NACK_NUM
  {
    if n < NACK_NUM then n else NACK_NUM
  }

  function DecodeAck(s: seq<Byte>): (r: (SegmentAck, seq<Byte>)) {
    var (base, s1) := TakeWord(s);
    var (acked, s2) := TakeWord(s1);
    var (n, s3) := TakeByte(s2);
    var (nack, s4) := TakeNacks(Clamped(n), s3);
    (SegmentAck(base, acked, nack), s4)
  }

  lemma {:induction false} NacksBack(nack: seq<U16>, rest: seq<Byte>)
    ensures TakeNacks(|nack|, PutNacks(nack) + rest) == (nack, rest)
    decreases |nack|
  {
    if nack == [] {
      assert PutNacks(nack) + rest == rest;
    } else {
      var front, last := nack[..|nack| - 1], nack[|nack| - 1];
      assert PutNacks(nack) + rest == PutNacks(front) + (Put2(last) + rest);
      NacksBack(front, Put2(last) + rest);
      ShortBack(last, rest);
      assert front + [last] == nack;
    }
  }

  /** Every ack the receiver can send comes back whole, whatever follows it. */
  lemma AckRoundTrip(a: SegmentAck, rest: seq<Byte>)
    requires |a.nack| <= NACK_NUM
    ensures DecodeAck(EncodeAck(a) + rest) == (a, rest)
  {
    var s3 := PutNacks(a.nack) + rest;
    var s2 := [|a.nack|] + s3;
    var s1 := Put4(a.ackedPacketId) + s2;
    assert EncodeAck(a) + rest == Put4(a.basePacketId) + s1;
    WordBack(a.basePacketId, s1);
    WordBack(a.ackedPacketId, s2);
    ByteBack(|a.nack|, s3);
    NacksBack(a.nack, rest);
  }

  lemma NackNext(head: seq<Byte>, nack: seq<U16>, i: nat)
    requires i < |nack|
    ensures head + PutNacks(nack[..i]) + Put2(nack[i]) == head + PutNacks(nack[..i + 1])
  {
    assert nack[..i + 1][..i] == nack[..i];
  }

  method WriteNacks(strm: BinStream, nack: seq<U16>)
    requires strm.Valid()
    modifies strm, strm.data
    ensures strm.Valid() && (strm.data == old(strm.data) || fresh(strm.data))
    ensures strm.Written() == old(strm.Written()) + PutNacks(nack)
  {
    ghost var head := strm.Written();
    var i := 0;
    while i < |nack|
      invariant i <= |nack|
      invariant strm.Valid() && (strm.data == old(strm.data) || fresh(strm.data))
      invariant strm.Written() == head + PutNacks(nack[..i])
    {
      strm.Write2(nack[i]);
      NackNext(head, nack, i);
      i := i + 1;
    }
    assert nack[..i] == nack;
  }

  /** sim_segment_ack_encode */
  method AckEncode(strm: BinStream, a: SegmentAck)
    requires strm.Valid() && |a.nack| <= NACK_NUM
    modifies strm, strm.data
    ensures strm.Valid() && (strm.data == old(strm.data) || fresh(strm.data))
    ensures strm.Written() == old(strm.Written()) + EncodeAck(a)
  {
    strm.Write4(a.basePacketId);
    strm.Write4(a.ackedPacketId);
    strm.Write1(|a.nack|);
    WriteNacks(strm, a.nack);
  }

  /** sim_segment_ack_decode */
  method AckDecode(strm: BinStream) returns (a: SegmentAck)
    requires strm.Valid()
    modifies strm
    ensures strm.Valid() && strm.data == old(strm.data) && strm.Written() == old(strm.Written())
    ensures (a, strm.Unread()) == DecodeAck(old(strm.Unread()))
  {
    var base := strm.Read4();
    var acked := strm.Read4();
    var n := strm.Read1();
    var count := Clamped(n);
    ghost var unread := strm.Unread();
    var nack := [];
    var i := 0;
    while i < count
      invariant i <= count
      invariant strm.Valid() && strm.data == old(strm.data) && strm.Written() == old(strm.Written())
      invariant (nack, strm.Unread()) == TakeNacks(i, unread)
    {
      var v := strm.Read2();
      nack := nack + [v];
      i := i + 1;
    }
    a := SegmentAck(base, acked, nack);
  }
}
