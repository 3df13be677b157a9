/** The EV-CAN codec (firmware/common/src/ev_can.rs).

    The only message is the torque request, sent with standard identifier
    0x14d and an 8-byte payload: two constant bytes 0x6e, the torque as a
    little-endian `i16`, the counter shifted into the top two bits of a
    byte, the constant bytes 0x44 and 0x01, and a CRC-8 over the first seven
    bytes with polynomial 0x85. The decoder of the payload is unfinished in
    the source and accepts every payload as a zero request; the frame
    dispatcher rejects extended identifiers, remote frames and unknown
    identifiers. */
module EvCan {
  import opened Wrappers
  import opened Primitives
  import opened Crc8
  import opened Bxcan

  const TORQUE_REQUEST_ID: StandardId := 0x14d

  /** The polynomial of the Nissan CRC table. */
  const NISSAN_POLYNOMIAL: u8 := 0x85

  datatype EvCanError = BadDlc | BadCrc | NoData | UnknownFrame

  datatype EvCanFrame = TorqueRequest(torque: i16, counter: u8)

  /** `EvCanFrame::id`. */
  function FrameId(frame: EvCanFrame): (id: StandardId)
    ensures id == 0x14d
  {
    match frame
    case TorqueRequest(_, _) => TORQUE_REQUEST_ID
  }

  /** `i16::to_le_bytes`: the two's-complement bytes, low byte first. */
  function ToLeBytes(x: i16): (bytes: (u8, u8)) {
    ((x & 0xff) as u8, (x >> 8) as u8)
  }

  /** `i16::from_le_bytes`. */
  function FromLeBytes(lo: u8, hi: u8): (x: i16) {
    ((hi as i16) << 8) | (lo as i16)
  }

  /** Reading the bytes back gives the original torque. */
  lemma LeBytesRoundTrip(x: i16)
    ensures FromLeBytes(ToLeBytes(x).0, ToLeBytes(x).1) == x
  {
  }

  /** Every pair of bytes is the encoding of exactly one `i16`. */
  lemma LeBytesOnto(lo: u8, hi: u8)
    ensures ToLeBytes(FromLeBytes(lo, hi)) == (lo, hi)
  {
  }

  /** `counter << 6` on a `u8` keeps only the low two bits of the counter,
      moved to bits 7 and 6; bits 5 to 0 are clear. */
  lemma CounterBits(counter: u8)
    ensures (counter << 6) >> 6 == counter & 3
    ensures (counter << 6) & 0x3f == 0
  {
  }

  /** The first seven bytes of a torque request, which the CRC covers. */
  function TorqueRequestPayload(torque: i16, counter: u8): (p: seq<u8>)
    ensures |p| == 7
  {
    var bytes := ToLeBytes(torque);
    [0x6e, 0x6e, bytes.0, bytes.1, counter << 6, 0x44, 0x01]
  }

  /** The 8 bytes of a torque request: the payload followed by its CRC. */
  function TorqueRequestData(torque: i16, counter: u8): (d: seq<u8>)
    ensures |d| == 8 && d[0] == 0x6e && d[1] == 0x6e && d[5] == 0x44 && d[6] == 0x01
    ensures FromLeBytes(d[2], d[3]) == torque && I16Value(FromLeBytes(d[2], d[3])) == I16Value(torque)
    ensures d[4] >> 6 == counter & 3 && d[4] & 0x3f == 0
    ensures d[7] == Crc(d[..7], Table(NISSAN_POLYNOMIAL))
  {
    LeBytesRoundTrip(torque);
    CounterBits(counter);
    var payload := TorqueRequestPayload(torque, counter);
    assert (payload + [Crc(payload, Table(NISSAN_POLYNOMIAL))])[..7] == payload;
    payload + [Crc(payload, Table(NISSAN_POLYNOMIAL))]
  }

  /** The data is the payload followed by its CRC. */
  lemma DataIsPayloadAndCrc(torque: i16, counter: u8)
    ensures TorqueRequestData(torque, counter) ==
      TorqueRequestPayload(torque, counter) + [Crc(TorqueRequestPayload(torque, counter), Table(NISSAN_POLYNOMIAL))]
  {
  }

  /** The buffer of `to_torque_request_data`, before the CRC is written. */
  lemma BufferIsPayload(torque: i16, counter: u8, buffer: seq<u8>)
    requires buffer == [0x6e, 0x6e, ToLeBytes(torque).0, ToLeBytes(torque).1, counter << 6, 0x44, 0x01, 0x00]
    ensures buffer[..7] == TorqueRequestPayload(torque, counter)
  {
  }

  /** `to_torque_request_data`: fill an 8-byte buffer with a zero in place of
      the CRC, then overwrite byte 7 with the CRC of bytes 0..6. The source
      computes the table once at compile time; here it is generated on each
      call, which gives the same table. */
  method ToTorqueRequestData(torque: i16, counter: u8) returns (data: seq<u8>)
    ensures data == TorqueRequestData(torque, counter)
  {
    var lookup := GenerateLookup(NISSAN_POLYNOMIAL);
    var bytes := ToLeBytes(torque);
    var buffer := new u8[8] [0x6e, 0x6e, bytes.0, bytes.1, counter << 6, 0x44, 0x01, 0x00];
    var before := buffer[..];
    BufferIsPayload(torque, counter, before);
    var crc := CalcCrc8(before[..7], lookup);
    buffer[7] := crc;
    assert buffer[..] == before[7 := crc];
    data := buffer[..];
    LastReplaced(before, crc);
    DataIsPayloadAndCrc(torque, counter);
  }

  /** Overwriting the last of eight bytes keeps the first seven. */
  lemma LastReplaced(before: seq<u8>, b: u8)
    requires |before| == 8
    ensures before[7 := b] == before[..7] + [b]
  {
  }

  /** `EvCanFrame::data`: the payload always fits, so the `unwrap` cannot panic. */
  function FrameData(frame: EvCanFrame): (d: Data)
    ensures |d| == 8
    ensures d == TorqueRequestData(frame.torque, frame.counter)
  {
    match frame
    case TorqueRequest(torque, counter) =>
      var bytes := TorqueRequestData(torque, counter);
      assert NewData(bytes).Some?;
      NewData(bytes).value
  }

  /** `From<EvCanFrame> for Frame`: a data frame with the standard identifier. */
  function ToFrame(frame: EvCanFrame): (f: Frame)
    ensures f.id == Standard(0x14d) && f.data.Some? && |f.data.value| == 8
    ensures f.data == Some(FrameData(frame))
  {
    NewDataFrame(Standard(FrameId(frame)), FrameData(frame))
  }

  /** `from_torque_request_data`, unfinished in the source: it reads nothing
      from the payload and reports a zero request. */
  function FromTorqueRequestData(data: Data): (r: Result<EvCanFrame, EvCanError>)
    ensures r.Ok?
    ensures r == Ok(TorqueRequest(0, 0))
  {
    Ok(TorqueRequest(0, 0))
  }

  /** `TryFrom<Frame> for EvCanFrame`: extended identifiers are unknown; for a
      standard identifier a remote frame is `NoData`, checked before the
      identifier is looked at; then only 0x14d is known. */
  function TryFromFrame(frame: Frame): (r: Result<EvCanFrame, EvCanError>)
    ensures r.Ok? <==> frame.id == Standard(0x14d) && frame.data.Some?
    ensures r == Err(NoData) <==> frame.id.Standard? && frame.data.None?
    ensures r == Err(UnknownFrame) <==>
      frame.id.Extended? || (frame.data.Some? && frame.id != Standard(0x14d))
    ensures r != Err(BadDlc) && r != Err(BadCrc)
    ensures r.Ok? ==> r.value == TorqueRequest(0, 0)
  {
    match frame.id
    case Standard(id) =>
      (match frame.data
       case None => Err(NoData)
       case Some(data) =>
         if id == TORQUE_REQUEST_ID then FromTorqueRequestData(data) else Err(UnknownFrame))
    case Extended(_) => Err(UnknownFrame)
  }

  /** An encoded frame is always accepted by the dispatcher, but the stub
      decoder turns it into a zero request whatever was encoded. */
  lemma DecodeEncoded(frame: EvCanFrame)
    ensures TryFromFrame(ToFrame(frame)) == Ok(TorqueRequest(0, 0))
  {
  }

  /** Hence the round trip holds for the zero request only. */
  lemma RoundTripOnlyAtZero(frame: EvCanFrame)
    ensures TryFromFrame(ToFrame(frame)) == Ok(frame) <==> frame == TorqueRequest(0, 0)
  {
    DecodeEncoded(frame);
  }

  /** A frame whose payload was corrupted in exactly one of its first seven
      bytes fails the CRC: the checksum of the received bytes differs from
      the transmitted byte 7. */
  lemma CorruptionDetected(frame: EvCanFrame, received: seq<u8>, k: nat)
    requires |received| == 7 && k < 7
    requires received[k] != FrameData(frame)[k]
    requires forall i :: 0 <= i < 7 && i != k ==> received[i] == FrameData(frame)[i]
    ensures Crc(received, Table(NISSAN_POLYNOMIAL)) != FrameData(frame)[7]
  {
    var sent := FrameData(frame)[..7];
    SingleByteChangeDetected(received, sent, k, NISSAN_POLYNOMIAL);
  }

  /* The five entries of the 0x85 table that the example request visits. */
  lemma Entry6E() ensures Table(0x85)[0x6e] == 0x62 { }
  lemma Entry0C() ensures Table(0x85)[0x0c] == 0x28 { }
  lemma EntryC0() ensures Table(0x85)[0xc0] == 0x0f { }
  lemma EntryA8() ensures Table(0x85)[0xa8] == 0x79 { }
  lemma Entry3D() ensures Table(0x85)[0x3d] == 0x0d { }

  /** The payload of the example request, torque 1000 and counter 2. */
  const EXAMPLE_PAYLOAD: seq<u8> := [0x6e, 0x6e, 0xe8, 0x03, 0x80, 0x44, 0x01]

  lemma ExamplePayloadFold1(t: seq<u8>)
    requires |t| == 256 && t[0x6e] == 0x62 && t[0x0c] == 0x28 && t[0xc0] == 0x0f
    ensures Crc(EXAMPLE_PAYLOAD[..4], t) == 0x28
  {
    CrcPrefix(EXAMPLE_PAYLOAD, 0, t);
    CrcPrefix(EXAMPLE_PAYLOAD, 1, t);
    CrcPrefix(EXAMPLE_PAYLOAD, 2, t);
    CrcPrefix(EXAMPLE_PAYLOAD, 3, t);
  }

  lemma ExamplePayloadFold2(t: seq<u8>)
    requires |t| == 256 && Crc(EXAMPLE_PAYLOAD[..4], t) == 0x28
    requires t[0xa8] == 0x79 && t[0x3d] == 0x0d && t[0x0c] == 0x28
    ensures Crc(EXAMPLE_PAYLOAD, t) == 0x28
  {
    CrcPrefix(EXAMPLE_PAYLOAD, 4, t);
    CrcPrefix(EXAMPLE_PAYLOAD, 5, t);
    CrcPrefix(EXAMPLE_PAYLOAD, 6, t);
    assert EXAMPLE_PAYLOAD[..7] == EXAMPLE_PAYLOAD;
  }

  /** The first seven bytes for torque 1000 and counter 2. */
  lemma ExamplePayload()
    ensures TorqueRequestPayload(1000, 2) == EXAMPLE_PAYLOAD
  {
    assert ToLeBytes(1000) == (0xe8, 0x03);
  }

  /** Their CRC with the 0x85 table is 0x28. */
  lemma ExampleCrc()
    ensures Crc(EXAMPLE_PAYLOAD, Table(0x85)) == 0x28
  {
    Entry6E();
    Entry0C();
    EntryC0();
    EntryA8();
    Entry3D();
    ExamplePayloadFold1(Table(0x85));
    ExamplePayloadFold2(Table(0x85));
  }

  /** The eight bytes for torque 1000 and counter 2. */
  lemma ExampleData(d: seq<u8>)
    requires d == TorqueRequestPayload(1000, 2) + [Crc(TorqueRequestPayload(1000, 2), Table(0x85))]
    ensures d == [0x6e, 0x6e, 0xe8, 0x03, 0x80, 0x44, 0x01, 0x28]
  {
    ExamplePayload();
    ExampleCrc();
  }

  /** What the encoder produces for torque 1000 and counter 2. The source's
      unit test expects identifier 0x1d4 and the bytes
      [0x6e, 0x6e, 0, 0, 0, 0x44, 0x01, 0]; the encoder gives neither. */
  lemma ExampleRequest()
    ensures ToFrame(TorqueRequest(1000, 2)).id == Standard(0x14d)
    ensures FrameData(TorqueRequest(1000, 2)) == [0x6e, 0x6e, 0xe8, 0x03, 0x80, 0x44, 0x01, 0x28]
    ensures FrameData(TorqueRequest(1000, 2)) != [0x6e, 0x6e, 0x00, 0x00, 0x00, 0x44, 0x01, 0x00]
  {
    DataIsPayloadAndCrc(1000, 2);
    ExampleData(FrameData(TorqueRequest(1000, 2)));
  }
}
