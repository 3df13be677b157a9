/** The CAN frame types of the `bxcan` driver crate, which the EV-CAN codecs
    build on. Only what the codecs use is modelled: an identifier is an
    11-bit standard or a 29-bit extended one (ISO 11898-1), a data field holds
    at most 8 bytes, and a frame is an identifier with a data field, or
    without one for a remote frame. */
module Bxcan {
  import opened Wrappers
  import opened Primitives

  /** An 11-bit base identifier. */
  type StandardId = x: int | 0 <= x < 0x800

  /** A 29-bit extended identifier. */
  type ExtendedId = x: int | 0 <= x < 0x2000_0000

  datatype Id = Standard(standard: StandardId) | Extended(extended: ExtendedId)

  /** The data field of a frame: at most 8 bytes. */
  type Data = d: seq<u8> | |d| <= 8

  /** `Data::new`: fails when given more than 8 bytes. */
  function NewData(bytes: seq<u8>): (r: Option<Data>)
    ensures r.Some? <==> |bytes| <= 8
    ensures r.Some? ==> r.value == bytes
  {
    if |bytes| <= 8 then Some(bytes) else None
  }

  /** A frame; `data` is `None` for a remote frame. */
  datatype Frame = Frame(id: Id, data: Option<Data>)

  /** `Frame::new_data`. */
  function NewDataFrame(id: Id, data: Data): (f: Frame)
    ensures f.id == id && f.data == Some(data)
  {
    Frame(id, Some(data))
  }
}
