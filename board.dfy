/** The LED command of the monitor board's EV-CAN bus
    (firmware/monitor-app/src/board.rs, `EvCanCommand`).

    `SetLed` travels with standard identifier 0x123 and a one-byte payload,
    1 to switch the LED on and 0 to switch it off; any other first byte, and
    any other identifier, is rejected. */
module Board {
  import opened Wrappers
  import opened Primitives
  import opened Bxcan

  const SET_LED_ID: StandardId := 0x123

  datatype EvCanCommand = SetLed(on: bool)

  /** `EvCanCommand::id`. */
  function CommandId(command: EvCanCommand): (id: Id)
    ensures id == Standard(0x123)
  {
    match command
    case SetLed(_) => Standard(SET_LED_ID)
  }

  /** `EvCanCommand::data`: one byte, 1 for on and 0 for off. */
  function CommandData(command: EvCanCommand): (d: Data)
    ensures |d| == 1
    ensures d[0] == 1 <==> command.on
    ensures d[0] == 0 <==> !command.on
  {
    match command
    case SetLed(state) => if state then [1] else [0]
  }

  /** A frame `from_frame` can read without panicking: with the LED
      identifier it must carry at least one data byte, which the source
      unwraps and indexes. */
  ghost predicate Readable(frame: Frame) {
    frame.id == Standard(SET_LED_ID) ==> frame.data.Some? && |frame.data.value| >= 1
  }

  /** `EvCanCommand::from_frame`: the LED identifier with first byte 0 or 1;
      anything else is an error. */
  function FromFrame(frame: Frame): (r: Result<EvCanCommand, ()>)
    requires Readable(frame)
    ensures r.Ok? <==>
      frame.id == Standard(0x123) && (frame.data.value[0] == 0 || frame.data.value[0] == 1)
    ensures r.Ok? ==> (r.value.on <==> frame.data.value[0] == 1)
  {
    if frame.id == Standard(SET_LED_ID) then
      match frame.data.value[0]
      case 0 => Ok(SetLed(false))
      case 1 => Ok(SetLed(true))
      case _ => Err(())
    else
      Err(())
  }

  /** Decoding an encoded command gives the command back. */
  lemma RoundTrip(command: EvCanCommand)
    ensures FromFrame(NewDataFrame(CommandId(command), CommandData(command))) == Ok(command)
  {
  }

  /** A frame that decodes is the encoding of its command, up to the bytes
      after the first. */
  lemma DecodedReencodes(frame: Frame)
    requires Readable(frame) && FromFrame(frame).Ok?
    ensures CommandId(FromFrame(frame).value) == frame.id
    ensures CommandData(FromFrame(frame).value)[0] == frame.data.value[0]
  {
  }
}
