/** The channel table of one endpoint: the per-channel state machine of nchan.c and the table operations of
    channels.c, for both tear-down protocols (`compat13` selects protocol 1.3).

    A channel operation is specified by the effect it has on one slot: the slot afterwards, the packets it sends
    and the fault it reports. The class `ChannelTable` performs the operations in place, as the program does. */
module Channels {
  import opened Wire

  datatype ChannelType = Free | Opening | Open | Closed | InputDraining | OutputDraining | PortListener

  /** The half of a channel that moves data from the socket to the connection. */
  datatype InputState = InputOpen | InputWaitDrain | InputWaitOclose | InputClosed

  /** The half of a channel that moves data from the connection to the socket. */
  datatype OutputState = OutputOpen | OutputWaitDrain | OutputWaitIeof | OutputClosed

  /** One slot of the table. `conn` names the logical connection the slot serves; it is bookkeeping for the
      theorems: no operation branches on it and no peer could read it off the wire. */
  datatype Channel = Channel(
    ctype: ChannelType,
    remoteId: int,
    istate: InputState,
    ostate: OutputState,
    input: seq<byte>,
    output: seq<byte>,
    conn: nat)

  /** Channel packets. Protocol 1.5 overloads the last two: `Close` is INPUT_EOF (IEOF) and `CloseConfirmation`
      is OUTPUT_CLOSE (OCLOSE). */
  datatype Packet =
    | PortOpen(chan: int, conn: nat)
    | OpenConfirmation(chan: int, remote: int, conn: nat)
    | OpenFailure(chan: int, conn: nat)
    | Data(chan: int, data: seq<byte>, conn: nat)
    | Close(chan: int, conn: nat)
    | CloseConfirmation(chan: int, conn: nat)

  /** What an operation complains about: `Disconnected` ends the connection, the two errors are only logged,
      `Fatal` ends the program. */
  datatype Fault = NoFault | Disconnected | ProtocolError | InternalError | Fatal

  /** The first fault is the one that counts. */
  function First(earlier: Fault, later: Fault): Fault {
    if earlier.NoFault? then later else earlier
  }

  datatype Effect = Effect(ch: Channel, out: seq<Packet>, fault: Fault)

  // ---------------------------------------------------------------- nchan.c: actions

  function SendIeof(ch: Channel): Effect {
    if ch.istate.InputOpen? || ch.istate.InputWaitDrain? then
      Effect(ch, [Close(ch.remoteId, ch.conn)], NoFault)
    else
      Effect(ch, [], InternalError)
  }

  function SendOclose(ch: Channel): Effect {
    if ch.ostate.OutputOpen? || ch.ostate.OutputWaitDrain? then
      Effect(ch.(output := []), [CloseConfirmation(ch.remoteId, ch.conn)], NoFault)
    else
      Effect(ch, [], InternalError)
  }

  function FreeChannel(ch: Channel): Effect {
    if ch.ctype.Free? then Effect(ch, [], Disconnected)
    else Effect(ch.(ctype := Free, input := [], output := []), [], NoFault)
  }

  function DeleteIfFullClosed(was: Effect): Effect {
    if was.ch.istate.InputClosed? && was.ch.ostate.OutputClosed? then
      var f := FreeChannel(was.ch);
      Effect(f.ch, was.out, First(was.fault, f.fault))
    else
      was
  }

  // ---------------------------------------------------------------- nchan.c: events

  function RcvdOclose(ch: Channel): Effect {
    match ch.istate
    case InputWaitOclose => DeleteIfFullClosed(Effect(ch.(istate := InputClosed), [], NoFault))
    case InputOpen =>
      var s := SendIeof(ch);
      DeleteIfFullClosed(s.(ch := s.ch.(istate := InputClosed)))
    case InputWaitDrain =>
      var s := SendIeof(ch);
      DeleteIfFullClosed(s.(ch := s.ch.(istate := InputClosed)))
    case InputClosed => Effect(ch, [], ProtocolError)
  }

  function ReadFailed(ch: Channel): Effect {
    if ch.istate.InputOpen? then Effect(ch.(istate := InputWaitDrain), [], NoFault)
    else Effect(ch, [], InternalError)
  }

  function IbufEmpty(ch: Channel): Effect {
    if ch.input != [] || !ch.istate.InputWaitDrain? then Effect(ch, [], InternalError)
    else
      var s := SendIeof(ch);
      s.(ch := s.ch.(istate := InputWaitOclose))
  }

  function RcvdIeof(ch: Channel): Effect {
    match ch.ostate
    case OutputOpen => Effect(ch.(ostate := OutputWaitDrain), [], NoFault)
    case OutputWaitIeof => DeleteIfFullClosed(Effect(ch.(ostate := OutputClosed), [], NoFault))
    case _ => Effect(ch, [], ProtocolError)
  }

  function WriteFailed(ch: Channel): Effect {
    match ch.ostate
    case OutputOpen =>
      var s := SendOclose(ch);
      s.(ch := s.ch.(ostate := OutputWaitIeof))
    case OutputWaitDrain =>
      var s := SendOclose(ch);
      DeleteIfFullClosed(s.(ch := s.ch.(ostate := OutputClosed)))
    case _ => Effect(ch, [], InternalError)
  }

  function ObufEmpty(ch: Channel): Effect {
    if ch.output != [] || !ch.ostate.OutputWaitDrain? then Effect(ch, [], InternalError)
    else
      var s := SendOclose(ch);
      DeleteIfFullClosed(s.(ch := s.ch.(ostate := OutputClosed)))
  }

  // ---------------------------------------------------------------- channels.c: the select loop

  predicate ReadSelected(compat13: bool, maxsize: nat, ch: Channel) {
    ch.ctype.Open? && (compat13 || ch.istate.InputOpen?) && |ch.input| < maxsize
  }

  predicate WriteSelected(compat13: bool, ch: Channel) {
    && ch.output != []
    && if compat13 then ch.ctype.Open? || ch.ctype.OutputDraining?
       else ch.ctype.Open? && (ch.ostate.OutputOpen? || ch.ostate.OutputWaitDrain?)
  }

  function PrepareSelect(compat13: bool, ch: Channel): Effect {
    match ch.ctype
    case Open =>
      if !compat13 && ch.ostate.OutputWaitDrain? && ch.output == [] then ObufEmpty(ch)
      else Effect(ch, [], NoFault)
    case InputDraining =>
      if !compat13 then Effect(ch, [], Fatal)
      else if ch.input == [] then
        Effect(ch.(ctype := Closed), [Close(ch.remoteId, ch.conn)], NoFault)
      else Effect(ch, [], NoFault)
    case OutputDraining =>
      if !compat13 then Effect(ch, [], Fatal)
      else if ch.output == [] then FreeChannel(ch)
      else Effect(ch, [], NoFault)
    case _ => Effect(ch, [], NoFault)
  }

  /** The socket of a selected channel gave `data`, or (on an empty `data`) end of file or an error. */
  function SocketRead(compat13: bool, ch: Channel, data: seq<byte>): Effect {
    if data != [] then Effect(ch.(input := ch.input + data), [], NoFault)
    else if compat13 then Effect(ch.(output := [], ctype := InputDraining), [], NoFault)
    else ReadFailed(ch)
  }

  /** The socket of a selected channel took `n` bytes of output, or (on 0) failed. */
  function SocketWrite(compat13: bool, ch: Channel, n: nat): Effect
    requires n <= |ch.output|
  {
    if ch.ctype.OutputDraining? && !compat13 then Effect(ch, [], Fatal)
    else if n > 0 then Effect(ch.(output := ch.output[n..]), [], NoFault)
    else if ch.ctype.OutputDraining? then Effect(ch.(output := []), [], NoFault)
    else if compat13 then Effect(ch.(output := [], ctype := InputDraining), [], NoFault)
    else WriteFailed(ch)
  }

  predicate PollEligible(compat13: bool, ch: Channel) {
    if compat13 then ch.ctype.Open? || ch.ctype.InputDraining?
    else ch.ctype.Open? && (ch.istate.InputOpen? || ch.istate.InputWaitDrain?)
  }

  /** Send `n` buffered bytes of an eligible channel, or announce that there will be no more. */
  function OutputPoll(compat13: bool, ch: Channel, n: nat): Effect
    requires n <= |ch.input|
  {
    if ch.input != [] then
      Effect(ch.(input := ch.input[n..]), [Data(ch.remoteId, ch.input[..n], ch.conn)], NoFault)
    else if !ch.istate.InputWaitDrain? then Effect(ch, [], NoFault)
    else if compat13 then Effect(ch, [], Fatal)
    else IbufEmpty(ch)
  }

  /** How much `channel_output_poll` sends at once. */
  function ChunkSize(interactive: bool, maxsize: nat, len: nat): nat {
    if interactive then (if len > 1024 then 512 else len)
    else if len > maxsize / 2 then maxsize / 2
    else len
  }

  // ---------------------------------------------------------------- channels.c: arriving packets

  function InputData(compat13: bool, ch: Channel, data: seq<byte>): Effect {
    if !ch.ctype.Open? || (!compat13 && !ch.ostate.OutputOpen?) then Effect(ch, [], NoFault)
    else Effect(ch.(output := ch.output + data), [], NoFault)
  }

  function InputClose(compat13: bool, ch: Channel): Effect {
    if !compat13 then RcvdIeof(ch)
    else
      Effect(if ch.ctype.Closed? then ch else ch.(input := [], ctype := OutputDraining),
             [CloseConfirmation(ch.remoteId, ch.conn)], NoFault)
  }

  function InputCloseConfirmation(compat13: bool, ch: Channel): Effect {
    if !compat13 then RcvdOclose(ch)
    else if !ch.ctype.Closed? then Effect(ch, [], Disconnected)
    else FreeChannel(ch)
  }

  function InputOpenConfirmation(ch: Channel, remote: int): Effect {
    if !ch.ctype.Opening? then Effect(ch, [], Disconnected)
    else Effect(ch.(remoteId := remote, ctype := Open), [], NoFault)
  }

  function InputOpenFailure(ch: Channel): Effect {
    if !ch.ctype.Opening? then Effect(ch, [], Disconnected)
    else FreeChannel(ch)
  }

  /** The effect of an arriving packet on the slot it names (a port-open request names no slot of the receiver). */
  function Arrival(compat13: bool, ch: Channel, p: Packet): Effect
    requires !p.PortOpen?
  {
    match p
    case Data(_, data, _) =>
      if ch.ctype.Free? then Effect(ch, [], Disconnected) else InputData(compat13, ch, data)
    case Close(_, _) =>
      if ch.ctype.Free? then Effect(ch, [], Disconnected) else InputClose(compat13, ch)
    case CloseConfirmation(_, _) => InputCloseConfirmation(compat13, ch)
    case OpenConfirmation(_, remote, _) => InputOpenConfirmation(ch, remote)
    case OpenFailure(_, _) => InputOpenFailure(ch)
  }

  // ---------------------------------------------------------------- channels.c: allocation

  function BlankChannel(): Channel {
    Channel(Free, -1, InputOpen, OutputOpen, [], [], 0)
  }

  function NewChannel(ctype: ChannelType, conn: nat): Channel {
    Channel(ctype, -1, InputOpen, OutputOpen, [], [], conn)
  }

  /** The lowest free slot at or after `from`, or the table's size. */
  function FirstFree(channels: seq<Channel>, from: nat): (i: nat)
    requires from <= |channels|
    ensures from <= i <= |channels|
    ensures i < |channels| ==> channels[i].ctype.Free?
    ensures forall j :: from <= j < i ==> !channels[j].ctype.Free?
    decreases |channels| - from
  {
    if from == |channels| || channels[from].ctype.Free? then from else FirstFree(channels, from + 1)
  }

  /** The table grows by ten slots when it is full (and starts with ten). */
  function Grown(channels: seq<Channel>): seq<Channel> {
    if FirstFree(channels, 0) < |channels| then channels
    else channels + seq(10, _ => BlankChannel())
  }

  /** The slot `channel_allocate` picks, and the table with that slot initialised. */
  function AllocatedSlot(channels: seq<Channel>): (i: nat)
    ensures i < |Grown(channels)| && Grown(channels)[i].ctype.Free?
  {
    FirstFree(channels, 0)
  }

  function Allocated(channels: seq<Channel>, ch: Channel): seq<Channel> {
    Grown(channels)[AllocatedSlot(channels) := ch]
  }
}
