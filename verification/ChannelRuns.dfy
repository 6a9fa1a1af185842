/** Two endpoints joined by two FIFO streams of channel packets, as a state machine: every step is one operation of
    channels.c on one slot of one endpoint. */
module ChannelRuns {
  import opened Wire
  import opened Channels

  datatype End = Client | Server

  function Peer(e: End): End {
    if e.Client? then Server else Client
  }

  /** What the outside world sees of one socket: the bytes read from it, the bytes written to it, whether a write ever
      failed, and whether a read ever found the end. */
  datatype Socket = Socket(read: seq<byte>, written: seq<byte>, failed: bool, ended: bool)

  const QuietSocket: Socket := Socket([], [], false, false)

  /** One endpoint: its table, every packet it ever sent, how many of the peer's packets it has processed, and its
      socket for each connection. */
  datatype Host = Host(channels: seq<Channel>, wire: seq<Packet>, got: nat, socks: seq<Socket>)

  datatype System = System(client: Host, server: Host, fault: Fault)

  function At(sys: System, e: End): Host {
    if e.Client? then sys.client else sys.server
  }

  function With(sys: System, e: End, h: Host): System {
    if e.Client? then sys.(client := h) else sys.(server := h)
  }

  /** The number of connections requested so far; each gets the next number. */
  function Connections(sys: System): nat {
    |sys.client.socks|
  }

  const Start: System := System(Host([], [], 0, []), Host([], [], 0, []), NoFault)

  datatype Action =
    | Listen(e: End)
    | OpenRequest(e: End)
    | Prepare(e: End, c: nat)
    | Read(e: End, c: nat, data: seq<byte>)
    | Write(e: End, c: nat, n: nat)
    | Poll(e: End, c: nat, n: nat)
    | Deliver(e: End, connected: bool)

  predicate Pending(sys: System, e: End) {
    At(sys, e).got < |At(sys, Peer(e)).wire|
  }

  /** Whether the select loop's work on a slot does anything beyond filling the select masks. */
  predicate PrepareActs(compat13: bool, ch: Channel) {
    PrepareSelect(compat13, ch) != Effect(ch, [], NoFault)
  }

  /** A socket is read or written only when selected; a poll sends at least a byte if there is one, and is of
      interest only if there is something to send or to announce. An empty read and a write of nothing are the
      failures. */
  predicate Enabled(compat13: bool, maxsize: nat, sys: System, a: Action) {
    sys.fault.NoFault? &&
    match a
    case Listen(_) => true
    case OpenRequest(_) => true
    case Deliver(e, _) => Pending(sys, e)
    case Prepare(e, c) => c < |At(sys, e).channels| && PrepareActs(compat13, At(sys, e).channels[c])
    case Read(e, c, _) => c < |At(sys, e).channels| && ReadSelected(compat13, maxsize, At(sys, e).channels[c])
    case Write(e, c, n) =>
      && c < |At(sys, e).channels|
      && WriteSelected(compat13, At(sys, e).channels[c])
      && n <= |At(sys, e).channels[c].output|
    case Poll(e, c, n) =>
      && c < |At(sys, e).channels|
      && var ch := At(sys, e).channels[c];
      && PollEligible(compat13, ch)
      && (if ch.input == [] then n == 0 && ch.istate.InputWaitDrain? else 1 <= n <= |ch.input|)
  }

  /** The socket of slot `ch` after an operation, `f` applied to what it was. */
  function Touch(socks: seq<Socket>, ch: Channel, s: Socket): seq<Socket> {
    if ch.conn < |socks| then socks[ch.conn := s] else socks
  }

  function SocketOf(socks: seq<Socket>, ch: Channel): Socket {
    if ch.conn < |socks| then socks[ch.conn] else QuietSocket
  }

  /** Endpoint `e` after an effect on its slot `c`, with `s` as the socket of that slot's connection. */
  function Affect(sys: System, e: End, c: nat, eff: Effect, s: Socket): System
    requires c < |At(sys, e).channels|
  {
    var h := At(sys, e);
    var ch := h.channels[c];
    With(sys, e, h.(channels := h.channels[c := eff.ch],
                    wire := h.wire + eff.out,
                    socks := Touch(h.socks, ch, s))).(fault := First(sys.fault, eff.fault))
  }

  /** A listening socket takes a slot. */
  function Listener(h: Host): Host {
    h.(channels := Allocated(h.channels, NewChannel(PortListener, 0)))
  }

  /** `channel_input_port_open`: connect, then take a slot and confirm, or report failure. */
  function AcceptOpen(h: Host, p: Packet, connected: bool): Host
    requires p.PortOpen?
  {
    if connected then
      h.(channels := Allocated(h.channels, NewChannel(Open, p.conn).(remoteId := p.chan)),
         wire := h.wire + [OpenConfirmation(p.chan, AllocatedSlot(h.channels), p.conn)])
    else
      h.(wire := h.wire + [OpenFailure(p.chan, p.conn)])
  }

  /** The next packet for `e` is processed. Ids outside the table disconnect. */
  function Receive(compat13: bool, sys: System, e: End, connected: bool): System
    requires Pending(sys, e)
  {
    var h := At(sys, e);
    var p := At(sys, Peer(e)).wire[h.got];
    var h' := h.(got := h.got + 1);
    if p.PortOpen? then With(sys, e, AcceptOpen(h', p, connected))
    else if p.chan < 0 || p.chan >= |h.channels| then
      With(sys, e, h').(fault := First(sys.fault, Disconnected))
    else
      var ch := h.channels[p.chan];
      Affect(With(sys, e, h'), e, p.chan, Arrival(compat13, ch, p), SocketOf(h.socks, ch))
  }

  function Next(compat13: bool, maxsize: nat, sys: System, a: Action): System
    requires Enabled(compat13, maxsize, sys, a)
  {
    match a
    case Listen(e) =>
      With(sys, e, Listener(At(sys, e)))
    case OpenRequest(e) =>
      var k := Connections(sys);
      var more := System(sys.client.(socks := sys.client.socks + [QuietSocket]),
                         sys.server.(socks := sys.server.socks + [QuietSocket]), sys.fault);
      var h := At(more, e);
      With(more, e, h.(channels := Allocated(h.channels, NewChannel(Opening, k)),
                       wire := h.wire + [PortOpen(AllocatedSlot(h.channels), k)]))
    case Prepare(e, c) =>
      var ch := At(sys, e).channels[c];
      Affect(sys, e, c, PrepareSelect(compat13, ch), SocketOf(At(sys, e).socks, ch))
    case Read(e, c, data) =>
      var ch := At(sys, e).channels[c];
      var s := SocketOf(At(sys, e).socks, ch);
      Affect(sys, e, c, SocketRead(compat13, ch, data), s.(read := s.read + data, ended := s.ended || data == []))
    case Write(e, c, n) =>
      var ch := At(sys, e).channels[c];
      var s := SocketOf(At(sys, e).socks, ch);
      Affect(sys, e, c, SocketWrite(compat13, ch, n),
             s.(written := s.written + ch.output[..n], failed := s.failed || n == 0))
    case Poll(e, c, n) =>
      var ch := At(sys, e).channels[c];
      Affect(sys, e, c, OutputPoll(compat13, ch, n), SocketOf(At(sys, e).socks, ch))
    case Deliver(e, connected) => Receive(compat13, sys, e, connected)
  }

  /** A run: a trace of states from the start, each reached from the one before by an enabled action. */
  ghost predicate IsRun(compat13: bool, maxsize: nat, trace: seq<System>, acts: seq<Action>) {
    && |trace| == |acts| + 1
    && trace[0] == Start
    && forall i :: 0 <= i < |acts| ==>
         Enabled(compat13, maxsize, trace[i], acts[i]) && trace[i+1] == Next(compat13, maxsize, trace[i], acts[i])
  }

  /** The packets of `s` that belong to connection `k`, in order. */
  function Of(s: seq<Packet>, k: nat): seq<Packet> {
    if s == [] then []
    else if s[|s|-1].conn == k then Of(s[..|s|-1], k) + [s[|s|-1]]
    else Of(s[..|s|-1], k)
  }
}
