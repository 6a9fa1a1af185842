/** Tear-down always finishes, under either protocol: once both sides of a connection have stopped reading, everything
    that can still happen to it makes a measure smaller, and when nothing can happen any more both slots are free. */
module ChannelProgress {
  import opened Channels
  import opened ChannelRuns
  import opened Connection
  import opened ChannelSafety
  import opened ChannelTheorems

  // ---------------------------------------------------------------- the measure

  function ChannelWeight(compat13: bool, ch: Channel): nat {
    if compat13 then Weight13(ch) else Weight15(ch)
  }

  function Weight15(ch: Channel): nat {
    (match ch.istate
     case InputOpen => 9
     case InputWaitDrain => 6
     case InputWaitOclose => 3
     case InputClosed => 0)
    + (match ch.ostate
       case OutputOpen => 4
       case OutputWaitDrain => 2
       case OutputWaitIeof => 2
       case OutputClosed => 0)
    + (if ch.istate.InputOpen? || ch.istate.InputWaitDrain? then 4 * |ch.input| else 0)
    + |ch.output|
  }

  function Weight13(ch: Channel): nat {
    (match ch.ctype
     case InputDraining => 4 + 4 * |ch.input|
     case _ => 1)
    + |ch.output|
  }

  /** A packet in flight weighs more than the bytes it will leave in the peer's buffer, and a close more than the
      confirmation it may bring back. */
  function PacketWeight(p: Packet): nat {
    match p
    case Data(_, data, _) => 1 + 2 * |data|
    case Close(_, _) => 2
    case _ => 1
  }

  function PacketsWeight(s: seq<Packet>): nat {
    if s == [] then 0 else PacketsWeight(s[..|s|-1]) + PacketWeight(s[|s|-1])
  }

  function SlotsWeight(compat13: bool, channels: seq<Channel>, k: nat): nat {
    if channels == [] then 0
    else
      var ch := channels[|channels|-1];
      SlotsWeight(compat13, channels[..|channels|-1], k)
      + if Occupied(ch) && ch.conn == k then ChannelWeight(compat13, ch) else 0
  }

  /** One endpoint's share: its slot of the connection, what it has sent, less what it has processed. */
  function Share(compat13: bool, h: Host, peer: Host, k: nat): int
    requires h.got <= |peer.wire|
  {
    SlotsWeight(compat13, h.channels, k) + PacketsWeight(Of(h.wire, k)) - PacketsWeight(Of(peer.wire[..h.got], k))
  }

  /** What connection `k` still has ahead of it: the states and buffers of its slots and its packets in flight. */
  function Weight(compat13: bool, sys: System, k: nat): int
    requires sys.client.got <= |sys.server.wire| && sys.server.got <= |sys.client.wire|
  {
    Share(compat13, sys.client, sys.server, k) + Share(compat13, sys.server, sys.client, k)
  }

  lemma {:induction false} SlotsWeightUpdate(compat13: bool, channels: seq<Channel>, i: nat, ch: Channel, k: nat)
    requires i < |channels|
    ensures SlotsWeight(compat13, channels[i := ch], k)
      == SlotsWeight(compat13, channels, k)
         - (if Occupied(channels[i]) && channels[i].conn == k then ChannelWeight(compat13, channels[i]) else 0)
         + (if Occupied(ch) && ch.conn == k then ChannelWeight(compat13, ch) else 0)
    decreases |channels|
  {
    var last := |channels| - 1;
    if i == last {
      assert channels[i := ch][..last] == channels[..last];
    } else {
      assert channels[i := ch][..last] == channels[..last][i := ch];
      SlotsWeightUpdate(compat13, channels[..last], i, ch, k);
    }
  }

  lemma PacketsWeightAppend(s: seq<Packet>, out: seq<Packet>)
    requires |out| <= 1
    ensures PacketsWeight(s + out)
      == PacketsWeight(s) + if out == [] then 0 else PacketWeight(out[0])
  {
    if out == [] {
      assert s + out == s;
    } else {
      assert (s + out)[..|s|] == s;
    }
  }

  lemma {:induction false} PacketsWeightPrefix(s: seq<Packet>, n: nat)
    requires n <= |s|
    ensures PacketsWeight(s[..n]) <= PacketsWeight(s)
    decreases |s|
  {
    if n < |s| {
      PacketsWeightPrefix(s[..|s|-1], n);
      assert s[..|s|-1][..n] == s[..n];
    } else {
      assert s[..n] == s;
    }
  }

  lemma WeightIsNatural(compat13: bool, sys: System, k: nat)
    requires sys.client.got <= |sys.server.wire| && sys.server.got <= |sys.client.wire|
    ensures Weight(compat13, sys, k) >= 0
  {
    OfPrefix(sys.client.wire, sys.server.got, k);
    OfPrefix(sys.server.wire, sys.client.got, k);
    var c, d := Of(sys.client.wire, k), Of(sys.server.wire, k);
    var m, n := |Of(sys.client.wire[..sys.server.got], k)|, |Of(sys.server.wire[..sys.client.got], k)|;
    PacketsWeightPrefix(c, m);
    PacketsWeightPrefix(d, n);
    assert c[..m] == Of(sys.client.wire[..sys.server.got], k);
    assert d[..n] == Of(sys.server.wire[..sys.client.got], k);
  }

  // ---------------------------------------------------------------- each step makes it smaller

  /** The slot's socket is no longer read. */
  predicate Stopped(compat13: bool, ch: Channel) {
    if compat13 then ch.ctype.InputDraining? || ch.ctype.Closed? || ch.ctype.OutputDraining?
    else ch.ctype.Open? && !ch.istate.InputOpen?
  }

  predicate StoppedReading(compat13: bool, channels: seq<Channel>, k: nat) {
    forall c :: 0 <= c < |channels| && Occupied(channels[c]) && channels[c].conn == k ==>
      Stopped(compat13, channels[c])
  }

  /** The connection is established and both sides have left the reading state; a side may be gone already. */
  predicate Closing(compat13: bool, sys: System, k: nat) {
    StoppedReading(compat13, sys.client.channels, k) && StoppedReading(compat13, sys.server.channels, k)
  }

  /** The action works on connection `k`. */
  predicate Concerns(sys: System, a: Action, k: nat) {
    match a
    case Listen(_) => false
    case OpenRequest(_) => false
    case Deliver(e, _) => Pending(sys, e) && At(sys, Peer(e)).wire[At(sys, e).got].conn == k
    case _ => a.c < |At(sys, a.e).channels| && At(sys, a.e).channels[a.c].conn == k
  }

  /** The weight an effect takes off a slot, less the weight of what it sends. */
  predicate Lightens(compat13: bool, ch: Channel, eff: Effect, carried: nat) {
    && |eff.out| <= 1
    && PacketsWeight(eff.out) + (if Occupied(eff.ch) then ChannelWeight(compat13, eff.ch) else 0)
       < ChannelWeight(compat13, ch) + carried
  }

  lemma OneOut(out: seq<Packet>)
    requires |out| <= 1
    ensures PacketsWeight(out) == if out == [] then 0 else PacketWeight(out[0])
  {
    PacketsWeightAppend([], out);
    assert [] + out == out;
  }

  lemma PrepareLightens(compat13: bool, ch: Channel)
    requires Stopped(compat13, ch) && PrepareActs(compat13, ch)
    ensures Lightens(compat13, ch, PrepareSelect(compat13, ch), 0)
  {
    OneOut(PrepareSelect(compat13, ch).out);
  }

  lemma WriteLightens(compat13: bool, ch: Channel, n: nat)
    requires Stopped(compat13, ch) && WriteSelected(compat13, ch) && n <= |ch.output|
    ensures Lightens(compat13, ch, SocketWrite(compat13, ch, n), 0)
  {
    OneOut(SocketWrite(compat13, ch, n).out);
  }

  lemma PollLightens(compat13: bool, ch: Channel, n: nat)
    requires Stopped(compat13, ch) && PollEligible(compat13, ch)
    requires if ch.input == [] then n == 0 && ch.istate.InputWaitDrain? else 1 <= n <= |ch.input|
    requires OutputPoll(compat13, ch, n).fault.NoFault?
    ensures Lightens(compat13, ch, OutputPoll(compat13, ch, n), 0)
  {
    OneOut(OutputPoll(compat13, ch, n).out);
  }

  lemma ArrivalLightens(compat13: bool, ch: Channel, p: Packet)
    requires Stopped(compat13, ch) && Finds(compat13, ch, p) && !p.PortOpen?
    requires Arrival(compat13, ch, p).fault.NoFault?
    ensures Lightens(compat13, ch, Arrival(compat13, ch, p), PacketsWeight([p]))
  {
    OneOut(Arrival(compat13, ch, p).out);
    OneOut([p]);
  }

  /** The weight of a system after an effect of one slot, having processed `pop` packets. */
  lemma WeightAfter(compat13: bool, h: Host, peer: Host, k: nat, slot: nat, eff: Effect, pop: nat, sock: Socket)
    requires slot < |h.channels| && k < |h.socks| && pop <= 1 && h.got + pop <= |peer.wire| && peer.got <= |h.wire|
    requires Occupied(h.channels[slot]) && h.channels[slot].conn == k == eff.ch.conn
    requires Tagged(eff.out, k)
    requires pop == 1 ==> peer.wire[h.got].conn == k
    requires Lightens(compat13, h.channels[slot], eff, if pop == 1 then PacketsWeight([peer.wire[h.got]]) else 0)
    ensures var h' := Updated(h, slot, k, eff, pop, sock);
      && Share(compat13, h', peer, k) < Share(compat13, h, peer, k)
      && Share(compat13, peer, h', k) == Share(compat13, peer, h, k)
  {
    hide SlotsWeight, Of;
    assert (h.wire + eff.out)[..peer.got] == h.wire[..peer.got];
    SlotsWeightUpdate(compat13, h.channels, slot, eff.ch, k);
    OfAppend(h.wire, eff.out, k, k);
    PacketsWeightAppend(Of(h.wire, k), eff.out);
    OneOut(eff.out);
    if pop == 1 {
      OfTakeOneMore(peer.wire, h.got, k);
      PacketsWeightAppend(Of(peer.wire[..h.got], k), [peer.wire[h.got]]);
      OneOut([peer.wire[h.got]]);
    }
  }

  /** Another connection's effect changes nothing. */
  lemma OthersWeigh(compat13: bool, h: Host, peer: Host, k: nat, j: nat, slot: nat, eff: Effect, pop: nat, sock: Socket)
    requires j != k && slot < |h.channels| && j < |h.socks| && pop <= 1 && h.got + pop <= |peer.wire|
    requires peer.got <= |h.wire|
    requires h.channels[slot].conn == j == eff.ch.conn && Tagged(eff.out, j)
    requires pop == 1 ==> peer.wire[h.got].conn == j
    ensures var h' := Updated(h, slot, j, eff, pop, sock);
      && Share(compat13, h', peer, k) == Share(compat13, h, peer, k)
      && Share(compat13, peer, h', k) == Share(compat13, peer, h, k)
      && (StoppedReading(compat13, h.channels, k) ==> StoppedReading(compat13, h'.channels, k))
  {
    hide SlotsWeight, Of, PacketsWeight;
    assert (h.wire + eff.out)[..peer.got] == h.wire[..peer.got];
    SlotsWeightUpdate(compat13, h.channels, slot, eff.ch, k);
    OfAppend(h.wire, eff.out, j, k);
    if pop == 1 {
      OfTakeOneMore(peer.wire, h.got, k);
    }
  }

  lemma {:induction false} BlankSlotsWeighNothing(compat13: bool, channels: seq<Channel>, n: nat, k: nat)
    ensures SlotsWeight(compat13, channels + seq(n, _ => BlankChannel()), k) == SlotsWeight(compat13, channels, k)
    decreases n
  {
    var blanks := seq(n, _ => BlankChannel());
    if n == 0 {
      assert channels + blanks == channels;
    } else {
      assert (channels + blanks)[..|channels|+n-1] == channels + seq(n - 1, _ => BlankChannel());
      BlankSlotsWeighNothing(compat13, channels, n - 1, k);
    }
  }

  /** Nor does taking a slot for something else. */
  lemma AllocationWeighsNothing(compat13: bool, channels: seq<Channel>, ch: Channel, k: nat)
    requires Occupied(ch) ==> ch.conn != k
    ensures SlotsWeight(compat13, Allocated(channels, ch), k) == SlotsWeight(compat13, channels, k)
    ensures StoppedReading(compat13, channels, k) ==> StoppedReading(compat13, Allocated(channels, ch), k)
  {
    BlankSlotsWeighNothing(compat13, channels, 10, k);
    SlotsWeightUpdate(compat13, Grown(channels), AllocatedSlot(channels), ch, k);
  }

  /** An endpoint that takes a slot and sends a packet for something else. */
  lemma AllocationKeepsShares(compat13: bool, h: Host, peer: Host, k: nat, h': Host, out: seq<Packet>, j: nat)
    requires h.got <= h'.got <= |peer.wire| && peer.got <= |h.wire| && h'.got <= h.got + 1
    requires h'.wire == h.wire + out && Tagged(out, j) && j != k
    requires h'.got == h.got + 1 ==> peer.wire[h.got].conn == j
    requires SlotsWeight(compat13, h'.channels, k) == SlotsWeight(compat13, h.channels, k)
    ensures Share(compat13, h', peer, k) == Share(compat13, h, peer, k)
    ensures Share(compat13, peer, h', k) == Share(compat13, peer, h, k)
  {
    assert (h.wire + out)[..peer.got] == h.wire[..peer.got];
    OfAppend(h.wire, out, j, k);
    if h'.got == h.got + 1 {
      OfTakeOneMore(peer.wire, h.got, k);
    }
  }

  // ---------------------------------------------------------------- steps of the system

  /** The action either makes connection `k` lighter, if it concerns `k`, or leaves its weight alone. */
  ghost predicate Progresses(compat13: bool, sys: System, sys': System, k: nat, concerned: bool) {
    && sys.client.got <= |sys.server.wire| && sys.server.got <= |sys.client.wire|
    && sys'.client.got <= |sys'.server.wire| && sys'.server.got <= |sys'.client.wire|
    && Closing(compat13, sys', k)
    && (if concerned then Weight(compat13, sys', k) < Weight(compat13, sys, k)
        else Weight(compat13, sys', k) == Weight(compat13, sys, k))
  }

  lemma OwnEffect(compat13: bool, h: Host, peer: Host, k: nat, slot: nat, eff: Effect, pop: nat, sock: Socket)
    requires slot < |h.channels| && k < |h.socks| && pop <= 1 && h.got + pop <= |peer.wire| && peer.got <= |h.wire|
    requires Occupied(h.channels[slot]) && h.channels[slot].conn == k == eff.ch.conn && Tagged(eff.out, k)
    requires pop == 1 ==> peer.wire[h.got].conn == k
    requires Lightens(compat13, h.channels[slot], eff, if pop == 1 then PacketsWeight([peer.wire[h.got]]) else 0)
    requires StoppedReading(compat13, h.channels, k) && (Occupied(eff.ch) ==> Stopped(compat13, eff.ch))
    ensures var h' := Updated(h, slot, k, eff, pop, sock);
      && Share(compat13, h', peer, k) < Share(compat13, h, peer, k)
      && Share(compat13, peer, h', k) == Share(compat13, peer, h, k)
      && StoppedReading(compat13, h'.channels, k)
  {
    hide Share, SlotsWeight, PacketsWeight, Of;
    WeightAfter(compat13, h, peer, k, slot, eff, pop, sock);
  }

  lemma EffectProgresses(compat13: bool, sys: System, k: nat, e: End, slot: nat, j: nat, eff: Effect, pop: nat,
                         sock: Socket)
    requires sys.client.got <= |sys.server.wire| && sys.server.got <= |sys.client.wire| && Closing(compat13, sys, k)
    requires slot < |At(sys, e).channels| && j < |At(sys, e).socks|
    requires Occupied(At(sys, e).channels[slot]) && At(sys, e).channels[slot].conn == j == eff.ch.conn
    requires Tagged(eff.out, j) && pop <= 1 && At(sys, e).got + pop <= |At(sys, Peer(e)).wire|
    requires pop == 1 ==> At(sys, Peer(e)).wire[At(sys, e).got].conn == j
    requires j == k ==>
      && Lightens(compat13, At(sys, e).channels[slot], eff,
                  if pop == 1 then PacketsWeight([At(sys, Peer(e)).wire[At(sys, e).got]]) else 0)
      && (Occupied(eff.ch) ==> Stopped(compat13, eff.ch))
    ensures Progresses(compat13, sys, With(sys, e, Updated(At(sys, e), slot, j, eff, pop, sock)), k, j == k)
  {
    hide SlotsWeight, PacketsWeight, Of;
    if j == k {
      OwnEffect(compat13, At(sys, e), At(sys, Peer(e)), k, slot, eff, pop, sock);
    } else {
      OthersWeigh(compat13, At(sys, e), At(sys, Peer(e)), k, j, slot, eff, pop, sock);
    }
  }

  lemma LocalLightens(compat13: bool, maxsize: nat, sys: System, a: Action)
    requires Local(a) && Enabled(compat13, maxsize, sys, a)
    requires Stopped(compat13, At(sys, a.e).channels[a.c])
    requires LocalEffect(compat13, At(sys, a.e).channels[a.c], a).fault.NoFault?
    ensures var ch := At(sys, a.e).channels[a.c];
      var eff := LocalEffect(compat13, ch, a);
      Lightens(compat13, ch, eff, 0) && (Occupied(eff.ch) ==> Stopped(compat13, eff.ch))
  {
    var ch := At(sys, a.e).channels[a.c];
    match a
    case Prepare(_, _) => PrepareLightens(compat13, ch);
    case Read(_, _, _) =>
    case Write(_, _, n) => WriteLightens(compat13, ch, n);
    case Poll(_, _, n) => PollLightens(compat13, ch, n);
  }

  predicate InBounds(sys: System) {
    sys.client.got <= |sys.server.wire| && sys.server.got <= |sys.client.wire|
  }

  /** An effect that one connection may have on its slot, in terms of the tables alone. */
  predicate Fits(sys: System, e: End, slot: nat, j: nat, eff: Effect) {
    && slot < |At(sys, e).channels| && j < |At(sys, e).socks|
    && Occupied(At(sys, e).channels[slot]) && At(sys, e).channels[slot].conn == j == eff.ch.conn
    && eff.fault.NoFault? && (forall i :: 0 <= i < |eff.out| ==> eff.out[i].conn == j)
  }

  lemma LocalFits(compat13: bool, maxsize: nat, conns: seq<Conn>, sys: System, a: Action)
    requires Describes(compat13, conns, sys) && Local(a) && Enabled(compat13, maxsize, sys, a)
    ensures InBounds(sys)
    ensures var ch := At(sys, a.e).channels[a.c]; Fits(sys, a.e, a.c, ch.conn, LocalEffect(compat13, ch, a))
  {
    LocalIsOk(compat13, maxsize, conns, sys, a);
  }

  lemma LocalProgresses(compat13: bool, maxsize: nat, sys: System, a: Action, k: nat)
    requires InBounds(sys) && Local(a) && Enabled(compat13, maxsize, sys, a) && Closing(compat13, sys, k)
    requires var ch := At(sys, a.e).channels[a.c]; Fits(sys, a.e, a.c, ch.conn, LocalEffect(compat13, ch, a))
    ensures Progresses(compat13, sys, Next(compat13, maxsize, sys, a), k, Concerns(sys, a, k))
  {
    var ch := At(sys, a.e).channels[a.c];
    LocalNextFits(compat13, maxsize, sys, a);
    if ch.conn == k {
      LocalLightens(compat13, maxsize, sys, a);
    }
    EffectProgresses(compat13, sys, k, a.e, a.c, ch.conn, LocalEffect(compat13, ch, a), 0,
                     LocalSocket(ch, SocketOf(At(sys, a.e).socks, ch), a));
  }

  lemma LocalNextFits(compat13: bool, maxsize: nat, sys: System, a: Action)
    requires Local(a) && Enabled(compat13, maxsize, sys, a)
    requires var ch := At(sys, a.e).channels[a.c]; Fits(sys, a.e, a.c, ch.conn, LocalEffect(compat13, ch, a))
    ensures var ch := At(sys, a.e).channels[a.c];
      Next(compat13, maxsize, sys, a) ==
      With(sys, a.e, Updated(At(sys, a.e), a.c, ch.conn, LocalEffect(compat13, ch, a), 0,
                             LocalSocket(ch, SocketOf(At(sys, a.e).socks, ch), a)))
  {
    LocalNext(compat13, maxsize, sys, a);
  }

  lemma ArrivalFits(compat13: bool, conns: seq<Conn>, sys: System, e: End)
    requires Describes(compat13, conns, sys) && Pending(sys, e)
    requires !At(sys, Peer(e)).wire[At(sys, e).got].PortOpen?
    ensures InBounds(sys)
    ensures var p := At(sys, Peer(e)).wire[At(sys, e).got];
      && 0 <= p.chan < |At(sys, e).channels| && Finds(compat13, At(sys, e).channels[p.chan], p)
      && Fits(sys, e, p.chan, p.conn, Arrival(compat13, At(sys, e).channels[p.chan], p))
  {
    ArrivalIsExpected(compat13, conns, sys, e);
  }

  lemma ArrivalProgresses(compat13: bool, maxsize: nat, sys: System, e: End, connected: bool, k: nat)
    requires InBounds(sys) && sys.fault.NoFault? && Pending(sys, e) && Closing(compat13, sys, k)
    requires var p := At(sys, Peer(e)).wire[At(sys, e).got];
      && !p.PortOpen? && 0 <= p.chan < |At(sys, e).channels| && Finds(compat13, At(sys, e).channels[p.chan], p)
      && Fits(sys, e, p.chan, p.conn, Arrival(compat13, At(sys, e).channels[p.chan], p))
    ensures Progresses(compat13, sys, Next(compat13, maxsize, sys, Deliver(e, connected)), k,
                       Concerns(sys, Deliver(e, connected), k))
  {
    hide Arrival, Share, Next, Progresses;
    var p := At(sys, Peer(e)).wire[At(sys, e).got];
    var ch, sock := At(sys, e).channels[p.chan], At(sys, e).socks[p.conn];
    ArrivalNext(compat13, maxsize, sys, e, connected, Side(Live, p.chan, ch, [], 0, sock));
    if p.conn == k {
      ArrivalLightens(compat13, ch, p);
      ArrivalKeepsStopped(compat13, ch, p);
    }
    EffectProgresses(compat13, sys, k, e, p.chan, p.conn, Arrival(compat13, ch, p), 1, sock);
  }

  lemma ArrivalKeepsStopped(compat13: bool, ch: Channel, p: Packet)
    requires Stopped(compat13, ch) && !p.PortOpen?
    ensures var eff := Arrival(compat13, ch, p); Occupied(eff.ch) ==> Stopped(compat13, eff.ch)
  {
  }

  /** A request still to be answered has its sender waiting, so it is not for a connection that is closing. */
  lemma RequestIsNotClosing(compat13: bool, conns: seq<Conn>, sys: System, e: End, k: nat)
    requires Describes(compat13, conns, sys) && Pending(sys, e) && Closing(compat13, sys, k)
    requires At(sys, Peer(e)).wire[At(sys, e).got].PortOpen?
    ensures At(sys, Peer(e)).wire[At(sys, e).got].conn != k
  {
    RequestArrives(compat13, conns, sys, e);
    var p := At(sys, Peer(e)).wire[At(sys, e).got];
    assert Inv(p.conn, compat13, conns[p.conn]);
    assert Waiting(SideAt(conns[p.conn], Peer(e)));
    assert Occupied(At(sys, Peer(e)).channels[SideAt(conns[p.conn], Peer(e)).slot]);
  }

  lemma HostsProgress(compat13: bool, sys: System, sys': System, e: End, k: nat)
    requires InBounds(sys) && InBounds(sys') && Closing(compat13, sys, k)
    requires At(sys', Peer(e)) == At(sys, Peer(e)).(socks := At(sys', Peer(e)).socks)
    requires StoppedReading(compat13, At(sys', e).channels, k)
    requires var h, h', peer := At(sys, e), At(sys', e), At(sys, Peer(e));
      && Share(compat13, h', peer, k) == Share(compat13, h, peer, k)
      && Share(compat13, peer, h', k) == Share(compat13, peer, h, k)
    ensures Progresses(compat13, sys, sys', k, false)
  {
  }

  lemma AnswerProgresses(compat13: bool, maxsize: nat, sys: System, e: End, connected: bool, k: nat)
    requires InBounds(sys) && sys.fault.NoFault? && Pending(sys, e) && Closing(compat13, sys, k)
    requires var p := At(sys, Peer(e)).wire[At(sys, e).got]; p.PortOpen? && p.conn != k
    ensures Progresses(compat13, sys, Next(compat13, maxsize, sys, Deliver(e, connected)), k, false)
  {
    var h, peer := At(sys, e), At(sys, Peer(e));
    var p := peer.wire[h.got];
    var h' := AcceptOpen(h.(got := h.got + 1), p, connected);
    var out := if connected then [OpenConfirmation(p.chan, AllocatedSlot(h.channels), p.conn)]
               else [OpenFailure(p.chan, p.conn)];
    AllocationWeighsNothing(compat13, h.channels, NewChannel(Open, p.conn).(remoteId := p.chan), k);
    AllocationKeepsShares(compat13, h, peer, k, h', out, p.conn);
    AnswerNext(compat13, maxsize, sys, e, connected);
    HostsProgress(compat13, sys, With(sys, e, h'), e, k);
  }

  lemma AnswerNext(compat13: bool, maxsize: nat, sys: System, e: End, connected: bool)
    requires sys.fault.NoFault? && Pending(sys, e) && At(sys, Peer(e)).wire[At(sys, e).got].PortOpen?
    ensures var h := At(sys, e);
      Next(compat13, maxsize, sys, Deliver(e, connected)) ==
      With(sys, e, AcceptOpen(h.(got := h.got + 1), At(sys, Peer(e)).wire[h.got], connected))
  {
  }

  lemma ListenProgresses(compat13: bool, sys: System, e: End, k: nat)
    requires InBounds(sys) && Closing(compat13, sys, k)
    ensures Progresses(compat13, sys, With(sys, e, Listener(At(sys, e))), k, false)
  {
    var h := At(sys, e);
    AllocationWeighsNothing(compat13, h.channels, NewChannel(PortListener, 0), k);
    HostsProgress(compat13, sys, With(sys, e, Listener(h)), e, k);
  }

  lemma RequestProgresses(compat13: bool, maxsize: nat, sys: System, e: End, k: nat)
    requires InBounds(sys) && sys.fault.NoFault? && Closing(compat13, sys, k) && k < Connections(sys)
    ensures Progresses(compat13, sys, Next(compat13, maxsize, sys, OpenRequest(e)), k, false)
  {
    var h, peer, j := At(sys, e), At(sys, Peer(e)), Connections(sys);
    AllocationWeighsNothing(compat13, h.channels, NewChannel(Opening, j), k);
    AllocationKeepsShares(compat13, h, peer, k, Requester(h, j), [PortOpen(AllocatedSlot(h.channels), j)], j);
    HostsProgress(compat13, sys, With(With(sys, e, Requester(h, j)), Peer(e), Bystander(peer)), e, k);
  }

  /** Tear-down makes progress: from the moment both sides of connection `k` have stopped reading, its weight stays a
      natural number that every action on `k` decreases and no other action changes, and the connection stays closing;
      so only finitely many actions can still concern it. */
  lemma TeardownProgresses(compat13: bool, maxsize: nat, trace: seq<System>, acts: seq<Action>, n: nat, k: nat)
    requires IsRun(compat13, maxsize, trace, acts) && n < |acts|
    requires k < Connections(trace[n]) && Closing(compat13, trace[n], k)
    ensures Progresses(compat13, trace[n], trace[n+1], k, Concerns(trace[n], acts[n], k))
    ensures Weight(compat13, trace[n+1], k) >= 0
  {
    var sys, a := trace[n], acts[n];
    var conns := RunDescribed(compat13, maxsize, trace, acts, n);
    assert InBounds(sys);
    StepProgresses(compat13, maxsize, conns, sys, a, k);
    WeightIsNatural(compat13, trace[n+1], k);
  }

  lemma StepProgresses(compat13: bool, maxsize: nat, conns: seq<Conn>, sys: System, a: Action, k: nat)
    requires Describes(compat13, conns, sys) && Enabled(compat13, maxsize, sys, a)
    requires k < Connections(sys) && Closing(compat13, sys, k) && InBounds(sys)
    ensures Progresses(compat13, sys, Next(compat13, maxsize, sys, a), k, Concerns(sys, a, k))
  {
    hide Progresses, Describes;
    match a {
      case Deliver(e, connected) =>
        if At(sys, Peer(e)).wire[At(sys, e).got].PortOpen? {
          RequestIsNotClosing(compat13, conns, sys, e, k);
          AnswerProgresses(compat13, maxsize, sys, e, connected, k);
        } else {
          ArrivalFits(compat13, conns, sys, e);
          ArrivalProgresses(compat13, maxsize, sys, e, connected, k);
        }
      case Listen(e) => ListenProgresses(compat13, sys, e, k);
      case OpenRequest(e) => RequestProgresses(compat13, maxsize, sys, e, k);
      case _ =>
        LocalFits(compat13, maxsize, conns, sys, a);
        LocalProgresses(compat13, maxsize, sys, a, k);
    }
  }

  // ---------------------------------------------------------------- where it ends

  /** Endpoint `e` has processed all that was sent to it for connection `k`. */
  ghost predicate HasHeard(sys: System, e: End, k: nat) {
    At(sys, e).got <= |At(sys, Peer(e)).wire| &&
    Of(At(sys, Peer(e)).wire[..At(sys, e).got], k) == Of(At(sys, Peer(e)).wire, k)
  }

  /** Nothing of connection `k` is in flight and nothing can be done on a slot of it; others may be as busy as they
      like. */
  ghost predicate Quiescent(compat13: bool, maxsize: nat, sys: System, k: nat) {
    && HasHeard(sys, Client, k) && HasHeard(sys, Server, k)
    && forall a: Action :: Local(a) && Concerns(sys, a, k) ==> !Enabled(compat13, maxsize, sys, a)
  }

  /** The slot has sent its close and waits only for its peer. */
  predicate Rests(compat13: bool, ch: Channel) {
    if compat13 then ch.ctype.Closed? else IeofSent(ch) && !ch.ostate.OutputWaitDrain?
  }

  /** A quiescent slot waits only for its peer. */
  lemma QuiescentSlot(compat13: bool, maxsize: nat, sys: System, k: nat, e: End, c: nat)
    requires Quiescent(compat13, maxsize, sys, k) && sys.fault.NoFault? && c < |At(sys, e).channels|
    requires Stopped(compat13, At(sys, e).channels[c]) && At(sys, e).channels[c].conn == k
    ensures Rests(compat13, At(sys, e).channels[c])
  {
    var ch := At(sys, e).channels[c];
    assert !Enabled(compat13, maxsize, sys, Poll(e, c, if ch.input == [] then 0 else 1));
    assert !Enabled(compat13, maxsize, sys, Write(e, c, 0));
    assert !Enabled(compat13, maxsize, sys, Prepare(e, c));
  }

  lemma BothHeardAll(compat13: bool, s: Side, t: Side)
    requires s.got == |t.sent| && t.got == |s.sent| && Half(compat13, s, t) && Half(compat13, t, s)
    requires !s.life.Absent? && !t.life.Absent?
    requires s.life.Live? ==> Rests(compat13, s.ch)
    requires t.life.Live? ==> Rests(compat13, t.ch)
    ensures s.life.Gone?
  {
    hide DataOf, Closes, Confirmations, NoDataAfterClose, ConfirmationIsLast;
    assert t.sent[..s.got] == t.sent && s.sent[..t.got] == s.sent;
  }

  /** A quiescent system in which both sides of `k` have stopped reading holds no slot for `k`: both are free. */
  lemma QuiescentMeansFree(compat13: bool, maxsize: nat, trace: seq<System>, acts: seq<Action>, n: nat, k: nat, e: End,
                           c: nat)
    requires IsRun(compat13, maxsize, trace, acts) && n < |trace| && k < Connections(trace[n])
    requires Closing(compat13, trace[n], k) && Quiescent(compat13, maxsize, trace[n], k)
    requires c < |At(trace[n], e).channels|
    ensures !(Occupied(At(trace[n], e).channels[c]) && At(trace[n], e).channels[c].conn == k)
  {
    var sys := trace[n];
    var ch := At(sys, e).channels[c];
    if Occupied(ch) && ch.conn == k {
      var conns := RunDescribed(compat13, maxsize, trace, acts, n);
      Occupant(compat13, conns, sys, e, c);
      QuiescentSlot(compat13, maxsize, sys, k, e, c);
      LiveSideIsHeard(compat13, maxsize, conns, sys, k, e);
      var t := SideAt(conns[k], Peer(e));
      if t.life.Live? {
        QuiescentSlot(compat13, maxsize, sys, k, Peer(e), t.slot);
      }
      BothHeardAll(compat13, SideAt(conns[k], e), t);
      assert false;
    }
  }

  lemma NothingInFlight(conns: seq<Conn>, sys: System, k: nat, e: End)
    requires k < |conns| && HasHeard(sys, e, k) && HasHeard(sys, Peer(e), k)
    requires StreamsAgree(At(sys, e).wire, At(sys, e).got, At(sys, Peer(e)).wire, conns, e)
    requires StreamsAgree(At(sys, Peer(e)).wire, At(sys, Peer(e)).got, At(sys, e).wire, conns, Peer(e))
    ensures SideAt(conns[k], e).got == |SideAt(conns[k], Peer(e)).sent|
    ensures SideAt(conns[k], Peer(e)).got == |SideAt(conns[k], e).sent|
  {
  }

  lemma LivePeerStopped(compat13: bool, channels: seq<Channel>, conns: seq<Conn>, k: nat, e: End)
    requires SlotsAgree(channels, conns, e) && StoppedReading(compat13, channels, k) && k < |conns|
    requires SideAt(conns[k], e).life.Live?
    ensures var t := SideAt(conns[k], e);
      t.slot < |channels| && channels[t.slot] == t.ch && Stopped(compat13, t.ch) && t.ch.conn == k
  {
  }

  lemma LiveSideIsHeard(compat13: bool, maxsize: nat, conns: seq<Conn>, sys: System, k: nat, e: End)
    requires Describes(compat13, conns, sys) && k < |conns| && Quiescent(compat13, maxsize, sys, k)
    requires Closing(compat13, sys, k)
    requires SideAt(conns[k], e).life.Live? && !SideAt(conns[k], e).ch.ctype.Opening?
    ensures var s, t := SideAt(conns[k], e), SideAt(conns[k], Peer(e));
      && s.got == |t.sent| && t.got == |s.sent| && Half(compat13, s, t) && Half(compat13, t, s) && !t.life.Absent?
      && (t.life.Live? ==> t.slot < |At(sys, Peer(e)).channels| && At(sys, Peer(e)).channels[t.slot] == t.ch
                           && Stopped(compat13, t.ch) && t.ch.conn == k)
  {
    hide Of, StreamsAgree, DataOf, Closes, Confirmations, Enabled;
    NothingInFlight(conns, sys, k, e);
    if SideAt(conns[k], Peer(e)).life.Live? {
      LivePeerStopped(compat13, At(sys, Peer(e)).channels, conns, k, Peer(e));
    }
    assert Inv(k, compat13, conns[k]);
    IsSettled(k, compat13, conns[k], e);
  }
}
