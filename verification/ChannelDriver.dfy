/** Two channel tables working against each other, each in the rounds of its select loop: whatever their sockets do and
    in whatever order the rounds come, the tables go through a run of the state machine, and no operation ever reports a
    fault. */
module ChannelDriver {
  import opened Wire
  import opened Channels
  import opened ChannelRuns
  import opened Connection
  import opened ChannelSafety
  import opened ChannelTheorems
  import opened ChannelTable
  import opened ChannelLiveness
  import opened ChannelSweeps

  /** What happens at one end: it starts to listen; it prepares its masks, waits in select, and deals with what the
      sockets did; it sends buffered data; or it processes the next packet, if there is one. */
  datatype Round =
    | Listening(e: End)
    | Selecting(e: End, gave: seq<Ready<seq<byte>>>, took: seq<Ready<nat>>)
    | Polling(e: End, interactive: bool)
    | Delivering(e: End, connected: bool)

  /** Table `t` is that of host `h`, and has reported no fault. */
  ghost predicate IsTableOf(t: ChannelTable, h: Host)
    reads t
  {
    t.channels == h.channels && t.sent == h.wire && t.fault.NoFault?
  }

  // ---------------------------------------------------------------- what the rounds do

  /** One end as the world sees it: its table, what it has sent, how much of the other's packets it has processed, and
      what its sockets have given and taken. */
  datatype Endpoint = Endpoint(channels: seq<Channel>, sent: seq<Packet>, got: nat, socks: seq<Socket>)

  /** Both ends, and the number of the next connection. */
  datatype Both = Both(client: Endpoint, server: Endpoint, next: nat)

  const Idle: Both := Both(Endpoint([], [], 0, []), Endpoint([], [], 0, []), 0)

  function EndOf(b: Both, e: End): Endpoint {
    if e.Client? then b.client else b.server
  }

  function WithEnd(b: Both, e: End, p: Endpoint, next: nat): Both {
    if e.Client? then Both(p, b.server, next) else Both(b.client, p, next)
  }

  function SlotsOf(effs: seq<Effect>): seq<Channel> {
    seq(|effs|, i requires 0 <= i < |effs| => effs[i].ch)
  }

  /** The table after the prepare sweep. */
  function Begun(compat13: bool, p: Endpoint, next: nat): (t: Table)
    ensures |t.channels| == |p.channels|
  {
    var effs := Prepared(compat13, p.channels);
    Table(SlotsOf(effs), p.sent + Outs(effs), NoFault, next)
  }

  /** The table after one round of select. */
  function Selected(compat13: bool, maxsize: nat, p: Endpoint, next: nat, gave: seq<Ready<seq<byte>>>,
                    took: seq<Ready<nat>>): Table
  {
    var t := Begun(compat13, p, next);
    AfterAll(compat13, t, Given(ReadMask(compat13, maxsize, p.channels), gave),
             Capped(WriteMask(compat13, p.channels), took, t.channels), |p.channels|)
  }

  /** The sockets after one round of select. */
  function SelectedSocks(compat13: bool, maxsize: nat, p: Endpoint, next: nat, gave: seq<Ready<seq<byte>>>,
                         took: seq<Ready<nat>>): seq<Socket>
  {
    var t := Begun(compat13, p, next);
    SocksAfterAll(compat13, t, p.socks, Given(ReadMask(compat13, maxsize, p.channels), gave),
                  Capped(WriteMask(compat13, p.channels), took, t.channels), |p.channels|)
  }

  /** An endpoint after it has processed packet `q`. */
  function AfterPacket(compat13: bool, p: Endpoint, q: Packet, connected: bool): Endpoint {
    if q.PortOpen? then
      var h := AcceptOpen(Host(p.channels, p.sent, p.got + 1, []), q, connected);
      p.(channels := h.channels, sent := h.wire, got := h.got)
    else if 0 <= q.chan < |p.channels| then
      var eff := Arrival(compat13, p.channels[q.chan], q);
      p.(channels := p.channels[q.chan := eff.ch], sent := p.sent + eff.out, got := p.got + 1)
    else p.(got := p.got + 1)
  }

  function Played(compat13: bool, maxsize: nat, b: Both, r: Round): Both {
    var p, peer := EndOf(b, r.e), EndOf(b, Peer(r.e));
    match r
    case Listening(e) => WithEnd(b, e, p.(channels := Allocated(p.channels, NewChannel(PortListener, 0))), b.next)
    case Selecting(e, gave, took) =>
      var t := Selected(compat13, maxsize, p, b.next, gave, took);
      var socks := SelectedSocks(compat13, maxsize, p, b.next, gave, took);
      var onlooker := peer.(socks := WithQuiet(peer.socks, if t.next >= b.next then t.next - b.next else 0));
      WithEnd(WithEnd(b, Peer(e), onlooker, b.next), e, p.(channels := t.channels, sent := t.sent, socks := socks),
              t.next)
    case Polling(e, interactive) =>
      var effs := Polled(compat13, interactive, maxsize, p.channels);
      WithEnd(b, e, p.(channels := SlotsOf(effs), sent := p.sent + Outs(effs)), b.next)
    case Delivering(e, connected) =>
      if p.got < |peer.sent| then WithEnd(b, e, AfterPacket(compat13, p, peer.sent[p.got], connected), b.next) else b
  }

  function PlayedAll(compat13: bool, maxsize: nat, rounds: seq<Round>): Both {
    if rounds == [] then Idle
    else Played(compat13, maxsize, PlayedAll(compat13, maxsize, rounds[..|rounds|-1]), rounds[|rounds|-1])
  }

  // ---------------------------------------------------------------- one round of select

  /** Select reports only sockets that were asked about. */
  function Given(mask: seq<bool>, gave: seq<Ready<seq<byte>>>): seq<Ready<seq<byte>>> {
    seq(|mask|, i requires 0 <= i < |mask| => if mask[i] && i < |gave| then gave[i] else NotReady)
  }

  /** A socket takes no more than it is offered. */
  function Capped(mask: seq<bool>, took: seq<Ready<nat>>, channels: seq<Channel>): seq<Ready<nat>>
    requires |mask| == |channels|
  {
    seq(|mask|, i requires 0 <= i < |mask| =>
      if mask[i] && i < |took| && took[i].Ready? then
        Ready(if took[i].value <= |channels[i].output| then took[i].value else |channels[i].output|)
      else NotReady)
  }

  /** Preparing a slot for select leaves a slot that is selected as it was selected. */
  lemma PreparingKeepsSelection(compat13: bool, maxsize: nat, ch: Channel)
    ensures SelectsRead(compat13, maxsize, ch) ==> SelectsRead(compat13, maxsize, PrepareSelect(compat13, ch).ch)
    ensures WriteSelected(compat13, ch) ==> WriteSelected(compat13, PrepareSelect(compat13, ch).ch)
  {
  }

  lemma FilteredIsReported(compat13: bool, maxsize: nat, was: seq<Channel>, channels: seq<Channel>,
                           gave: seq<Ready<seq<byte>>>, took: seq<Ready<nat>>)
    requires |channels| == |was| && forall i :: 0 <= i < |was| ==> channels[i] == PrepareSelect(compat13, was[i]).ch
    ensures Reported(compat13, maxsize, channels, Given(ReadMask(compat13, maxsize, was), gave),
                     Capped(WriteMask(compat13, was), took, channels))
  {
    hide PrepareSelect, SelectsRead, WriteSelected;
    forall i | 0 <= i < |was|
      ensures SelectsRead(compat13, maxsize, was[i]) ==> SelectsRead(compat13, maxsize, channels[i])
      ensures WriteSelected(compat13, was[i]) ==> WriteSelected(compat13, channels[i])
    {
      PreparingKeepsSelection(compat13, maxsize, was[i]);
    }
  }

  /** The masks ask to read exactly the listeners and the open slots with room whose socket has not ended and for which
      no OCLOSE has come, and to write exactly the slots in use that hold something. */
  ghost predicate AsksRightly(maxsize: nat, sys: System, e: End, readset: seq<bool>, writeset: seq<bool>) {
    var channels := At(sys, e).channels;
    && At(sys, e).got <= |At(sys, Peer(e)).wire| && |readset| == |writeset| == |channels|
    && (forall c :: 0 <= c < |channels| ==>
          (readset[c] <==> channels[c].ctype.PortListener? || MayRead(maxsize, sys, e, c)))
    && (forall c :: 0 <= c < |channels| ==> (writeset[c] <==> Occupied(channels[c]) && channels[c].output != []))
  }

  lemma SlotAskedRightly(compat13: bool, maxsize: nat, trace: seq<System>, acts: seq<Action>, e: End, c: nat)
    requires IsRun(compat13, maxsize, trace, acts) && c < |At(trace[|acts|], e).channels|
    ensures At(trace[|acts|], e).got <= |At(trace[|acts|], Peer(e)).wire|
    ensures var ch := At(trace[|acts|], e).channels[c];
      && (SelectsRead(compat13, maxsize, ch) <==> ch.ctype.PortListener? || MayRead(maxsize, trace[|acts|], e, c))
      && (WriteSelected(compat13, ch) <==> Occupied(ch) && ch.output != [])
  {
    hide Next, Enabled, HeardPackets, Confirmations, Of;
    var conns := RunDescribed(compat13, maxsize, trace, acts, |acts|);
    if Occupied(At(trace[|acts|], e).channels[c]) {
      SelectedExactly(compat13, maxsize, trace, acts, |acts|, e, c);
    }
  }

  lemma MasksAskRightly(compat13: bool, maxsize: nat, trace: seq<System>, acts: seq<Action>, e: End)
    requires IsRun(compat13, maxsize, trace, acts)
    ensures var channels := At(trace[|acts|], e).channels;
      AsksRightly(maxsize, trace[|acts|], e, ReadMask(compat13, maxsize, channels), WriteMask(compat13, channels))
  {
    hide Next, Enabled, SelectsRead, WriteSelected, MayRead, Of, Occupied;
    var sys := trace[|acts|];
    var conns := RunDescribed(compat13, maxsize, trace, acts, |acts|);
    forall c | 0 <= c < |At(sys, e).channels|
      ensures At(sys, e).got <= |At(sys, Peer(e)).wire|
      ensures var ch := At(sys, e).channels[c];
        && (SelectsRead(compat13, maxsize, ch) <==> ch.ctype.PortListener? || MayRead(maxsize, sys, e, c))
        && (WriteSelected(compat13, ch) <==> Occupied(ch) && ch.output != [])
    {
      SlotAskedRightly(compat13, maxsize, trace, acts, e, c);
    }
  }

  lemma {:induction false} NoneFaults(effs: seq<Effect>, c: nat)
    requires c < |effs| && Faults(effs).NoFault?
    ensures effs[c].fault.NoFault?
    decreases |effs|
  {
    if c < |effs| - 1 {
      NoneFaults(effs[..|effs|-1], c);
    }
  }

  /** After the prepare sweep there is nothing left to prepare. */
  lemma PreparedOnce(compat13: bool, channels: seq<Channel>)
    requires Faults(Prepared(compat13, channels)).NoFault?
    ensures forall c :: 0 <= c < |channels| ==> !PrepareActs(compat13, Prepared(compat13, channels)[c].ch)
  {
    hide PrepareActs, PrepareSelect;
    forall c | 0 <= c < |channels|
      ensures !PrepareActs(compat13, Prepared(compat13, channels)[c].ch)
    {
      NoneFaults(Prepared(compat13, channels), c);
      NothingLeftToPrepare(compat13, channels[c]);
    }
  }

  lemma NothingLeftToPrepare(compat13: bool, ch: Channel)
    requires PrepareSelect(compat13, ch).fault.NoFault?
    ensures !PrepareActs(compat13, PrepareSelect(compat13, ch).ch)
  {
  }

  /** The prepare sweep, and what it does to the run. */
  method Prepare(me: ChannelTable, ghost e: End, ghost trace: seq<System>, ghost acts: seq<Action>)
    returns (readset: seq<bool>, writeset: seq<bool>, ghost trace': seq<System>, ghost acts': seq<Action>)
    requires IsRun(me.compat13, me.maxsize, trace, acts) && IsTableOf(me, At(trace[|acts|], e))
    modifies me
    ensures IsRun(me.compat13, me.maxsize, trace', acts') && IsTableOf(me, At(trace'[|acts'|], e))
    ensures trace <= trace' && acts <= acts'
    ensures SweptTo(trace[|acts|], trace'[|acts'|], e, Prepared(me.compat13, old(me.channels)), |old(me.channels)|)
    ensures me.channels == SlotsOf(Prepared(me.compat13, old(me.channels)))
    ensures me.sent == old(me.sent) + Outs(Prepared(me.compat13, old(me.channels)))
    ensures readset == ReadMask(me.compat13, me.maxsize, old(me.channels))
    ensures writeset == WriteMask(me.compat13, old(me.channels))
    ensures AsksRightly(me.maxsize, trace[|acts|], e, readset, writeset)
    ensures forall c :: 0 <= c < |me.channels| ==> !PrepareActs(me.compat13, me.channels[c])
  {
    hide PrepareSelect, SelectsRead, WriteSelected, IsRun, AsksRightly, PrepareActs;
    MasksAskRightly(me.compat13, me.maxsize, trace, acts, e);
    trace', acts' := PrepareSweepRuns(me.compat13, me.maxsize, trace, acts, e, |me.channels|);
    ghost var effs := Prepared(me.compat13, me.channels);
    assert effs[..|effs|] == effs;
    PreparedOnce(me.compat13, me.channels);
    readset, writeset := me.ChannelPrepareSelect();
  }

  /** What a socket offers or takes is of interest only if select was asked about it. */
  function Heeded<T>(asked: bool, ready: seq<Ready<T>>, c: nat): Ready<T> {
    if asked && c < |ready| then ready[c] else NotReady
  }

  /** Every socket has given what it offered, if its slot may read on, and taken what it would of what its slot holds,
      unless it turned out to be at its end; nothing else. Every listener that is ready has accepted a connection. */
  ghost predicate Served(maxsize: nat, sys: System, sys': System, e: End, gave: seq<Ready<seq<byte>>>,
                         took: seq<Ready<nat>>) {
    var h, h' := At(sys, e), At(sys', e);
    && h.got <= |At(sys, Peer(e)).wire|
    && (forall c :: 0 <= c < |h.channels| && Occupied(h.channels[c]) ==>
          SocketServed(h.channels[c], h.socks, h'.socks, Heeded(MayRead(maxsize, sys, e, c), gave, c),
                       Heeded(h.channels[c].output != [], took, c)))
    && Connections(sys') == Connections(sys) + Knocks(h.channels, gave, |h.channels|)
  }

  ghost predicate SocketServed(ch: Channel, socks: seq<Socket>, socks': seq<Socket>, r: Ready<seq<byte>>,
                               w: Ready<nat>) {
    && ch.conn < |socks| <= |socks'|
    && var s, s' := socks[ch.conn], socks'[ch.conn];
    var atEnd := r.Ready? && r.value == [];
    var n := if w.NotReady? || atEnd then 0 else if w.value <= |ch.output| then w.value else |ch.output|;
    && s'.read == s.read + (if r.Ready? then r.value else [])
    && (s'.ended <==> s.ended || atEnd)
    && s'.written == s.written + ch.output[..n]
    && (s'.failed <==> s.failed || (w.Ready? && !atEnd && n == 0))
  }

  /** Preparing changes neither what a slot that is written holds, nor its connection; a slot it frees is not asked
      about. */
  lemma PreparedSlot(compat13: bool, maxsize: nat, ch: Channel)
    ensures var ch' := PrepareSelect(compat13, ch).ch;
      && ch'.conn == ch.conn && (WriteSelected(compat13, ch) ==> ch'.output == ch.output)
      && (ch'.ctype.PortListener? <==> ch.ctype.PortListener?) && (Occupied(ch') ==> Occupied(ch))
      && (!Occupied(ch') && Occupied(ch) ==> !SelectsRead(compat13, maxsize, ch) && !WriteSelected(compat13, ch))
  {
  }

  /** What the sockets of one round of select have done at slot `c`. */
  lemma SlotMoves(compat13: bool, maxsize: nat, p: Endpoint, next: nat, gave: seq<Ready<seq<byte>>>,
                  took: seq<Ready<nat>>, c: nat)
    requires c < |p.channels| && Occupied(p.channels[c]) && OwnSockets(p.channels, |p.socks|)
    ensures var ch := p.channels[c]; var ch' := PrepareSelect(compat13, ch).ch;
      var socks' := SelectedSocks(compat13, maxsize, p, next, gave, took);
      && ch.conn < |p.socks| <= |socks'|
      && socks'[ch.conn]
         == if !Occupied(ch') then p.socks[ch.conn]
            else Moved(p.socks[ch.conn], ch', Heeded(SelectsRead(compat13, maxsize, ch), gave, c),
                       CappedAt(Shortened(Heeded(WriteSelected(compat13, ch), took, c), ch'), ch'))
  {
    hide PrepareSelect, WriteSelected, SelectsRead, Reported, SocksAfterAll, Moved;
    var ch := p.channels[c];
    var t := Begun(compat13, p, next);
    var given := Given(ReadMask(compat13, maxsize, p.channels), gave);
    var capped := Capped(WriteMask(compat13, p.channels), took, t.channels);
    forall i | 0 <= i < |p.channels|
      ensures t.channels[i].conn == p.channels[i].conn && (Occupied(t.channels[i]) ==> Occupied(p.channels[i]))
    {
      PreparedSlot(compat13, maxsize, p.channels[i]);
    }
    FilteredIsReported(compat13, maxsize, p.channels, t.channels, gave, took);
    if Occupied(t.channels[c]) {
      SocketsServed(compat13, maxsize, t, p.socks, given, capped, |p.channels|, c);
    } else {
      UnusedSocketKeeps(compat13, maxsize, t, p.socks, given, capped, |p.channels|, ch.conn);
    }
  }

  function Shortened(w: Ready<nat>, ch: Channel): Ready<nat> {
    if w.Ready? && w.value > |ch.output| then Ready(|ch.output|) else w
  }

  lemma MovedIsServed(ch: Channel, ch': Channel, socks: seq<Socket>, socks': seq<Socket>, r: Ready<seq<byte>>,
                      w: Ready<nat>)
    requires ch.conn < |socks| <= |socks'| && (w.Ready? ==> ch'.output == ch.output)
    requires socks'[ch.conn] == Moved(socks[ch.conn], ch', r, CappedAt(Shortened(w, ch'), ch'))
    ensures SocketServed(ch, socks, socks', r, w)
  {
    var s := socks[ch.conn];
    assert s.read + [] == s.read && s.written + ch.output[..0] == s.written;
  }

  lemma SlotServed(compat13: bool, maxsize: nat, p: Endpoint, next: nat, gave: seq<Ready<seq<byte>>>,
                   took: seq<Ready<nat>>, c: nat)
    requires c < |p.channels| && Occupied(p.channels[c]) && OwnSockets(p.channels, |p.socks|)
    ensures var ch := p.channels[c];
      SocketServed(ch, p.socks, SelectedSocks(compat13, maxsize, p, next, gave, took),
                   Heeded(SelectsRead(compat13, maxsize, ch), gave, c), Heeded(WriteSelected(compat13, ch), took, c))
  {
    hide PrepareSelect, WriteSelected, SelectsRead, SelectedSocks, SocketServed, Moved, OwnSockets;
    var ch := p.channels[c];
    var ch' := PrepareSelect(compat13, ch).ch;
    var r, w := Heeded(SelectsRead(compat13, maxsize, ch), gave, c), Heeded(WriteSelected(compat13, ch), took, c);
    SlotMoves(compat13, maxsize, p, next, gave, took, c);
    PreparedSlot(compat13, maxsize, ch);
    var socks' := SelectedSocks(compat13, maxsize, p, next, gave, took);
    if !Occupied(ch') {
      Unmoves(p.socks[ch.conn], ch');
    }
    MovedIsServed(ch, ch', p.socks, socks', r, w);
  }

  lemma Unmoves(s: Socket, ch: Channel)
    ensures Moved(s, ch, NotReady, NotReady) == s
  {
  }

  lemma {:induction false} KnocksAreHeard(compat13: bool, maxsize: nat, channels: seq<Channel>,
                                          gave: seq<Ready<seq<byte>>>, n: nat)
    requires n <= |channels|
    ensures Knocks(SlotsOf(Prepared(compat13, channels)), Given(ReadMask(compat13, maxsize, channels), gave), n)
         == Knocks(channels, gave, n)
  {
    hide PrepareSelect, ReadSelected;
    if n > 0 {
      KnocksAreHeard(compat13, maxsize, channels, gave, n - 1);
      PreparedSlot(compat13, maxsize, channels[n-1]);
    }
  }

  lemma ListenersServed(compat13: bool, maxsize: nat, p: Endpoint, next: nat, gave: seq<Ready<seq<byte>>>,
                        took: seq<Ready<nat>>)
    ensures Selected(compat13, maxsize, p, next, gave, took).next == next + Knocks(p.channels, gave, |p.channels|)
  {
    hide PrepareSelect, ReadSelected, Reported, AfterAll, Knocks;
    var t := Begun(compat13, p, next);
    FilteredIsReported(compat13, maxsize, p.channels, t.channels, gave, took);
    KnocksAreHeard(compat13, maxsize, p.channels, gave, |p.channels|);
    EveryKnockIsAnswered(compat13, maxsize, t, Given(ReadMask(compat13, maxsize, p.channels), gave),
                         Capped(WriteMask(compat13, p.channels), took, t.channels), |p.channels|);
  }

  lemma OwnSocketsOfRun(compat13: bool, conns: seq<Conn>, sys: System, e: End)
    requires Describes(compat13, conns, sys)
    ensures OwnSockets(At(sys, e).channels, |At(sys, e).socks|)
  {
    hide StreamsAgree, AllInOrder;
  }

  /** One round of select serves every socket and every listener. */
  lemma RoundServes(compat13: bool, maxsize: nat, trace: seq<System>, acts: seq<Action>, e: End, sys': System,
                    gave: seq<Ready<seq<byte>>>, took: seq<Ready<nat>>)
    requires IsRun(compat13, maxsize, trace, acts)
    requires var sys := trace[|acts|]; var h := At(sys, e);
      var p := Endpoint(h.channels, h.wire, h.got, h.socks);
      && At(sys', e).socks == SelectedSocks(compat13, maxsize, p, Connections(sys), gave, took)
      && Connections(sys') == Selected(compat13, maxsize, p, Connections(sys), gave, took).next
    ensures Served(maxsize, trace[|acts|], sys', e, gave, took)
  {
    hide Next, Enabled, SelectedSocks, Selected, SelectsRead, WriteSelected, MayRead, SocketServed, Knocks, Of;
    var sys := trace[|acts|];
    var h := At(sys, e);
    var p := Endpoint(h.channels, h.wire, h.got, h.socks);
    var conns := RunDescribed(compat13, maxsize, trace, acts, |acts|);
    OwnSocketsOfRun(compat13, conns, sys, e);
    ListenersServed(compat13, maxsize, p, Connections(sys), gave, took);
    hide Describes;
    forall c | 0 <= c < |h.channels| && Occupied(h.channels[c])
      ensures h.got <= |At(sys, Peer(e)).wire|
      ensures SocketServed(h.channels[c], h.socks, At(sys', e).socks, Heeded(MayRead(maxsize, sys, e, c), gave, c),
                           Heeded(h.channels[c].output != [], took, c))
    {
      SlotAskedRightly(compat13, maxsize, trace, acts, e, c);
      SlotServed(compat13, maxsize, p, Connections(sys), gave, took, c);
    }
  }

  /** Prepare, select, and deal with what the sockets did. */
  method Select(me: ChannelTable, gave: seq<Ready<seq<byte>>>, took: seq<Ready<nat>>, next: nat, ghost e: End,
                ghost trace: seq<System>, ghost acts: seq<Action>)
    returns (after: nat, ghost trace': seq<System>, ghost acts': seq<Action>)
    requires IsRun(me.compat13, me.maxsize, trace, acts) && IsTableOf(me, At(trace[|acts|], e))
    requires next == Connections(trace[|acts|])
    modifies me
    ensures IsRun(me.compat13, me.maxsize, trace', acts') && IsTableOf(me, At(trace'[|acts'|], e))
    ensures trace <= trace' && acts <= acts' && after == Connections(trace'[|acts'|])
    ensures var p := Endpoint(old(me.channels), old(me.sent), At(trace[|acts|], e).got, At(trace[|acts|], e).socks);
      var t := Selected(me.compat13, me.maxsize, p, next, gave, took);
      && me.channels == t.channels && me.sent == t.sent && next <= after == t.next
      && At(trace'[|acts'|], e).socks == SelectedSocks(me.compat13, me.maxsize, p, next, gave, took)
    ensures At(trace'[|acts'|], Peer(e)) == Onlooker(At(trace[|acts|], Peer(e)), after - next)
    ensures At(trace'[|acts'|], e).got == At(trace[|acts|], e).got
    ensures Served(me.maxsize, trace[|acts|], trace'[|acts'|], e, gave, took)
  {
    hide PrepareSelect, SelectsRead, WriteSelected, Reported, AfterAll, SocksAfterAll, Served, AsksRightly, PrepareActs;
    ghost var was := me.channels;
    var readset, writeset;
    readset, writeset, trace', acts' := Prepare(me, e, trace, acts);
    FilteredIsReported(me.compat13, me.maxsize, was, me.channels, gave, took);
    var given, accepted := Given(readset, gave), Capped(writeset, took, me.channels);
    ghost var n := |given|;
    trace', acts' := AfterSweepRuns(me.compat13, me.maxsize, trace', acts', e, given, accepted, n);
    after := me.ChannelAfterSelect(given, accepted, next);
    RoundServes(me.compat13, me.maxsize, trace, acts, e, trace'[|acts'|], gave, took);
  }

  /** A slot from which data may be sent has got rid of all of it, of 512 bytes or of half a packet; one that has
      nothing more to send has said so. */
  predicate Relieved(compat13: bool, maxsize: nat, was: Channel, now: Channel) {
    PollEligible(compat13, was) ==>
      if was.input != [] then
        && |now.input| < |was.input| && now.input == was.input[|was.input| - |now.input|..]
        && (now.input == [] || |was.input| - |now.input| >= 512 || |was.input| - |now.input| >= maxsize / 2)
      else
        was.istate.InputWaitDrain? && !compat13 ==> now.istate.InputWaitOclose?
  }

  lemma PollRelieves(compat13: bool, interactive: bool, maxsize: nat, ch: Channel)
    requires maxsize >= 2
    ensures Relieved(compat13, maxsize, ch, PollOne(compat13, interactive, maxsize, ch).ch)
  {
  }

  method Poll(me: ChannelTable, interactive: bool, ghost e: End, ghost trace: seq<System>, ghost acts: seq<Action>)
    returns (ghost trace': seq<System>, ghost acts': seq<Action>)
    requires IsRun(me.compat13, me.maxsize, trace, acts) && IsTableOf(me, At(trace[|acts|], e)) && me.maxsize >= 2
    modifies me
    ensures IsRun(me.compat13, me.maxsize, trace', acts') && IsTableOf(me, At(trace'[|acts'|], e))
    ensures trace <= trace' && acts <= acts' && Connections(trace'[|acts'|]) == Connections(trace[|acts|])
    ensures At(trace'[|acts'|], Peer(e)) == At(trace[|acts|], Peer(e))
    ensures At(trace'[|acts'|], e).got == At(trace[|acts|], e).got
    ensures At(trace'[|acts'|], e).socks == At(trace[|acts|], e).socks
    ensures var effs := Polled(me.compat13, interactive, me.maxsize, old(me.channels));
      me.channels == SlotsOf(effs) && me.sent == old(me.sent) + Outs(effs)
    ensures |me.channels| == |old(me.channels)|
    ensures forall c :: 0 <= c < |me.channels| ==>
      Relieved(me.compat13, me.maxsize, old(me.channels)[c], me.channels[c])
  {
    hide PollOne, IsRun, Relieved;
    ghost var effs := Polled(me.compat13, interactive, me.maxsize, me.channels);
    forall c | 0 <= c < |effs|
      ensures Relieved(me.compat13, me.maxsize, me.channels[c], effs[c].ch)
    {
      PollRelieves(me.compat13, interactive, me.maxsize, me.channels[c]);
    }
    trace', acts' := PollSweepRuns(me.compat13, interactive, me.maxsize, trace, acts, e, |me.channels|);
    me.ChannelOutputPoll(interactive);
    assert effs[..|effs|] == effs;
  }

  // ---------------------------------------------------------------- one packet

  /** What the next packet does to the endpoint that processes it, read off the tables. */
  lemma DeliveryNext(compat13: bool, maxsize: nat, sys: System, e: End, connected: bool)
    requires sys.fault.NoFault? && Pending(sys, e)
    requires Next(compat13, maxsize, sys, Deliver(e, connected)).fault.NoFault?
    ensures var h, p := At(sys, e), At(sys, Peer(e)).wire[At(sys, e).got];
      var sys' := Next(compat13, maxsize, sys, Deliver(e, connected));
      && At(sys', Peer(e)) == At(sys, Peer(e)) && At(sys', e).got == h.got + 1 && At(sys', e).socks == h.socks
      && Connections(sys') == Connections(sys)
      && (p.PortOpen? ==> At(sys', e) == AcceptOpen(h.(got := h.got + 1), p, connected))
      && (!p.PortOpen? ==>
            && 0 <= p.chan < |h.channels|
            && var eff := Arrival(compat13, h.channels[p.chan], p);
            && At(sys', e).channels == h.channels[p.chan := eff.ch] && At(sys', e).wire == h.wire + eff.out
            && eff.fault.NoFault?)
  {
    hide Arrival;
  }

  method Process(me: ChannelTable, p: Packet, connected: bool, ghost e: End, ghost trace: seq<System>,
                 ghost acts: seq<Action>)
    returns (ghost trace': seq<System>, ghost acts': seq<Action>)
    requires IsRun(me.compat13, me.maxsize, trace, acts) && IsTableOf(me, At(trace[|acts|], e))
    requires Pending(trace[|acts|], e) && p == At(trace[|acts|], Peer(e)).wire[At(trace[|acts|], e).got]
    modifies me
    ensures IsRun(me.compat13, me.maxsize, trace', acts') && IsTableOf(me, At(trace'[|acts'|], e))
    ensures trace <= trace' && acts <= acts' && Connections(trace'[|acts'|]) == Connections(trace[|acts|])
    ensures At(trace'[|acts'|], Peer(e)) == At(trace[|acts|], Peer(e))
    ensures var h, h' := At(trace[|acts|], e), At(trace'[|acts'|], e);
      Endpoint(me.channels, me.sent, h'.got, h'.socks)
      == AfterPacket(me.compat13, Endpoint(old(me.channels), old(me.sent), h.got, h.socks), p, connected)
  {
    hide Arrival, Next;
    ghost var sys := trace[|acts|];
    SlotReuseIsSafe(me.compat13, me.maxsize, trace, acts, |acts|, e);
    RunGoesOn(me.compat13, me.maxsize, trace, acts, Deliver(e, connected));
    DeliveryNext(me.compat13, me.maxsize, sys, e, connected);
    trace' := trace + [Next(me.compat13, me.maxsize, sys, Deliver(e, connected))];
    acts' := acts + [Deliver(e, connected)];
    me.ChannelInput(p, connected);
  }

  method StartListening(me: ChannelTable, ghost e: End, ghost trace: seq<System>, ghost acts: seq<Action>)
    returns (ghost trace': seq<System>, ghost acts': seq<Action>)
    requires IsRun(me.compat13, me.maxsize, trace, acts) && IsTableOf(me, At(trace[|acts|], e))
    modifies me
    ensures IsRun(me.compat13, me.maxsize, trace', acts') && IsTableOf(me, At(trace'[|acts'|], e))
    ensures trace <= trace' && acts <= acts' && Connections(trace'[|acts'|]) == Connections(trace[|acts|])
    ensures At(trace'[|acts'|], Peer(e)) == At(trace[|acts|], Peer(e))
    ensures At(trace'[|acts'|], e).got == At(trace[|acts|], e).got
    ensures At(trace'[|acts'|], e).socks == At(trace[|acts|], e).socks
    ensures me.channels == Allocated(old(me.channels), NewChannel(PortListener, 0)) && me.sent == old(me.sent)
  {
    ghost var sys := trace[|acts|];
    SlotReuseIsSafe(me.compat13, me.maxsize, trace, acts, |acts|, e);
    RunGoesOn(me.compat13, me.maxsize, trace, acts, Listen(e));
    trace' := trace + [Next(me.compat13, me.maxsize, sys, Listen(e))];
    acts' := acts + [Listen(e)];
    me.ChannelListen();
  }

  // ---------------------------------------------------------------- both ends

  /** The two tables and the packets processed are as `b` says. */
  ghost predicate Shown(client: ChannelTable, server: ChannelTable, b: Both)
    reads client, server
  {
    && client.channels == b.client.channels && client.sent == b.client.sent
    && server.channels == b.server.channels && server.sent == b.server.sent
  }

  /** `sys` is as `b` says. */
  ghost predicate Agrees(b: Both, sys: System) {
    && b.client.got == sys.client.got && b.server.got == sys.server.got && b.next == Connections(sys)
    && b.client.socks == sys.client.socks && b.server.socks == sys.server.socks
  }

  /** The sockets of end `e` have taken, in order, what those of the other end gave; under protocol 1.5, once `e` has
      sent its OCLOSE, all of it exactly when no write failed. */
  ghost predicate Delivered(compat13: bool, b: Both, e: End) {
    && |b.client.socks| == |b.server.socks| == b.next
    && forall k :: 0 <= k < b.next ==>
         var from, to := EndOf(b, Peer(e)).socks[k], EndOf(b, e).socks[k];
         && to.written <= from.read
         && (!compat13 && Confirmations(Of(EndOf(b, e).sent, k)) == 1 ==> (to.written == from.read <==> !to.failed))
  }

  /** One round at one end, the other end looking on. */
  method Play(me: ChannelTable, peer: ChannelTable, ghost b: Both, got: nat, next: nat, r: Round,
              ghost trace: seq<System>, ghost acts: seq<Action>)
    returns (got': nat, next': nat, ghost trace': seq<System>, ghost acts': seq<Action>)
    requires me != peer && me.maxsize >= 2
    requires IsRun(me.compat13, me.maxsize, trace, acts)
    requires IsTableOf(me, At(trace[|acts|], r.e)) && IsTableOf(peer, At(trace[|acts|], Peer(r.e)))
    requires got == At(trace[|acts|], r.e).got && next == Connections(trace[|acts|])
    requires EndOf(b, r.e) == Endpoint(me.channels, me.sent, got, At(trace[|acts|], r.e).socks) && b.next == next
    requires EndOf(b, Peer(r.e)).sent == peer.sent && EndOf(b, Peer(r.e)).socks == At(trace[|acts|], Peer(r.e)).socks
    modifies me
    ensures IsRun(me.compat13, me.maxsize, trace', acts')
    ensures IsTableOf(me, At(trace'[|acts'|], r.e)) && IsTableOf(peer, At(trace'[|acts'|], Peer(r.e)))
    ensures got' == At(trace'[|acts'|], r.e).got && next' == Connections(trace'[|acts'|])
    ensures At(trace'[|acts'|], Peer(r.e)).got == At(trace[|acts|], Peer(r.e)).got
    ensures var b' := Played(me.compat13, me.maxsize, b, r);
      && EndOf(b', r.e) == Endpoint(me.channels, me.sent, got', At(trace'[|acts'|], r.e).socks)
      && EndOf(b', Peer(r.e)) == EndOf(b, Peer(r.e)).(socks := At(trace'[|acts'|], Peer(r.e)).socks)
      && b'.next == next'
  {
    hide Next, Enabled, Prepared, Polled, Selected, SelectedSocks, AfterPacket, IsRun;
    got', next' := got, next;
    match r {
      case Listening(e) =>
        trace', acts' := StartListening(me, e, trace, acts);
      case Selecting(e, gave, took) =>
        next', trace', acts' := Select(me, gave, took, next, e, trace, acts);
      case Polling(e, interactive) =>
        trace', acts' := Poll(me, interactive, e, trace, acts);
      case Delivering(e, connected) =>
        trace', acts' := trace, acts;
        if got < |peer.sent| {
          trace', acts' := Process(me, peer.sent[got], connected, e, trace, acts);
          got' := got + 1;
          AfterPacketCounts(me.compat13, EndOf(b, e), peer.sent[got], connected);
        }
    }
  }

  lemma AfterPacketCounts(compat13: bool, p: Endpoint, q: Packet, connected: bool)
    ensures AfterPacket(compat13, p, q, connected).got == p.got + 1
  {
    hide Arrival;
  }

  lemma RunDelivers(compat13: bool, maxsize: nat, trace: seq<System>, acts: seq<Action>, b: Both, e: End)
    requires IsRun(compat13, maxsize, trace, acts) && Agrees(b, trace[|acts|])
    requires EndOf(b, e).sent == At(trace[|acts|], e).wire
    ensures Delivered(compat13, b, e)
  {
    hide Next, Enabled, Of, Confirmations, Describes;
    var conns := RunDescribed(compat13, maxsize, trace, acts, |acts|);
    EqualSockets(compat13, conns, trace[|acts|]);
    forall k | 0 <= k < b.next
      ensures var from, to := EndOf(b, Peer(e)).socks[k], EndOf(b, e).socks[k];
        && to.written <= from.read
        && (!compat13 && Confirmations(Of(EndOf(b, e).sent, k)) == 1 ==> (to.written == from.read <==> !to.failed))
    {
      DataArrives(compat13, maxsize, trace, acts, |acts|, k, e);
    }
  }

  lemma EqualSockets(compat13: bool, conns: seq<Conn>, sys: System)
    requires Describes(compat13, conns, sys)
    ensures |sys.client.socks| == |sys.server.socks|
  {
  }

  /** Two tables driven through any rounds: they end as the rounds say, and they have gone through a run of the state
      machine, so that every theorem about runs holds of them. Neither ever reports a fault, and the sockets have
      taken what the other end's gave. */
  method Drive(compat13: bool, maxsize: nat, rounds: seq<Round>)
    returns (client: ChannelTable, server: ChannelTable, ghost trace: seq<System>, ghost acts: seq<Action>)
    requires maxsize >= 2
    ensures IsRun(compat13, maxsize, trace, acts)
    ensures IsTableOf(client, trace[|acts|].client) && IsTableOf(server, trace[|acts|].server)
    ensures Shown(client, server, PlayedAll(compat13, maxsize, rounds))
    ensures Agrees(PlayedAll(compat13, maxsize, rounds), trace[|acts|])
    ensures Delivered(compat13, PlayedAll(compat13, maxsize, rounds), Client)
    ensures Delivered(compat13, PlayedAll(compat13, maxsize, rounds), Server)
  {
    hide Next, Enabled, Played;
    client := new ChannelTable(compat13, maxsize);
    server := new ChannelTable(compat13, maxsize);
    trace, acts := [Start], [];
    var gotClient: nat, gotServer: nat, next: nat := 0, 0, 0;
    for i := 0 to |rounds|
      invariant fresh(client) && fresh(server) && client != server
      invariant client.compat13 == server.compat13 == compat13 && client.maxsize == server.maxsize == maxsize
      invariant IsRun(compat13, maxsize, trace, acts)
      invariant IsTableOf(client, trace[|acts|].client) && IsTableOf(server, trace[|acts|].server)
      invariant gotClient == trace[|acts|].client.got && gotServer == trace[|acts|].server.got
      invariant next == Connections(trace[|acts|])
      invariant PlayedAll(compat13, maxsize, rounds[..i])
             == Both(Endpoint(client.channels, client.sent, gotClient, trace[|acts|].client.socks),
                     Endpoint(server.channels, server.sent, gotServer, trace[|acts|].server.socks), next)
    {
      assert rounds[..i+1][..i] == rounds[..i];
      ghost var b := PlayedAll(compat13, maxsize, rounds[..i]);
      if rounds[i].e.Client? {
        gotClient, next, trace, acts := Play(client, server, b, gotClient, next, rounds[i], trace, acts);
      } else {
        gotServer, next, trace, acts := Play(server, client, b, gotServer, next, rounds[i], trace, acts);
      }
    }
    assert rounds[..|rounds|] == rounds;
    RunDelivers(compat13, maxsize, trace, acts, PlayedAll(compat13, maxsize, rounds), Client);
    RunDelivers(compat13, maxsize, trace, acts, PlayedAll(compat13, maxsize, rounds), Server);
  }
}
